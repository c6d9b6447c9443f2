/** Authorization of a capability request against a mission's authorization and the adapter's own declaration. */
module CapabilityPolicy {
  import opened Options

  datatype IdempotencyClass = Safe | Idempotent | AtMostOnce

  function Strength(c: IdempotencyClass): nat {
    match c case Safe => 0 case Idempotent => 1 case AtMostOnce => 2
  }

  datatype Intent = Intent(
    capability: string, action: string, resource: Option<string>, externalEffect: bool,
    idempotency: IdempotencyClass, key: Option<string>)

  /** Python truthiness of the idempotency key. */
  predicate HasKey(intent: Intent) {
    intent.key.Some? && intent.key.value != ""
  }

  /** A scope entry as it arrives: absent, readable, or of some other type. */
  datatype Names = One(name: string) | Many(names: seq<string>) | UnreadableNames

  datatype ActionScope = AllActions | Actions(byCapability: map<string, Names>) | UnreadableActions

  datatype ResourceScope = AllResources | Resources(names: Names)

  datatype Authorization = Authorization(
    allowed: seq<string>, denied: seq<string>, actions: ActionScope, resources: ResourceScope,
    externalEffectsAllowed: bool, expiresAt: Option<int>)

  datatype Declaration = Declaration(externalEffect: bool, minimum: IdempotencyClass)

  /** What stands in for a missing declaration: an external effect, at most once. */
  const UNDECLARED := Declaration(true, AtMostOnce)

  datatype Denial =
    | Expired | CapabilityDenied | CapabilityNotAuthorized
    | ActionsUnreadable | ActionNotAuthorized
    | ResourcesUnreadable | ResourceRequired | ResourceNotAuthorized
    | ExternalEffectsNotAuthorized | KeyRequired

  function EffectiveClass(intent: Intent, declaration: Declaration): (c: IdempotencyClass)
    ensures Strength(c) >= Strength(intent.idempotency) && Strength(c) >= Strength(declaration.minimum)
    ensures c in {intent.idempotency, declaration.minimum}
  {
    if Strength(intent.idempotency) >= Strength(declaration.minimum) then intent.idempotency
    else declaration.minimum
  }

  function CheckActions(intent: Intent, scope: ActionScope): Option<Denial> {
    match scope
    case AllActions => None
    case UnreadableActions => Some(ActionsUnreadable)
    case Actions(byCapability) =>
      if intent.capability !in byCapability then None
      else match byCapability[intent.capability]
        case UnreadableNames => Some(ActionsUnreadable)
        case One(name) => if intent.action == name then None else Some(ActionNotAuthorized)
        case Many(names) => if intent.action in names then None else Some(ActionNotAuthorized)
  }

  function CheckResources(intent: Intent, scope: ResourceScope): Option<Denial> {
    match scope
    case AllResources => None
    case Resources(UnreadableNames) => Some(ResourcesUnreadable)
    case Resources(One(name)) => CheckResource(intent.resource, [name])
    case Resources(Many(names)) => CheckResource(intent.resource, names)
  }

  function CheckResource(resource: Option<string>, names: seq<string>): Option<Denial> {
    if resource == None then Some(ResourceRequired)
    else if resource.value !in names then Some(ResourceNotAuthorized)
    else None
  }

  function Authorize(intent: Intent, authorization: Authorization, declaration: Declaration, now: int): Option<Denial> {
    if authorization.expiresAt.Some? && authorization.expiresAt.value <= now then Some(Expired)
    else if intent.capability in authorization.denied then Some(CapabilityDenied)
    else if intent.capability !in authorization.allowed then Some(CapabilityNotAuthorized)
    else if CheckActions(intent, authorization.actions).Some? then CheckActions(intent, authorization.actions)
    else if CheckResources(intent, authorization.resources).Some? then CheckResources(intent, authorization.resources)
    else if (declaration.externalEffect || intent.externalEffect) && !authorization.externalEffectsAllowed then
      Some(ExternalEffectsNotAuthorized)
    else if EffectiveClass(intent, declaration) == AtMostOnce && !HasKey(intent) then Some(KeyRequired)
    else None
  }

  // ---------------------------------------------------------------- what is permitted

  /** A scope entry names this; an unreadable one names nothing. */
  predicate Named(name: string, names: Names) {
    match names case One(only) => name == only case Many(all) => name in all case UnreadableNames => false
  }

  /** The entry of an action scope that is about the capability, if there is one. */
  function ActionEntry(intent: Intent, scope: ActionScope): Option<Names> {
    if scope.Actions? && intent.capability in scope.byCapability then Some(scope.byCapability[intent.capability]) else None
  }

  predicate ActionInScope(intent: Intent, scope: ActionScope) {
    && !scope.UnreadableActions?
    && (ActionEntry(intent, scope).Some? ==> Named(intent.action, ActionEntry(intent, scope).value))
  }

  predicate ResourceInScope(intent: Intent, scope: ResourceScope) {
    scope.Resources? ==> intent.resource.Some? && Named(intent.resource.value, scope.names)
  }

  /** The authorization as one condition, with no order of checks; neither word on effect or class weakens the other. */
  predicate Permitted(intent: Intent, authorization: Authorization, declaration: Declaration, now: int) {
    && (authorization.expiresAt.Some? ==> now < authorization.expiresAt.value)
    && intent.capability in authorization.allowed && intent.capability !in authorization.denied
    && ActionInScope(intent, authorization.actions) && ResourceInScope(intent, authorization.resources)
    && (declaration.externalEffect || intent.externalEffect ==> authorization.externalEffectsAllowed)
    && (declaration.minimum == AtMostOnce || intent.idempotency == AtMostOnce ==>
         intent.key.Some? && intent.key.value != "")
  }

  /** A request is authorized exactly if it is permitted. */
  lemma AuthorizedExactly(intent: Intent, authorization: Authorization, declaration: Declaration, now: int)
    ensures Authorize(intent, authorization, declaration, now) == None
      <==> Permitted(intent, authorization, declaration, now)
  {
    assert EffectiveClass(intent, declaration) == AtMostOnce
      <==> declaration.minimum == AtMostOnce || intent.idempotency == AtMostOnce;
  }

  /** When one rule, taken alone, is broken. */
  predicate Broken(denial: Denial, intent: Intent, authorization: Authorization, declaration: Declaration, now: int) {
    match denial
    case Expired => authorization.expiresAt.Some? && authorization.expiresAt.value <= now
    case CapabilityDenied => intent.capability in authorization.denied
    case CapabilityNotAuthorized => intent.capability !in authorization.allowed
    case ActionsUnreadable =>
      authorization.actions.UnreadableActions? || ActionEntry(intent, authorization.actions) == Some(UnreadableNames)
    case ActionNotAuthorized => !ActionInScope(intent, authorization.actions)
    case ResourcesUnreadable => authorization.resources == Resources(UnreadableNames)
    case ResourceRequired => authorization.resources.Resources? && intent.resource == None
    case ResourceNotAuthorized => !ResourceInScope(intent, authorization.resources)
    case ExternalEffectsNotAuthorized =>
      (declaration.externalEffect || intent.externalEffect) && !authorization.externalEffectsAllowed
    case KeyRequired => (declaration.minimum == AtMostOnce || intent.idempotency == AtMostOnce) && !HasKey(intent)
  }

  /** Position of each rule: expiry, capability, actions, resources, effects, key. */
  function Rank(denial: Denial): nat {
    match denial
    case Expired => 0 case CapabilityDenied => 1 case CapabilityNotAuthorized => 2
    case ActionsUnreadable => 3 case ActionNotAuthorized => 4
    case ResourcesUnreadable => 5 case ResourceRequired => 6 case ResourceNotAuthorized => 7
    case ExternalEffectsNotAuthorized => 8 case KeyRequired => 9
  }

  /** A request is denied for the first broken rule, and only for one. */
  lemma FirstBrokenRuleDenies(intent: Intent, authorization: Authorization, declaration: Declaration, now: int, denial: Denial)
    ensures Authorize(intent, authorization, declaration, now) == Some(denial)
      <==> Broken(denial, intent, authorization, declaration, now)
           && forall other :: Rank(other) < Rank(denial) ==> !Broken(other, intent, authorization, declaration, now)
  {
    var d := Authorize(intent, authorization, declaration, now);
    AuthorizedExactly(intent, authorization, declaration, now);
    if d.Some? {
      assert Broken(d.value, intent, authorization, declaration, now);
      assert Rank(d.value) == Rank(denial) ==> d.value == denial;
    } else {
      assert !Broken(denial, intent, authorization, declaration, now);
    }
  }

  // ---------------------------------------------------------------- declarations

  /** `weaker` claims no more effect and no stronger guarantee than `stronger`. */
  predicate NoStronger(weaker: Declaration, stronger: Declaration) {
    && (weaker.externalEffect ==> stronger.externalEffect)
    && Strength(weaker.minimum) <= Strength(stronger.minimum)
  }

  /**
   * What is authorized under a declaration is authorized, at the same time or earlier, under every
   * declaration that is no stronger; an adapter that declares nothing is the hardest to authorize.
   */
  lemma AuthorizationIsMonotone(
    intent: Intent, authorization: Authorization, stronger: Declaration, weaker: Declaration, now: int, earlier: int)
    requires NoStronger(weaker, stronger) && earlier <= now
    requires Authorize(intent, authorization, stronger, now) == None
    ensures Authorize(intent, authorization, weaker, earlier) == None
    ensures NoStronger(stronger, UNDECLARED)
  {
    assert EffectiveClass(intent, weaker) == AtMostOnce ==> EffectiveClass(intent, stronger) == AtMostOnce;
  }

  /** The model's request alone can never weaken what the adapter declares. */
  lemma RequestCannotWeaken(intent: Intent, authorization: Authorization, declaration: Declaration, now: int)
    requires Authorize(intent, authorization, declaration, now) == None
    ensures authorization.expiresAt.Some? ==> now < authorization.expiresAt.value
    ensures declaration.externalEffect || intent.externalEffect ==> authorization.externalEffectsAllowed
    ensures declaration.minimum == AtMostOnce || intent.idempotency == AtMostOnce ==> HasKey(intent)
    ensures intent.capability in authorization.allowed && intent.capability !in authorization.denied
    ensures authorization.actions.Actions? && intent.capability in authorization.actions.byCapability ==>
      match authorization.actions.byCapability[intent.capability]
      case One(name) => name == intent.action
      case Many(names) => intent.action in names
      case UnreadableNames => false
    ensures authorization.resources.Resources? ==> intent.resource.Some?
    ensures authorization.resources.Resources? ==>
      match authorization.resources.names
      case One(name) => name == intent.resource.value
      case Many(names) => intent.resource.value in names
      case UnreadableNames => false
  {
  }
}
