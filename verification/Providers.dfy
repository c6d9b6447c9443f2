/**
 * One logical capability served by several providers: which are eligible, in what order they are
 * tried, and when a failed attempt may be followed by another.
 */
module Providers {
  import opened Options
  import opened CapabilityPolicy
  import Sorting
  import Text

  datatype Metadata = Metadata(
    origin: string, license: string, securityReview: string, health: string,
    cost: real, latency: real, successRate: real, shadowEnabled: bool, productionEnabled: bool)

  datatype Provider = Provider(
    name: string, capability: string, actions: set<string>, externalEffect: bool,
    minimum: IdempotencyClass, metadata: Metadata)

  datatype CapabilityResult = CapabilityResult(
    capability: string, action: string, ok: bool, provider: Option<string>, body: string, error: string)

  function Normal(text: string): string {
    Text.Lower(Text.Trim(text, Text.IsPythonSpace))
  }

  predicate Certified(m: Metadata) {
    Normal(m.securityReview) in {"approved", "certified", "passed"}
  }

  predicate Eligible(p: Provider, action: string, material: bool) {
    && Normal(p.metadata.origin) != "" && Normal(p.metadata.license) != "" && Normal(p.metadata.securityReview) != ""
    && action in p.actions
    && Normal(p.metadata.health) in {"healthy", "degraded"}
    && if material then p.metadata.productionEnabled && Certified(p.metadata)
       else p.metadata.productionEnabled || p.metadata.shadowEnabled
  }

  // ---------------------------------------------------------------- the order of candidates

  function Normals(preferred: seq<string>): seq<string> {
    seq(|preferred|, i requires 0 <= i < |preferred| => Normal(preferred[i]))
  }

  /** Position of each preferred name; a later mention replaces an earlier one, blank names are skipped but counted. */
  function Ranks(names: seq<string>): map<string, nat> {
    if names == [] then map[]
    else
      var n := |names| - 1;
      var front := Ranks(names[..n]);
      if names[n] == "" then front else front[names[n] := n]
  }

  datatype SortKey = SortKey(rank: nat, health: nat, success: real, cost: real, latency: real, name: string)

  function RankOf(name: string, preferred: seq<string>): nat {
    var ranks := Ranks(Normals(preferred));
    if Text.Lower(name) in ranks then ranks[Text.Lower(name)] else |ranks|
  }

  function KeyOf(p: Provider, preferred: seq<string>): SortKey {
    SortKey(
      RankOf(p.name, preferred), if Normal(p.metadata.health) == "healthy" then 0 else 1,
      -p.metadata.successRate, p.metadata.cost, p.metadata.latency, p.name)
  }

  predicate KeyLe(a: SortKey, b: SortKey) {
    if a.rank != b.rank then a.rank < b.rank
    else if a.health != b.health then a.health < b.health
    else if a.success != b.success then a.success < b.success
    else if a.cost != b.cost then a.cost < b.cost
    else if a.latency != b.latency then a.latency < b.latency
    else Text.StringLe(a.name, b.name)
  }

  function Order(preferred: seq<string>): (Provider, Provider) -> bool {
    (a, b) => KeyLe(KeyOf(a, preferred), KeyOf(b, preferred))
  }

  lemma KeyOrderIsTotal(a: SortKey, b: SortKey)
    ensures KeyLe(a, b) || KeyLe(b, a)
    ensures KeyLe(a, b) && KeyLe(b, a) ==> a == b
  {
    Text.StringOrderIsTotal(a.name, b.name);
  }

  lemma KeyOrderIsTransitive(a: SortKey, b: SortKey, c: SortKey)
    requires KeyLe(a, b) && KeyLe(b, c)
    ensures KeyLe(a, c)
  {
    if (a.rank, a.health, a.success, a.cost, a.latency) == (c.rank, c.health, c.success, c.cost, c.latency) {
      Text.StringOrderIsTransitive(a.name, b.name, c.name);
    }
  }

  lemma OrderIsTotal(preferred: seq<string>)
    ensures Sorting.TotalOrder(Order(preferred))
  {
    var le := Order(preferred);
    forall a, b ensures le(a, b) || le(b, a) {
      KeyOrderIsTotal(KeyOf(a, preferred), KeyOf(b, preferred));
    }
    forall a, b, c | le(a, b) && le(b, c) ensures le(a, c) {
      KeyOrderIsTransitive(KeyOf(a, preferred), KeyOf(b, preferred), KeyOf(c, preferred));
    }
  }

  // ---------------------------------------------------------------- the routed adapter

  /** Its fields are set once, when it is built. */
  datatype Routed = Routed(
    name: string, providers: seq<Provider>, preferred: seq<string>, externalEffect: bool, minimum: IdempotencyClass)

  datatype BuildError = NoCapability | NoProviders | ForeignCapability | DuplicateNames | MixedEffects

  datatype BuildResult = Built(adapter: Routed) | Rejected(error: BuildError)

  ghost predicate DistinctNames(providers: seq<Provider>) {
    forall i, j :: 0 <= i < j < |providers| ==> providers[i].name != providers[j].name
  }

  function Strongest(providers: seq<Provider>): (c: IdempotencyClass)
    requires providers != []
    ensures forall i :: 0 <= i < |providers| ==> Strength(providers[i].minimum) <= Strength(c)
    ensures exists i :: 0 <= i < |providers| && providers[i].minimum == c
  {
    if |providers| == 1 then providers[0].minimum
    else
      var rest := Strongest(providers[1..]);
      assert forall i :: 0 <= i < |providers| - 1 ==> providers[1..][i] == providers[i + 1];
      if Strength(providers[0].minimum) >= Strength(rest) then providers[0].minimum else rest
  }

  function Build(capability: string, providers: seq<Provider>, preferred: seq<string>): (r: BuildResult)
    ensures r.Built? <==>
      && Normal(capability) != "" && providers != [] && DistinctNames(providers)
      && forall i :: 0 <= i < |providers| ==>
        providers[i].capability == capability && providers[i].externalEffect == providers[0].externalEffect
    ensures r.Built? ==> WellBuilt(r.adapter) && r.adapter.name == capability && r.adapter.providers == providers
    ensures r.Built? ==> r.adapter.preferred == preferred && exists i :: 0 <= i < |providers| && providers[i].minimum == r.adapter.minimum
  {
    if Normal(capability) == "" then Rejected(NoCapability)
    else if providers == [] then Rejected(NoProviders)
    else if exists i :: 0 <= i < |providers| && providers[i].capability != capability then Rejected(ForeignCapability)
    else if exists i, j :: 0 <= i < j < |providers| && providers[i].name == providers[j].name then Rejected(DuplicateNames)
    else if exists i :: 0 <= i < |providers| && providers[i].externalEffect != providers[0].externalEffect then Rejected(MixedEffects)
    else Built(Routed(capability, providers, preferred, providers[0].externalEffect, Strongest(providers)))
  }

  /** What building guarantees of an adapter. */
  ghost predicate WellBuilt(a: Routed) {
    && a.providers != [] && DistinctNames(a.providers)
    && forall i :: 0 <= i < |a.providers| ==>
      a.providers[i].externalEffect == a.externalEffect && Strength(a.providers[i].minimum) <= Strength(a.minimum)
  }

  function Candidates(a: Routed, intent: Intent): seq<Provider> {
    var material := a.externalEffect || intent.externalEffect;
    Sorting.SortBy(Order(a.preferred), Sorting.Filter((p: Provider) => Eligible(p, intent.action, material), a.providers))
  }

  /** The candidates are exactly the eligible providers, in key order. */
  lemma CandidatesAreTheEligible(a: Routed, intent: Intent)
    ensures var material := a.externalEffect || intent.externalEffect;
      && Sorting.Sorted(Order(a.preferred), Candidates(a, intent))
      && (forall p :: multiset(Candidates(a, intent))[p] ==
            if Eligible(p, intent.action, material) then multiset(a.providers)[p] else 0)
  {
    var keep := (p: Provider) => Eligible(p, intent.action, a.externalEffect || intent.externalEffect);
    OrderIsTotal(a.preferred);
    Sorting.SortBySorts(Order(a.preferred), Sorting.Filter(keep, a.providers));
    forall p ensures multiset(Candidates(a, intent))[p] == if keep(p) then multiset(a.providers)[p] else 0 {
      Sorting.FilterCounts(keep, a.providers, p);
    }
  }

  /** The metadata says where the provider comes from, under which license, and how it was reviewed. */
  predicate Documented(m: Metadata) {
    Normal(m.origin) != "" && Normal(m.license) != "" && Normal(m.securityReview) != ""
  }

  predicate Works(m: Metadata) {
    Normal(m.health) == "healthy" || Normal(m.health) == "degraded"
  }

  predicate Reviewed(m: Metadata) {
    Normal(m.securityReview) == "approved" || Normal(m.securityReview) == "certified" || Normal(m.securityReview) == "passed"
  }

  /**
   * Work with an effect outside, declared by the adapter or by the request, goes only to a provider that
   * is in production and reviewed; other work also to one that is only enabled for shadowing. In both
   * cases it offers the action, works, and is documented.
   */
  lemma CandidatesExactly(a: Routed, intent: Intent, p: Provider)
    ensures p in Candidates(a, intent) <==>
      && p in a.providers && intent.action in p.actions && Documented(p.metadata) && Works(p.metadata)
      && (a.externalEffect || intent.externalEffect ==> p.metadata.productionEnabled && Reviewed(p.metadata))
      && (p.metadata.productionEnabled || p.metadata.shadowEnabled)
  {
    CandidatesAreTheEligible(a, intent);
    assert p in Candidates(a, intent) <==> p in multiset(Candidates(a, intent));
    assert p in a.providers <==> p in multiset(a.providers);
  }

  predicate IsHealthy(p: Provider) {
    Normal(p.metadata.health) == "healthy"
  }

  /** One provider is tried before another: by rank, then health, success, cost, latency and name, each only where all before it are equal. */
  predicate TriedBefore(p: Provider, q: Provider, preferred: seq<string>) {
    && RankOf(p.name, preferred) <= RankOf(q.name, preferred)
    && (RankOf(p.name, preferred) == RankOf(q.name, preferred) ==>
         && (IsHealthy(q) ==> IsHealthy(p))
         && (IsHealthy(p) == IsHealthy(q) ==>
              && p.metadata.successRate >= q.metadata.successRate
              && (p.metadata.successRate == q.metadata.successRate ==>
                   && p.metadata.cost <= q.metadata.cost
                   && (p.metadata.cost == q.metadata.cost ==>
                        && p.metadata.latency <= q.metadata.latency
                        && (p.metadata.latency == q.metadata.latency ==> Text.StringLe(p.name, q.name))))))
  }

  /** Candidates are tried in that order. */
  lemma CandidatesInOrder(a: Routed, intent: Intent, i: nat, j: nat)
    requires i <= j < |Candidates(a, intent)|
    ensures TriedBefore(Candidates(a, intent)[i], Candidates(a, intent)[j], a.preferred)
  {
    CandidatesAreTheEligible(a, intent);
    var p, q := Candidates(a, intent)[i], Candidates(a, intent)[j];
    assert Order(a.preferred)(p, q);
    assert KeyLe(KeyOf(p, a.preferred), KeyOf(q, a.preferred));
  }

  lemma CandidatesHaveDistinctKeys(a: Routed, intent: Intent, p: Provider, q: Provider)
    requires DistinctNames(a.providers)
    requires p in multiset(Candidates(a, intent)) && q in multiset(Candidates(a, intent))
    requires KeyLe(KeyOf(p, a.preferred), KeyOf(q, a.preferred)) && KeyLe(KeyOf(q, a.preferred), KeyOf(p, a.preferred))
    ensures p == q
  {
    CandidatesAreTheEligible(a, intent);
    KeyOrderIsTotal(KeyOf(p, a.preferred), KeyOf(q, a.preferred));
    assert p in multiset(a.providers) && q in multiset(a.providers);
    var i :| 0 <= i < |a.providers| && a.providers[i] == p;
    var j :| 0 <= j < |a.providers| && a.providers[j] == q;
    assert p.name == q.name;
    assert i == j;
  }

  lemma CandidatesNeverTie(a: Routed, intent: Intent)
    requires DistinctNames(a.providers)
    ensures Sorting.NoTies(Order(a.preferred), Candidates(a, intent))
  {
    var le, s := Order(a.preferred), Candidates(a, intent);
    forall p, q | p in multiset(s) && q in multiset(s) && le(p, q) && le(q, p) ensures p == q {
      CandidatesHaveDistinctKeys(a, intent, p, q);
    }
  }

  lemma SameEligible(a: Routed, b: Routed, intent: Intent)
    requires multiset(a.providers) == multiset(b.providers) && a.externalEffect == b.externalEffect
    ensures multiset(Candidates(a, intent)) == multiset(Candidates(b, intent))
    ensures |Candidates(a, intent)| == |Candidates(b, intent)|
  {
    var s, t := multiset(Candidates(a, intent)), multiset(Candidates(b, intent));
    forall p ensures s[p] == t[p] {
      CandidatesAreTheEligible(a, intent);
      CandidatesAreTheEligible(b, intent);
    }
    assert |s| == |Candidates(a, intent)| && |t| == |Candidates(b, intent)|;
  }

  /** Because names are unique, the order in which providers were registered does not matter. */
  lemma RegistrationOrderIsIrrelevant(a: Routed, b: Routed, intent: Intent)
    requires DistinctNames(a.providers) && multiset(a.providers) == multiset(b.providers)
    requires a.preferred == b.preferred && a.externalEffect == b.externalEffect
    ensures Candidates(a, intent) == Candidates(b, intent)
  {
    CandidatesAreTheEligible(a, intent);
    CandidatesAreTheEligible(b, intent);
    SameEligible(a, b, intent);
    CandidatesNeverTie(a, intent);
    Sorting.SortedIsUnique(Order(a.preferred), Candidates(a, intent), Candidates(b, intent));
  }

  // ---------------------------------------------------------------- preferred names

  ghost predicate AllNamedOnce(names: seq<string>) {
    "" !in names && Distinct(names)
  }

  lemma {:induction false} RanksPoint(names: seq<string>)
    ensures forall name :: name in Ranks(names) <==> name in names && name != ""
    ensures forall name :: name in Ranks(names) ==> Ranks(names)[name] < |names| && names[Ranks(names)[name]] == name
  {
    if names != [] {
      RanksPoint(names[..|names| - 1]);
      assert names == names[..|names| - 1] + [names[|names| - 1]];
    }
  }

  lemma NamedOnceGrows(names: seq<string>, name: string)
    ensures AllNamedOnce(names + [name]) <==> (AllNamedOnce(names) && name != "" && name !in names)
  {
    var all := names + [name];
    if AllNamedOnce(all) {
      assert forall i :: 0 <= i < |names| ==> all[i] == names[i];
      assert name == all[|names|];
    }
  }

  lemma MapGrows(ranks: map<string, nat>, name: string, n: nat)
    ensures |ranks[name := n]| == |ranks| + if name in ranks then 0 else 1
  {
    assert ranks[name := n].Keys == ranks.Keys + {name};
  }

  lemma {:induction false} RanksCount(names: seq<string>)
    ensures |Ranks(names)| <= |names|
    ensures |Ranks(names)| == |names| <==> AllNamedOnce(names)
  {
    if names != [] {
      var n := |names| - 1;
      RanksCount(names[..n]);
      RanksPoint(names[..n]);
      NamedOnceGrows(names[..n], names[n]);
      MapGrows(Ranks(names[..n]), names[n], n);
      assert names == names[..n] + [names[n]];
    }
  }

  /** The list up to its last name that is not blank. */
  function UpToLastName(names: seq<string>): (r: seq<string>)
    ensures r <= names && Ranks(r) == Ranks(names)
    ensures r == [] || r[|r| - 1] != ""
  {
    if names != [] && names[|names| - 1] == "" then UpToLastName(names[..|names| - 1]) else names
  }

  /**
   * A preferred provider is ranked strictly before every provider that is not preferred exactly
   * when no blank or repeated name stands before the last preferred name.
   */
  lemma PreferredComeFirst(preferred: seq<string>)
    ensures (forall name, other ::
        Text.Lower(name) in Ranks(Normals(preferred)) && Text.Lower(other) !in Ranks(Normals(preferred))
        ==> RankOf(name, preferred) < RankOf(other, preferred))
      <==> AllNamedOnce(UpToLastName(Normals(preferred)))
  {
    var names := UpToLastName(Normals(preferred));
    RanksPoint(names);
    RanksCount(names);
    if !AllNamedOnce(names) {
      var n := |names| - 1;
      assert Ranks(names)[names[n]] == n;
      LowerTwice(Text.Trim(preferred[n], Text.IsPythonSpace));
      assert names[n] == Normals(preferred)[n] && Text.Lower(names[n]) == names[n];
      assert RankOf(names[n], preferred) == n;
      assert Text.Lower("") == "" && RankOf("", preferred) <= n;
    }
  }

  lemma LowerTwice(text: string)
    ensures Text.Lower(Text.Lower(text)) == Text.Lower(text)
  {
  }

  // ---------------------------------------------------------------- attempts

  /** How one provider's execution ends; any other exception escapes at once. */
  datatype Attempt = Answered(result: CapabilityResult) | ProviderUnavailable | Crashed

  datatype Outcome = Returned(result: CapabilityResult) | RaisedUnavailable | RaisedOther

  predicate FailoverSafe(a: Routed) {
    !a.externalEffect && a.minimum != AtMostOnce
  }

  function Labelled(a: Routed, p: Provider, r: CapabilityResult): CapabilityResult {
    r.(capability := a.name, provider := if r.provider == None then Some(p.name) else r.provider)
  }

  function Failure(a: Routed, intent: Intent, code: string): Outcome {
    Returned(CapabilityResult(a.name, intent.action, false, None, "", code))
  }

  /** The candidates that are tried when each provider would end its attempt as `run` says. */
  function Attempted(candidates: seq<Provider>, failoverSafe: bool, run: Provider -> Attempt): (attempted: seq<Provider>)
    ensures attempted <= candidates && (attempted == [] <==> candidates == [])
    ensures forall i :: 0 <= i < |attempted| - 1 ==> failoverSafe && run(attempted[i]) == ProviderUnavailable
    ensures attempted == candidates || !failoverSafe || run(attempted[|attempted| - 1]) != ProviderUnavailable
  {
    if candidates == [] then []
    else if failoverSafe && run(candidates[0]) == ProviderUnavailable then
      [candidates[0]] + Attempted(candidates[1..], failoverSafe, run)
    else [candidates[0]]
  }

  lemma AttemptedUpTo(candidates: seq<Provider>, i: nat, failoverSafe: bool, run: Provider -> Attempt)
    requires i < |candidates| && forall k :: 0 <= k < i ==> failoverSafe && run(candidates[k]) == ProviderUnavailable
    requires i == |candidates| - 1 || !failoverSafe || run(candidates[i]) != ProviderUnavailable
    ensures Attempted(candidates, failoverSafe, run) == candidates[..i + 1]
  {
    assert |Attempted(candidates, failoverSafe, run)| == i + 1;
  }

  /** The loop over the candidates: which were attempted, and how the last attempt ended. */
  method TryInOrder(candidates: seq<Provider>, failoverSafe: bool, run: Provider -> Attempt)
    returns (attempted: seq<Provider>, end: Attempt)
    requires candidates != []
    ensures attempted != [] && attempted <= candidates
    ensures end == run(attempted[|attempted| - 1])
    ensures forall i :: 0 <= i < |attempted| - 1 ==> run(attempted[i]) == ProviderUnavailable
    ensures if failoverSafe then end == ProviderUnavailable ==> attempted == candidates else |attempted| == 1
    ensures attempted == Attempted(candidates, failoverSafe, run)
  {
    attempted, end := [], ProviderUnavailable;
    for i := 0 to |candidates|
      invariant attempted == candidates[..i]
      invariant forall k :: 0 <= k < i ==> run(candidates[k]) == ProviderUnavailable
      invariant i > 0 ==> failoverSafe && end == ProviderUnavailable
      invariant i == |candidates| ==> attempted == Attempted(candidates, failoverSafe, run)
    {
      attempted := attempted + [candidates[i]];
      end := run(candidates[i]);
      assert attempted == candidates[..i + 1];
      if end != ProviderUnavailable || !failoverSafe || i == |candidates| - 1 {
        AttemptedUpTo(candidates, i, failoverSafe, run);
      }
      if end != ProviderUnavailable || !failoverSafe {
        return;
      }
    }
  }

  function Concluded(a: Routed, intent: Intent, last: Provider, end: Attempt): Outcome {
    match end
    case Answered(r) => Returned(Labelled(a, last, r))
    case Crashed => RaisedOther
    case ProviderUnavailable =>
      if FailoverSafe(a) then Failure(a, intent, "ALL_PROVIDERS_UNAVAILABLE") else RaisedUnavailable
  }

  /** What an execution gives its caller when each provider would end its attempt as `run` says. */
  function OutcomeOf(a: Routed, intent: Intent, run: Provider -> Attempt): Outcome {
    var attempted := Attempted(Candidates(a, intent), FailoverSafe(a), run);
    if attempted == [] then Failure(a, intent, "NO_ELIGIBLE_PROVIDER")
    else Concluded(a, intent, attempted[|attempted| - 1], run(attempted[|attempted| - 1]))
  }

  /**
   * The candidates were tried in order. Only unavailability moved on to the next one, and only where
   * failing over is safe: otherwise at most one provider was ever attempted.
   */
  ghost predicate ProperlyExecuted(
    a: Routed, intent: Intent, candidates: seq<Provider>, run: Provider -> Attempt, o: Outcome, attempted: seq<Provider>)
  {
    && attempted <= candidates && (attempted == [] <==> candidates == [])
    && (!FailoverSafe(a) ==> |attempted| <= 1)
    && (forall i :: 0 <= i < |attempted| - 1 ==> run(attempted[i]) == ProviderUnavailable)
    && if attempted == [] then o == Failure(a, intent, "NO_ELIGIBLE_PROVIDER")
       else
         var last := attempted[|attempted| - 1];
         && o == Concluded(a, intent, last, run(last))
         && (run(last) == ProviderUnavailable && FailoverSafe(a) ==> attempted == candidates)
  }

  lemma ConcludedProperly(a: Routed, intent: Intent, candidates: seq<Provider>, run: Provider -> Attempt)
    requires candidates != []
    ensures var attempted := Attempted(candidates, FailoverSafe(a), run);
      attempted != [] &&
      ProperlyExecuted(a, intent, candidates, run,
        Concluded(a, intent, attempted[|attempted| - 1], run(attempted[|attempted| - 1])), attempted)
  {
    assert !FailoverSafe(a) ==> |Attempted(candidates, FailoverSafe(a), run)| <= 1;
  }

  method ExecuteOver(a: Routed, intent: Intent, candidates: seq<Provider>, run: Provider -> Attempt)
    returns (o: Outcome, attempted: seq<Provider>)
    ensures ProperlyExecuted(a, intent, candidates, run, o, attempted)
    ensures attempted == Attempted(candidates, FailoverSafe(a), run)
  {
    if candidates == [] {
      return Failure(a, intent, "NO_ELIGIBLE_PROVIDER"), [];
    }
    var end: Attempt;
    attempted, end := TryInOrder(candidates, FailoverSafe(a), run);
    o := Concluded(a, intent, attempted[|attempted| - 1], end);
    ConcludedProperly(a, intent, candidates, run);
  }

  method Execute(a: Routed, intent: Intent, run: Provider -> Attempt) returns (o: Outcome, attempted: seq<Provider>)
    ensures ProperlyExecuted(a, intent, Candidates(a, intent), run, o, attempted)
    ensures attempted == Attempted(Candidates(a, intent), FailoverSafe(a), run) && o == OutcomeOf(a, intent, run)
  {
    o, attempted := ExecuteOver(a, intent, Candidates(a, intent), run);
  }

  /** Without a candidate nothing is attempted, and the caller is told so; so it is when all of several were unavailable. */
  lemma FailuresAreTold(a: Routed, intent: Intent, run: Provider -> Attempt)
    ensures Candidates(a, intent) == [] ==>
      OutcomeOf(a, intent, run) == Returned(CapabilityResult(a.name, intent.action, false, None, "", "NO_ELIGIBLE_PROVIDER"))
    ensures Candidates(a, intent) != [] && FailoverSafe(a) && (forall p :: p in Candidates(a, intent) ==> run(p) == ProviderUnavailable) ==>
      OutcomeOf(a, intent, run) == Returned(CapabilityResult(a.name, intent.action, false, None, "", "ALL_PROVIDERS_UNAVAILABLE"))
  {
    var c := Candidates(a, intent);
    if c != [] {
      var attempted := Attempted(c, FailoverSafe(a), run);
      assert attempted[|attempted| - 1] == c[|attempted| - 1];
    }
  }

  /**
   * Otherwise the caller gets what the first candidate that does not fail over gave: its result under
   * the adapter's name and, unless it names a provider itself, under the candidate's; or its exception.
   */
  lemma OutcomeComesFrom(a: Routed, intent: Intent, run: Provider -> Attempt, k: nat)
    requires k < |Candidates(a, intent)| && (k > 0 ==> FailoverSafe(a))
    requires forall i :: 0 <= i < k ==> run(Candidates(a, intent)[i]) == ProviderUnavailable
    requires !FailoverSafe(a) || run(Candidates(a, intent)[k]) != ProviderUnavailable
    ensures var p := Candidates(a, intent)[k];
      OutcomeOf(a, intent, run) ==
        match run(p)
        case Answered(r) =>
          Returned(CapabilityResult(a.name, r.action, r.ok, if r.provider.Some? then r.provider else Some(p.name), r.body, r.error))
        case ProviderUnavailable => RaisedUnavailable
        case Crashed => RaisedOther
  {
    AttemptedUpTo(Candidates(a, intent), k, FailoverSafe(a), run);
  }

  /** Every provider is unavailable. */
  function Unavailable(): Provider -> Attempt {
    _ => ProviderUnavailable
  }

  lemma AllAttempted(candidates: seq<Provider>)
    ensures Attempted(candidates, true, Unavailable()) == candidates
  {
  }

  /** An execution that can reach only one provider. */
  predicate ReachesOneProvider(a: Routed, intent: Intent) {
    a.externalEffect || a.minimum == AtMostOnce || |Candidates(a, intent)| <= 1
  }

  /**
   * Whatever its providers do, an execution attempts at most one of them exactly when the adapter
   * declares an external effect or AT_MOST_ONCE, or has no second candidate. What the request itself
   * declares does not count.
   */
  lemma OneAttemptExactly(a: Routed, intent: Intent)
    ensures (forall run: Provider -> Attempt :: |Attempted(Candidates(a, intent), FailoverSafe(a), run)| <= 1)
      <==> ReachesOneProvider(a, intent)
  {
    AllAttempted(Candidates(a, intent));
    assert FailoverSafe(a) ==> |Attempted(Candidates(a, intent), FailoverSafe(a), Unavailable())| == |Candidates(a, intent)|;
  }

  lemma CandidatesDiffer(a: Routed, intent: Intent)
    requires DistinctNames(a.providers) && |Candidates(a, intent)| > 1
    ensures Candidates(a, intent)[0] != Candidates(a, intent)[1]
  {
    var c := Candidates(a, intent);
    if c[0] == c[1] {
      assert c == [c[0], c[0]] + c[2..];
      assert multiset(c)[c[0]] >= 2;
      CandidatesAreTheEligible(a, intent);
      NamedOnce(a.providers, c[0]);
      assert false;
    }
  }

  lemma {:induction false} NamedOnce(providers: seq<Provider>, p: Provider)
    requires DistinctNames(providers)
    ensures multiset(providers)[p] <= 1
  {
    if providers != [] {
      var n := |providers| - 1;
      var front := providers[..n];
      assert providers == front + [providers[n]];
      NamedOnce(front, p);
      assert providers[n] !in front;
    }
  }

  /** Behaviour under which the first candidate is unavailable and every other one ends in this way. */
  function Second(first: Provider, end: Attempt): Provider -> Attempt {
    p => if p == first then ProviderUnavailable else end
  }

  lemma SecondIsReached(a: Routed, intent: Intent, end: Attempt)
    requires DistinctNames(a.providers) && FailoverSafe(a) && |Candidates(a, intent)| > 1 && end != ProviderUnavailable
    ensures var c := Candidates(a, intent);
      Attempted(c, FailoverSafe(a), Second(c[0], end)) == [c[0], c[1]]
      && OutcomeOf(a, intent, Second(c[0], end)) == Concluded(a, intent, c[1], end)
  {
    var c := Candidates(a, intent);
    CandidatesDiffer(a, intent);
    var run := Second(c[0], end);
    assert c[1..][0] == c[1];
    assert Attempted(c[1..], true, run) == [c[1]];
  }

  /** A result that is labelled already keeps its label. */
  lemma LabelledTwice(a: Routed, intent: Intent, p: Provider, q: Provider, r: CapabilityResult)
    ensures Concluded(a, intent, q, Answered(Labelled(a, p, r))) == Concluded(a, intent, p, Answered(r))
  {
  }

  /**
   * Where failing over is safe and there are two candidates, whatever an execution gives its caller it
   * could have given after reaching two of them: a result that already names a provider is passed on with
   * that name, so the second provider may return what looks like the first one's answer.
   */
  lemma SameOutcomeFromTwo(a: Routed, intent: Intent, run: Provider -> Attempt) returns (other: Provider -> Attempt)
    requires DistinctNames(a.providers) && !ReachesOneProvider(a, intent)
    ensures OutcomeOf(a, intent, other) == OutcomeOf(a, intent, run)
    ensures |Attempted(Candidates(a, intent), FailoverSafe(a), other)| > 1
  {
    var c := Candidates(a, intent);
    var attempted := Attempted(c, true, run);
    var last := attempted[|attempted| - 1];
    match run(last)
    case ProviderUnavailable => other := run;
    case Crashed =>
      other := Second(c[0], Crashed);
      SecondIsReached(a, intent, Crashed);
    case Answered(r) =>
      other := Second(c[0], Answered(Labelled(a, last, r)));
      SecondIsReached(a, intent, Answered(Labelled(a, last, r)));
      LabelledTwice(a, intent, last, c[1], r);
  }

  lemma TwoCandidates(a: Routed, p: Provider, q: Provider, intent: Intent)
    requires a.providers == [p, q] && !a.externalEffect
    requires Eligible(p, intent.action, intent.externalEffect) && Eligible(q, intent.action, intent.externalEffect)
    ensures |Candidates(a, intent)| == 2
  {
    var keep := (x: Provider) => Eligible(x, intent.action, a.externalEffect || intent.externalEffect);
    var one, both := [p], [p, q];
    assert keep(p) && keep(q) && both[..1] == one && one[..0] == [];
    assert Sorting.Filter(keep, one) == [p];
    assert |Sorting.Filter(keep, both)| == 2;
    OrderIsTotal(a.preferred);
    Sorting.SortBySorts(Order(a.preferred), Sorting.Filter(keep, both));
  }

  /**
   * A request that is at-most-once only by its own declaration fails over: two safe providers that
   * can serve it are both attempted when both are unavailable.
   */
  lemma AtMostOnceRequestFailsOver(capability: string, p: Provider, q: Provider, preferred: seq<string>, intent: Intent)
    requires Build(capability, [p, q], preferred).Built?
    requires !p.externalEffect && p.minimum != AtMostOnce && q.minimum != AtMostOnce
    requires Eligible(p, intent.action, intent.externalEffect) && Eligible(q, intent.action, intent.externalEffect)
    requires intent.idempotency == AtMostOnce
    ensures var a := Build(capability, [p, q], preferred).adapter;
      && EffectiveClass(intent, Declaration(a.externalEffect, a.minimum)) == AtMostOnce
      && FailoverSafe(a) && |Candidates(a, intent)| == 2
      && |Attempted(Candidates(a, intent), FailoverSafe(a), Unavailable())| == 2
  {
    var a := Build(capability, [p, q], preferred).adapter;
    BuiltOfTwo(capability, p, q, preferred, [p, q]);
    TwoCandidates(a, p, q, intent);
    AllAttempted(Candidates(a, intent));
  }

  lemma BuiltOfTwo(capability: string, p: Provider, q: Provider, preferred: seq<string>, both: seq<Provider>)
    requires both == [p, q] && Build(capability, both, preferred).Built?
    ensures var a := Build(capability, both, preferred).adapter;
      a.providers == both && a.externalEffect == p.externalEffect && a.minimum in {p.minimum, q.minimum}
  {
    StrongestOfTwo(p, q);
  }

  lemma StrongestOfTwo(p: Provider, q: Provider)
    ensures Strongest([p, q]) in {p.minimum, q.minimum}
  {
    assert [p, q][1..] == [q];
  }

  /** What is authorized for the routed capability is authorized under each provider's own declaration. */
  lemma RoutedAuthorizationCoversProviders(a: Routed, i: nat, intent: Intent, authorization: Authorization, now: int)
    requires WellBuilt(a) && i < |a.providers|
    requires Authorize(intent, authorization, Declaration(a.externalEffect, a.minimum), now) == None
    ensures Authorize(intent, authorization, Declaration(a.providers[i].externalEffect, a.providers[i].minimum), now) == None
  {
    AuthorizationIsMonotone(
      intent, authorization, Declaration(a.externalEffect, a.minimum),
      Declaration(a.providers[i].externalEffect, a.providers[i].minimum), now, now);
  }
}
