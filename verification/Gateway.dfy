/**
 * The execution gateway: a decision over state that control messages only tighten, in front of
 * the nonce store. The signature check is an arbitrary predicate on envelopes.
 */
module Gateway {
  import opened Options
  import opened Replay
  import Text

  datatype Envelope = Envelope(
    missionId: string, missionVersion: nat, actionId: string, actor: string, target: string,
    environment: string, capability: string, actionClass: string, riskClass: string,
    decision: string, decisionId: string, grantId: string, expires: int, nonce: string,
    parametersHash: string, signature: string)

  datatype Requested = Requested(
    missionVersion: nat, target: string, environment: string, capability: string,
    actionClass: string, parametersHash: string, toolId: string, argsJson: string)

  datatype DenyReason =
    | BadSignature | KillSwitch | Expired | Revoked | StaleMission | TargetMismatch
    | EnvironmentMismatch | EnvironmentNotAllowed | ActionClassMismatch | CapabilityMismatch
    | ParametersTampered | Replayed | PolicyNotPermit | MissingGrant

  datatype Decision = Permit | Deny(reason: DenyReason)

  type Signature = Envelope -> bool

  datatype State = State(
    revoked: set<string>, floors: map<string, nat>, killed: set<string>, globalKill: bool,
    prefixes: seq<string>, store: Store)

  function Fresh(prefixes: seq<string>, log: string): State {
    State({}, map[], {}, false, prefixes, Opened(log))
  }

  function Floor(s: State, mission: string): nat {
    if mission in s.floors then s.floors[mission] else 0
  }

  // ---------------------------------------------------------------- the decision

  /** All checks before the nonce is spent; the first failing one denies. */
  function Precheck(verify: Signature, s: State, e: Envelope, r: Requested, now: int): Option<DenyReason> {
    if !verify(e) then Some(BadSignature)
    else if s.globalKill || e.missionId in s.killed then Some(KillSwitch)
    else if e.grantId == "" then Some(MissingGrant)
    else if e.expires <= now then Some(Expired)
    else if e.grantId in s.revoked then Some(Revoked)
    else if e.missionVersion != r.missionVersion || e.missionVersion < Floor(s, e.missionId) then Some(StaleMission)
    else if e.target != r.target then Some(TargetMismatch)
    else if e.environment != r.environment then Some(EnvironmentMismatch)
    else if !exists i :: 0 <= i < |s.prefixes| && s.prefixes[i] <= e.environment then Some(EnvironmentNotAllowed)
    else if e.actionClass != r.actionClass then Some(ActionClassMismatch)
    else if e.capability != r.capability then Some(CapabilityMismatch)
    else if e.parametersHash != r.parametersHash then Some(ParametersTampered)
    else if e.decision != "permit" || e.decisionId == "" then Some(PolicyNotPermit)
    else None
  }

  function Evaluate(verify: Signature, s: State, e: Envelope, r: Requested, now: int, write: WriteOutcome): (State, Decision) {
    match Precheck(verify, s, e, r, now)
    case Some(reason) => (s, Deny(reason))
    case None =>
      var (store, granted) := Reserved(s.store, e.nonce, write);
      (s.(store := store), if granted then Permit else Deny(Replayed))
  }

  /** When one rule, taken alone, is broken. */
  predicate Broken(reason: DenyReason, verify: Signature, s: State, e: Envelope, r: Requested, now: int) {
    match reason
    case BadSignature => !verify(e)
    case KillSwitch => s.globalKill || e.missionId in s.killed
    case MissingGrant => e.grantId == ""
    case Expired => e.expires <= now
    case Revoked => e.grantId in s.revoked
    case StaleMission => e.missionVersion != r.missionVersion || e.missionVersion < Floor(s, e.missionId)
    case TargetMismatch => e.target != r.target
    case EnvironmentMismatch => e.environment != r.environment
    case EnvironmentNotAllowed => forall i :: 0 <= i < |s.prefixes| ==> !(s.prefixes[i] <= e.environment)
    case ActionClassMismatch => e.actionClass != r.actionClass
    case CapabilityMismatch => e.capability != r.capability
    case ParametersTampered => e.parametersHash != r.parametersHash
    case PolicyNotPermit => e.decision != "permit" || e.decisionId == ""
    case Replayed => !Acceptable(e.nonce) || e.nonce in s.store.seen
  }

  /** Position of each rule: integrity, kill, grant, expiry, revocation, version, target, environment, action, replay. */
  function Rank(reason: DenyReason): nat {
    match reason
    case BadSignature => 0 case KillSwitch => 1 case MissingGrant => 2 case Expired => 3
    case Revoked => 4 case StaleMission => 5 case TargetMismatch => 6 case EnvironmentMismatch => 7
    case EnvironmentNotAllowed => 8 case ActionClassMismatch => 9 case CapabilityMismatch => 10
    case ParametersTampered => 11 case PolicyNotPermit => 12 case Replayed => 13
  }

  /** A request is denied for the first broken rule, and only for one. */
  lemma FirstBrokenRuleDenies(verify: Signature, s: State, e: Envelope, r: Requested, now: int, reason: DenyReason)
    ensures Evaluate(verify, s, e, r, now, Durable).1 == Deny(reason)
      <==> Broken(reason, verify, s, e, r, now)
           && forall other :: Rank(other) < Rank(reason) ==> !Broken(other, verify, s, e, r, now)
  {
    var d := Evaluate(verify, s, e, r, now, Durable).1;
    if d.Deny? {
      assert Broken(d.reason, verify, s, e, r, now);
      assert Rank(d.reason) == Rank(reason) ==> d.reason == reason;
    } else {
      assert !Broken(reason, verify, s, e, r, now);
    }
  }

  /** The authorization as one condition, with no order of checks. */
  ghost predicate Authorized(verify: Signature, s: State, e: Envelope, r: Requested, now: int) {
    && verify(e) && now < e.expires
    && e.decision == "permit" && e.decisionId != "" && e.grantId != ""
    && !s.globalKill && e.missionId !in s.killed && e.grantId !in s.revoked
    && Floor(s, e.missionId) <= e.missionVersion
    && (exists i :: 0 <= i < |s.prefixes| && s.prefixes[i] <= e.environment)
    && (r.missionVersion, r.target, r.environment, r.capability, r.actionClass, r.parametersHash)
       == (e.missionVersion, e.target, e.environment, e.capability, e.actionClass, e.parametersHash)
    && Acceptable(e.nonce) && e.nonce !in s.store.seen
  }

  /** A permit is an authorization with a durable nonce; a refusal by an earlier check spends nothing. */
  lemma PermitMeansAuthorized(verify: Signature, s: State, e: Envelope, r: Requested, now: int, write: WriteOutcome)
    ensures var (s', d) := Evaluate(verify, s, e, r, now, write);
      && (d == Permit <==> Authorized(verify, s, e, r, now) && write == Durable)
      && (d == Permit ==> s'.store.seen == s.store.seen + {e.nonce} && s'.store.log == s.store.log + e.nonce + "\n")
      && (d != Permit && d != Deny(Replayed) ==> s' == s)
      && s' == s.(store := s'.store)
  {
  }

  // ---------------------------------------------------------------- messages

  /** A parsed line; `None` stands for a field that is absent or not of the expected type. */
  datatype Message =
    | Malformed
    | UnknownOp
    | Execute(envelope: Option<Envelope>, requested: Option<Requested>)
    | RevokeGrant(grantId: Option<string>)
    | SetMissionVersion(mission: Option<string>, version: Option<nat>)
    | RangeReset(missionId: Option<string>)
    | Kill(missionId: Option<string>)

  datatype RangeAnswer = Answered(holds: bool) | RangeUnavailable | RangeInvalid

  datatype Backend = Kata | Firecracker | Unavailable

  /** What the outside contributes to one message: the nonce write and the range control client, if one is configured. */
  datatype World = World(write: WriteOutcome, range: Option<RangeAnswer>, backend: Backend)

  datatype Status = Denied | AuthorizedOnly | Executed

  datatype Reply =
    | Control(ok: bool, reasons: seq<string>)
    | Outcome(permit: bool, status: Status, reasons: seq<string>, executionId: Option<string>)

  const RANGE_TOOLS := {
    "range.health.verify", "range.scenario.start", "range.scenario.verify", "range.campaign.start",
    "range.campaign.advance", "range.campaign.verify", "range.reset" }

  function Refuse(reason: string): Reply {
    Outcome(false, Denied, [reason], None)
  }

  function ReasonName(reason: DenyReason): string {
    match reason
    case BadSignature => "BadSignature"
    case KillSwitch => "KillSwitch"
    case Expired => "Expired"
    case Revoked => "Revoked"
    case StaleMission => "StaleMission"
    case TargetMismatch => "TargetMismatch"
    case EnvironmentMismatch => "EnvironmentMismatch"
    case EnvironmentNotAllowed => "EnvironmentNotAllowed"
    case ActionClassMismatch => "ActionClassMismatch"
    case CapabilityMismatch => "CapabilityMismatch"
    case ParametersTampered => "ParametersTampered"
    case Replayed => "Replay"
    case PolicyNotPermit => "PolicyNotPermit"
    case MissingGrant => "MissingGrant"
  }

  /** What happens to a permitted request. */
  function Dispatch(e: Envelope, r: Requested, w: World): Reply {
    if r.toolId != r.capability then Refuse("ToolCapabilityMismatch")
    else if r.toolId in RANGE_TOOLS then
      if || !("cyber_range:" <= r.environment)
         || Text.Trim(r.argsJson, Text.IsRustSpace) != "{}"
         || (r.toolId == "range.reset" && r.target != "range")
      then Refuse("RangeControlRequestInvalid")
      else match w.range
        case None => Refuse("RangeControlUnavailable")
        case Some(RangeUnavailable) => Refuse("RangeControlUnavailable")
        case Some(RangeInvalid) => Refuse("RangeControlInvalidResponse")
        case Some(Answered(holds)) =>
          if holds || (r.toolId != "range.scenario.verify" && r.toolId != "range.campaign.verify") then
            Outcome(true, Executed, [], Some("range-control:" + r.toolId + ":" + e.actionId + ":" + e.nonce))
          else
            Refuse(if r.toolId == "range.campaign.verify" then "RangeCampaignNotComplete" else "RangeScenarioNotActive")
    else if w.backend == Unavailable then Refuse("SandboxUnavailable")
    else if r.toolId != "sandbox.health.verify" then Refuse("ToolNotAllowlisted")
    else Outcome(true, AuthorizedOnly, ["ExecutionNotImplemented"], None)
  }

  function Step(verify: Signature, s: State, m: Message, now: int, w: World): (State, Reply) {
    match m
    case Malformed => (s, Control(false, ["malformed"]))
    case UnknownOp => (s, Control(false, ["unknown_op"]))
    case Execute(envelope, requested) =>
      if envelope == None || requested == None then (s, Refuse("malformed"))
      else
        var (s', d) := Evaluate(verify, s, envelope.value, requested.value, now, w.write);
        (s', if d.Deny? then Refuse(ReasonName(d.reason)) else Dispatch(envelope.value, requested.value, w))
    case RevokeGrant(id) =>
      (if id.Some? then s.(revoked := s.revoked + {id.value}) else s, Control(true, []))
    case SetMissionVersion(mission, version) =>
      (if mission.Some? && version.Some? then
         s.(floors := s.floors[mission.value :=
           if version.value < Floor(s, mission.value) then Floor(s, mission.value) else version.value])
       else s, Control(true, []))
    case RangeReset(None) => (s, Control(false, ["mission_id_required"]))
    case RangeReset(Some(mission)) =>
      (s,
       if !s.globalKill && mission !in s.killed then Control(false, ["kill_required"])
       else match w.range
         case None => Control(false, ["RangeControlUnavailable"])
         case Some(Answered(_)) => Control(true, [])
         case Some(RangeUnavailable) => Control(false, ["RangeControlUnavailable"])
         case Some(RangeInvalid) => Control(false, ["RangeControlInvalidResponse"]))
    case Kill(Some(mission)) => (s.(killed := s.killed + {mission}), Control(true, []))
    case Kill(None) => (s.(globalKill := true), Control(true, []))
  }

  /** The gateway process: one line in, one reply out. */
  class Server {
    const verify: Signature
    const prefixes: seq<string>
    const replay: FileReplayStore
    var revoked: set<string>
    var floors: map<string, nat>
    var killed: set<string>
    var globalKill: bool

    ghost function View(): State
      reads this, replay
    {
      State(revoked, floors, killed, globalKill, prefixes, Store(replay.seen, replay.file))
    }

    constructor (verify: Signature, prefixes: seq<string>, replay: FileReplayStore)
      ensures this.verify == verify && this.replay == replay
      ensures View() == State({}, map[], {}, false, prefixes, Store(replay.seen, replay.file))
    {
      this.verify, this.prefixes, this.replay := verify, prefixes, replay;
      revoked, floors, killed, globalKill := {}, map[], {}, false;
    }

    method EvaluateRequest(e: Envelope, r: Requested, now: int, write: WriteOutcome) returns (d: Decision)
      modifies replay
      ensures (View(), d) == Evaluate(verify, old(View()), e, r, now, write)
    {
      if !verify(e) {
        return Deny(BadSignature);
      }
      if globalKill || e.missionId in killed {
        return Deny(KillSwitch);
      }
      if e.grantId == "" {
        return Deny(MissingGrant);
      }
      if e.expires <= now {
        return Deny(Expired);
      }
      if e.grantId in revoked {
        return Deny(Revoked);
      }
      var floor := if e.missionId in floors then floors[e.missionId] else 0;
      if e.missionVersion != r.missionVersion || e.missionVersion < floor {
        return Deny(StaleMission);
      }
      if e.target != r.target {
        return Deny(TargetMismatch);
      }
      if e.environment != r.environment {
        return Deny(EnvironmentMismatch);
      }
      if !exists i :: 0 <= i < |prefixes| && prefixes[i] <= e.environment {
        return Deny(EnvironmentNotAllowed);
      }
      if e.actionClass != r.actionClass {
        return Deny(ActionClassMismatch);
      }
      if e.capability != r.capability {
        return Deny(CapabilityMismatch);
      }
      if e.parametersHash != r.parametersHash {
        return Deny(ParametersTampered);
      }
      if e.decision != "permit" || e.decisionId == "" {
        return Deny(PolicyNotPermit);
      }
      // Every other rule has passed, so only a request that is permitted uses up its nonce.
      var granted := replay.Reserve(e.nonce, write);
      return if granted then Permit else Deny(Replayed);
    }

    method HandleLine(m: Message, now: int, w: World) returns (reply: Reply)
      modifies this, replay
      ensures (View(), reply) == Step(verify, old(View()), m, now, w)
    {
      match m
      case Malformed => reply := Control(false, ["malformed"]);
      case UnknownOp => reply := Control(false, ["unknown_op"]);
      case Execute(envelope, requested) =>
        if envelope == None || requested == None {
          return Refuse("malformed");
        }
        var d := EvaluateRequest(envelope.value, requested.value, now, w.write);
        reply := if d.Deny? then Refuse(ReasonName(d.reason)) else Dispatch(envelope.value, requested.value, w);
      case RevokeGrant(id) =>
        if id.Some? {
          revoked := revoked + {id.value};
        }
        reply := Control(true, []);
      case SetMissionVersion(mission, version) =>
        if mission.Some? && version.Some? {
          var entry := if mission.value in floors then floors[mission.value] else 0;
          floors := floors[mission.value := if entry < version.value then version.value else entry];
        }
        reply := Control(true, []);
      case RangeReset(mission) =>
        if mission == None {
          return Control(false, ["mission_id_required"]);
        }
        if !globalKill && mission.value !in killed {
          return Control(false, ["kill_required"]);
        }
        match w.range {
          case None => reply := Control(false, ["RangeControlUnavailable"]);
          case Some(Answered(_)) => reply := Control(true, []);
          case Some(RangeUnavailable) => reply := Control(false, ["RangeControlUnavailable"]);
          case Some(RangeInvalid) => reply := Control(false, ["RangeControlInvalidResponse"]);
        }
      case Kill(mission) =>
        match mission {
          case Some(id) => killed := killed + {id};
          case None => globalKill := true;
        }
        reply := Control(true, []);
    }
  }

  // ---------------------------------------------------------------- permits only become rarer

  datatype Input = Input(message: Message, now: int, world: World)

  function Run(verify: Signature, s: State, inputs: seq<Input>): (State, seq<Reply>)
    decreases |inputs|
  {
    if inputs == [] then (s, [])
    else
      var (s1, reply) := Step(verify, s, inputs[0].message, inputs[0].now, inputs[0].world);
      var (s2, replies) := Run(verify, s1, inputs[1..]);
      (s2, [reply] + replies)
  }

  /** `later` allows no more than `earlier`. */
  ghost predicate Tightened(earlier: State, later: State) {
    && earlier.revoked <= later.revoked && earlier.killed <= later.killed
    && (earlier.globalKill ==> later.globalKill)
    && earlier.prefixes == later.prefixes
    && earlier.store.seen <= later.store.seen
    && forall mission :: Floor(earlier, mission) <= Floor(later, mission)
  }

  lemma StepTightens(verify: Signature, s: State, m: Message, now: int, w: World)
    ensures Tightened(s, Step(verify, s, m, now, w).0)
  {
  }

  lemma {:induction false} RunTightens(verify: Signature, s: State, inputs: seq<Input>)
    ensures Tightened(s, Run(verify, s, inputs).0)
    decreases |inputs|
  {
    if inputs != [] {
      var s1 := Step(verify, s, inputs[0].message, inputs[0].now, inputs[0].world).0;
      StepTightens(verify, s, inputs[0].message, inputs[0].now, inputs[0].world);
      RunTightens(verify, s1, inputs[1..]);
      var s2 := Run(verify, s1, inputs[1..]).0;
      forall mission ensures Floor(s, mission) <= Floor(s2, mission) {
        assert Floor(s, mission) <= Floor(s1, mission) <= Floor(s2, mission);
      }
    }
  }

  /** Whatever is permitted after more messages and at a later time would have been permitted before them. */
  lemma PermitsAreAntitone(
    verify: Signature, s: State, inputs: seq<Input>, e: Envelope, r: Requested,
    now: int, later: int, write: WriteOutcome)
    requires now <= later
    requires Evaluate(verify, Run(verify, s, inputs).0, e, r, later, write).1 == Permit
    ensures Evaluate(verify, s, e, r, now, write).1 == Permit
  {
    var s' := Run(verify, s, inputs).0;
    RunTightens(verify, s, inputs);
    PermitMeansAuthorized(verify, s', e, r, later, write);
    assert Floor(s, e.missionId) <= Floor(s', e.missionId);
    PermitMeansAuthorized(verify, s, e, r, now, write);
  }

  // ---------------------------------------------------------------- control messages

  predicate IsControl(m: Message) {
    !m.Execute?
  }

  function Steps(verify: Signature, s: State, a: Input, b: Input): State {
    Step(verify, Step(verify, s, a.message, a.now, a.world).0, b.message, b.now, b.world).0
  }

  /** What a control message adds: every control message is a join with such a value. */
  datatype Delta = Delta(revoked: set<string>, floor: Option<(string, nat)>, killed: set<string>, globalKill: bool)

  function DeltaOf(m: Message): Delta
    requires IsControl(m)
  {
    match m
    case RevokeGrant(Some(id)) => Delta({id}, None, {}, false)
    case SetMissionVersion(Some(mission), Some(version)) => Delta({}, Some((mission, version)), {}, false)
    case Kill(Some(mission)) => Delta({}, None, {mission}, false)
    case Kill(None) => Delta({}, None, {}, true)
    case _ => Delta({}, None, {}, false)
  }

  function Raised(floors: map<string, nat>, floor: Option<(string, nat)>): map<string, nat> {
    match floor
    case None => floors
    case Some((mission, version)) =>
      floors[mission := if mission in floors && version < floors[mission] then floors[mission] else version]
  }

  function Joined(s: State, d: Delta): State {
    s.(revoked := s.revoked + d.revoked, floors := Raised(s.floors, d.floor),
       killed := s.killed + d.killed, globalKill := s.globalKill || d.globalKill)
  }

  lemma ControlIsJoin(verify: Signature, s: State, i: Input)
    requires IsControl(i.message)
    ensures Step(verify, s, i.message, i.now, i.world).0 == Joined(s, DeltaOf(i.message))
  {
    assert s.revoked + {} == s.revoked && s.killed + {} == s.killed;
  }

  lemma JoinsCommuteAndRepeat(s: State, a: Delta, b: Delta)
    ensures Joined(Joined(s, a), b) == Joined(Joined(s, b), a)
    ensures Joined(Joined(s, a), a) == Joined(s, a)
  {
    var ab, ba := Joined(Joined(s, a), b), Joined(Joined(s, b), a);
    assert ab.revoked == ba.revoked && ab.killed == ba.killed;
    assert ab.floors == ba.floors;
    var aa, a1 := Joined(Joined(s, a), a), Joined(s, a);
    assert aa.revoked == a1.revoked && aa.killed == a1.killed;
    assert aa.floors == a1.floors;
  }

  /** Control messages take effect in any order, and repeating one changes nothing. */
  lemma ControlCommutesAndRepeats(verify: Signature, s: State, a: Input, b: Input)
    requires IsControl(a.message) && IsControl(b.message)
    ensures Steps(verify, s, a, b) == Steps(verify, s, b, a)
    ensures Steps(verify, s, a, a) == Step(verify, s, a.message, a.now, a.world).0
  {
    var da, db := DeltaOf(a.message), DeltaOf(b.message);
    JoinsCommuteAndRepeat(s, da, db);
    assert Steps(verify, s, a, b) == Joined(Joined(s, da), db) by {
      ControlIsJoin(verify, s, a);
      ControlIsJoin(verify, Joined(s, da), b);
    }
    assert Steps(verify, s, b, a) == Joined(Joined(s, db), da) by {
      ControlIsJoin(verify, s, b);
      ControlIsJoin(verify, Joined(s, db), a);
    }
    assert Steps(verify, s, a, a) == Joined(Joined(s, da), da) by {
      ControlIsJoin(verify, s, a);
      ControlIsJoin(verify, Joined(s, da), a);
    }
    ControlIsJoin(verify, s, a);
  }

  // ---------------------------------------------------------------- what a restart forgets

  /** The process started again with the nonce file it has written. */
  function Restarted(s: State): State {
    Fresh(s.prefixes, s.store.log)
  }

  /**
   * What a restarted process permits, the process before it permitted too, exactly if no kill,
   * revocation, version floor or remembered nonce stood against it.
   */
  lemma RestartForgetsAllButNonces(verify: Signature, s: State, e: Envelope, r: Requested, now: int)
    requires Evaluate(verify, Restarted(s), e, r, now, Durable).1 == Permit
    ensures Evaluate(verify, s, e, r, now, Durable).1 == Permit
      <==> !s.globalKill && e.missionId !in s.killed && e.grantId !in s.revoked
           && Floor(s, e.missionId) <= e.missionVersion && e.nonce !in s.store.seen
  {
    PermitMeansAuthorized(verify, Restarted(s), e, r, now, Durable);
    PermitMeansAuthorized(verify, s, e, r, now, Durable);
  }

  /** A control message after which an authorized envelope is refused. */
  predicate Forbids(m: Message, e: Envelope) {
    match m
    case RevokeGrant(Some(id)) => id == e.grantId
    case SetMissionVersion(Some(mission), Some(version)) => mission == e.missionId && e.missionVersion < version
    case Kill(Some(mission)) => mission == e.missionId
    case Kill(None) => true
    case _ => false
  }

  /**
   * Every kill, revocation and raised floor takes effect at once and is undone by a restart: the
   * restarted process permits the request again unless the nonce file holds its nonce.
   */
  lemma RestartUndoesControl(verify: Signature, s: State, e: Envelope, r: Requested, now: int, i: Input)
    requires Authorized(verify, s, e, r, now) && IsControl(i.message)
    ensures var s' := Step(verify, s, i.message, i.now, i.world).0;
      && (Evaluate(verify, s', e, r, now, Durable).1.Deny? <==> Forbids(i.message, e))
      && Restarted(s') == Restarted(s)
      && (Evaluate(verify, Restarted(s'), e, r, now, Durable).1 == Permit <==> e.nonce !in Lines(s.store.log))
  {
    var s' := Step(verify, s, i.message, i.now, i.world).0;
    PermitMeansAuthorized(verify, s', e, r, now, Durable);
    PermitMeansAuthorized(verify, Restarted(s'), e, r, now, Durable);
    ControlOnFloor(verify, s, i, e.missionId);
  }

  lemma ControlOnFloor(verify: Signature, s: State, i: Input, mission: string)
    requires IsControl(i.message)
    ensures var floor := Floor(Step(verify, s, i.message, i.now, i.world).0, mission);
      match i.message
      case SetMissionVersion(Some(raised), Some(version)) =>
        floor == if raised == mission && Floor(s, mission) < version then version else Floor(s, mission)
      case _ => floor == Floor(s, mission)
  {
  }

  // ---------------------------------------------------------------- erasing denied requests

  predicate IsRequest(i: Input) {
    i.message.Execute? && i.message.envelope.Some? && i.message.requested.Some?
  }

  predicate IsDenied(verify: Signature, s: State, i: Input) {
    && IsRequest(i)
    && Evaluate(verify, s, i.message.envelope.value, i.message.requested.value, i.now, i.world.write).1 != Permit
  }

  /** The inputs without the requests that `Evaluate` denied when they were handled, with the replies of the others. */
  function Undenied(verify: Signature, s: State, inputs: seq<Input>): (seq<Input>, seq<Reply>)
    decreases |inputs|
  {
    if inputs == [] then ([], [])
    else
      var (s1, reply) := Step(verify, s, inputs[0].message, inputs[0].now, inputs[0].world);
      var (rest, replies) := Undenied(verify, s1, inputs[1..]);
      if IsDenied(verify, s, inputs[0]) then (rest, replies) else ([inputs[0]] + rest, [reply] + replies)
  }

  /** Equal but for the file behind the nonce memory: a write that failed to sync may have left a line. */
  predicate SameInMemory(s: State, t: State) {
    s.(store := s.store.(log := "")) == t.(store := t.store.(log := ""))
  }

  lemma EvaluateInMemory(verify: Signature, s: State, t: State, e: Envelope, r: Requested, now: int, write: WriteOutcome)
    requires SameInMemory(s, t)
    ensures Evaluate(verify, s, e, r, now, write).1 == Evaluate(verify, t, e, r, now, write).1
    ensures SameInMemory(Evaluate(verify, s, e, r, now, write).0, Evaluate(verify, t, e, r, now, write).0)
    ensures Evaluate(verify, s, e, r, now, write).1 != Permit ==> SameInMemory(Evaluate(verify, s, e, r, now, write).0, t)
  {
    assert s.store.seen == t.store.seen;
    assert t == s.(store := t.store);
    assert Precheck(verify, s, e, r, now) == Precheck(verify, t, e, r, now) by {
      assert Floor(s, e.missionId) == Floor(t, e.missionId);
    }
  }

  lemma StepInMemory(verify: Signature, s: State, t: State, i: Input)
    requires SameInMemory(s, t)
    ensures Step(verify, s, i.message, i.now, i.world).1 == Step(verify, t, i.message, i.now, i.world).1
    ensures SameInMemory(Step(verify, s, i.message, i.now, i.world).0, Step(verify, t, i.message, i.now, i.world).0)
    ensures IsDenied(verify, s, i) ==> SameInMemory(Step(verify, s, i.message, i.now, i.world).0, t)
  {
    assert t == s.(store := t.store);
    if IsRequest(i) {
      EvaluateInMemory(verify, s, t, i.message.envelope.value, i.message.requested.value, i.now, i.world.write);
    } else if i.message.SetMissionVersion? && i.message.mission.Some? {
      assert Floor(s, i.message.mission.value) == Floor(t, i.message.mission.value);
    }
  }

  /** Erasing the denied requests of one process changes no other reply and no remembered state. */
  lemma {:induction false} DeniedRequestsLeaveNoTrace(verify: Signature, s: State, t: State, inputs: seq<Input>)
    requires SameInMemory(s, t)
    ensures var (kept, replies) := Undenied(verify, s, inputs);
      && Run(verify, t, kept).1 == replies
      && SameInMemory(Run(verify, s, inputs).0, Run(verify, t, kept).0)
    decreases |inputs|
  {
    if inputs != [] {
      var i := inputs[0];
      var s1 := Step(verify, s, i.message, i.now, i.world).0;
      var kept := Undenied(verify, s1, inputs[1..]).0;
      StepInMemory(verify, s, t, i);
      if IsDenied(verify, s, i) {
        DeniedRequestsLeaveNoTrace(verify, s1, t, inputs[1..]);
      } else {
        DeniedRequestsLeaveNoTrace(verify, s1, Step(verify, t, i.message, i.now, i.world).0, inputs[1..]);
        assert ([i] + kept)[1..] == kept;
      }
    }
  }

  // ---------------------------------------------------------------- executions over restarts

  datatype Event = Handle(input: Input) | Reboot

  datatype History = History(state: State, granted: seq<string>, executed: seq<string>)

  /** The nonce that one input gets granted, if any. */
  function GrantedBy(verify: Signature, s: State, i: Input): seq<string> {
    if IsRequest(i) && !IsDenied(verify, s, i) then [i.message.envelope.value.nonce] else []
  }

  /** The nonce under whose authority one input reports executed work, if any. */
  function ExecutedBy(verify: Signature, s: State, i: Input): seq<string> {
    var reply := Step(verify, s, i.message, i.now, i.world).1;
    if IsRequest(i) && reply.Outcome? && reply.executionId.Some? then [i.message.envelope.value.nonce] else []
  }

  function Lifetime(verify: Signature, prefixes: seq<string>, log: string, events: seq<Event>): History
    decreases |events|
  {
    if events == [] then History(Fresh(prefixes, log), [], [])
    else
      var h := Lifetime(verify, prefixes, log, events[..|events| - 1]);
      match events[|events| - 1]
      case Reboot => h.(state := Fresh(prefixes, h.state.store.log))
      case Handle(i) =>
        History(
          Step(verify, h.state, i.message, i.now, i.world).0,
          h.granted + GrantedBy(verify, h.state, i),
          h.executed + ExecutedBy(verify, h.state, i))
  }

  /** One input either leaves the nonce store alone or reserves the nonce of its request, and executes only under a nonce it got. */
  lemma InputOnStore(verify: Signature, s: State, i: Input)
    ensures var store := Step(verify, s, i.message, i.now, i.world).0.store;
      if IsRequest(i) && Precheck(verify, s, i.message.envelope.value, i.message.requested.value, i.now) == None then
        var nonce := i.message.envelope.value.nonce;
        var (reserved, ok) := Reserved(s.store, nonce, i.world.write);
        store == reserved && GrantedBy(verify, s, i) == (if ok then [nonce] else [])
      else
        store == s.store && GrantedBy(verify, s, i) == []
  {
  }

  lemma ExecutedOnlyIfGranted(verify: Signature, s: State, i: Input)
    ensures multiset(ExecutedBy(verify, s, i)) <= multiset(GrantedBy(verify, s, i))
  {
    if IsRequest(i) && IsDenied(verify, s, i) {
      assert ExecutedBy(verify, s, i) == [];
    }
  }

  lemma HandleKeeps(verify: Signature, s: State, granted: seq<string>, i: Input)
    requires Kept(s.store, granted)
    ensures Kept(Step(verify, s, i.message, i.now, i.world).0.store, granted + GrantedBy(verify, s, i))
  {
    assert granted + [] == granted;
    InputOnStore(verify, s, i);
    if IsRequest(i) {
      ReserveKeeps(s.store, granted, i.message.envelope.value.nonce, i.world.write);
    }
  }

  lemma {:induction false} LifetimeKeeps(verify: Signature, prefixes: seq<string>, log: string, events: seq<Event>)
    requires WholeLines(log)
    ensures var h := Lifetime(verify, prefixes, log, events);
      Kept(h.state.store, h.granted) && multiset(h.executed) <= multiset(h.granted)
    decreases |events|
  {
    if events != [] {
      var n := |events| - 1;
      LifetimeKeeps(verify, prefixes, log, events[..n]);
      var h := Lifetime(verify, prefixes, log, events[..n]);
      match events[n]
      case Reboot => OpenKeeps(h.state.store, h.granted);
      case Handle(i) =>
        HandleKeeps(verify, h.state, h.granted, i);
        ExecutedOnlyIfGranted(verify, h.state, i);
    }
  }

  lemma ExecutionsAreGranted(verify: Signature, prefixes: seq<string>, log: string, events: seq<Event>, nonce: string)
    requires WholeLines(log)
    ensures var h := Lifetime(verify, prefixes, log, events);
      && multiset(h.executed)[nonce] <= multiset(h.granted)[nonce]
      && (!EndsWithCr(nonce) ==> multiset(h.granted)[nonce] <= 1)
      && ('\n' in nonce ==> multiset(h.granted)[nonce] == 0)
  {
    LifetimeKeeps(verify, prefixes, log, events);
    if '\n' in nonce {
      assert nonce !in Lifetime(verify, prefixes, log, events).granted;
    }
  }

  /** A request that is authorized and that a tool executes, with its nonce durably written. */
  ghost predicate Executes(verify: Signature, s: State, i: Input) {
    && IsRequest(i) && i.world.write == Durable
    && Authorized(verify, s, i.message.envelope.value, i.message.requested.value, i.now)
    && Dispatch(i.message.envelope.value, i.message.requested.value, i.world).Outcome?
    && Dispatch(i.message.envelope.value, i.message.requested.value, i.world).executionId.Some?
  }

  lemma ExecutesOnce(verify: Signature, s: State, i: Input)
    requires Executes(verify, s, i)
    ensures var nonce := i.message.envelope.value.nonce;
      && GrantedBy(verify, s, i) == ExecutedBy(verify, s, i) == [nonce]
      && Step(verify, s, i.message, i.now, i.world).0.store.log == s.store.log + nonce + "\n"
  {
    PermitMeansAuthorized(verify, s, i.message.envelope.value, i.message.requested.value, i.now, Durable);
  }

  lemma ExecutesNext(verify: Signature, prefixes: seq<string>, events: seq<Event>, i: Input)
    requires Executes(verify, Lifetime(verify, prefixes, "", events).state, i)
    ensures var nonce := i.message.envelope.value.nonce;
      var h, h' := Lifetime(verify, prefixes, "", events), Lifetime(verify, prefixes, "", events + [Handle(i)]);
      h'.executed == h.executed + [nonce] && h'.state.store.log == h.state.store.log + nonce + "\n"
  {
    assert (events + [Handle(i)])[..|events|] == events;
    ExecutesOnce(verify, Lifetime(verify, prefixes, "", events).state, i);
  }

  lemma RebootsNext(verify: Signature, prefixes: seq<string>, events: seq<Event>)
    ensures var h, h' := Lifetime(verify, prefixes, "", events), Lifetime(verify, prefixes, "", events + [Reboot]);
      h' == h.(state := Fresh(prefixes, h.state.store.log))
  {
    assert (events + [Reboot])[..|events|] == events;
  }

  lemma ExecutesThenReboots(verify: Signature, prefixes: seq<string>, i: Input) returns (events: seq<Event>)
    requires Executes(verify, Fresh(prefixes, ""), i)
    ensures events == [Handle(i), Reboot]
    ensures var h := Lifetime(verify, prefixes, "", events);
      && h.executed == [i.message.envelope.value.nonce]
      && h.state == Fresh(prefixes, i.message.envelope.value.nonce + "\n")
  {
    var nonce := i.message.envelope.value.nonce;
    ExecutesNext(verify, prefixes, [], i);
    assert "" + nonce == nonce;
    RebootsNext(verify, prefixes, [] + [Handle(i)]);
    events := [] + [Handle(i)] + [Reboot];
  }

  /** A nonce that ends in CR looks new to a restarted process, which executes the same request again. */
  lemma CrNonceExecutesTwice(verify: Signature, prefixes: seq<string>, i: Input)
    requires Executes(verify, Fresh(prefixes, ""), i) && EndsWithCr(i.message.envelope.value.nonce)
    ensures var nonce := i.message.envelope.value.nonce;
      Lifetime(verify, prefixes, "", [Handle(i), Reboot, Handle(i)]).executed == [nonce, nonce]
  {
    var events := ExecutesThenReboots(verify, prefixes, i);
    StillExecutes(verify, prefixes, i);
    ExecutesNext(verify, prefixes, events, i);
    assert [Handle(i), Reboot, Handle(i)] == events + [Handle(i)];
  }

  lemma StillExecutes(verify: Signature, prefixes: seq<string>, i: Input)
    requires Executes(verify, Fresh(prefixes, ""), i) && EndsWithCr(i.message.envelope.value.nonce)
    ensures Executes(verify, Fresh(prefixes, i.message.envelope.value.nonce + "\n"), i)
  {
    var nonce := i.message.envelope.value.nonce;
    AppendedLine("", nonce);
    var log := nonce + "\n";
    assert log == "" + nonce + "\n" && Lines(log) == [StripCr(nonce)] && |StripCr(nonce)| < |nonce|;
    assert nonce !in Opened(log).seen;
    assert Fresh(prefixes, log) == Fresh(prefixes, "").(store := Opened(log));
  }

  /** A request that every gateway with a range executes, whatever its nonce. */
  function Probe(nonce: string): Input {
    Input(
      Execute(
        Some(Envelope("m", 0, "a", "u", "t", "cyber_range:", "range.health.verify", "c", "r", "permit", "d", "g", 1, nonce, "h", "s")),
        Some(Requested(0, "t", "cyber_range:", "range.health.verify", "c", "h", "range.health.verify", "{}"))),
      0, World(Durable, Some(Answered(true)), Kata))
  }

  lemma ProbeExecutes(nonce: string)
    requires Acceptable(nonce)
    ensures Executes(_ => true, Fresh(["cyber_range:"], ""), Probe(nonce))
  {
    var prefixes := ["cyber_range:"];
    assert prefixes[0] <= "cyber_range:";
    assert Lines("") == [];
    assert Text.Trim("{}", Text.IsRustSpace) == "{}";
  }

  /**
   * Over every run with restarts, under every signature check and configuration, work runs at most
   * once for a nonce exactly when the nonce does not end in CR (or can never be granted).
   */
  lemma ExecutedAtMostOnce(nonce: string)
    ensures (forall verify, prefixes, log, events :: WholeLines(log) ==>
        multiset(Lifetime(verify, prefixes, log, events).executed)[nonce] <= 1)
      <==> !EndsWithCr(nonce) || '\n' in nonce
  {
    forall verify, prefixes, log, events | WholeLines(log) && (!EndsWithCr(nonce) || '\n' in nonce)
      ensures multiset(Lifetime(verify, prefixes, log, events).executed)[nonce] <= 1
    {
      ExecutionsAreGranted(verify, prefixes, log, events, nonce);
    }
    if EndsWithCr(nonce) && '\n' !in nonce {
      var verify, prefixes, events := CrNonceFails(nonce);
    }
  }

  lemma CrNonceFails(nonce: string) returns (verify: Signature, prefixes: seq<string>, events: seq<Event>)
    requires EndsWithCr(nonce) && '\n' !in nonce
    ensures multiset(Lifetime(verify, prefixes, "", events).executed)[nonce] == 2
  {
    var i := Probe(nonce);
    verify, prefixes, events := _ => true, ["cyber_range:"], [Handle(i), Reboot, Handle(i)];
    ProbeExecutes(nonce);
    CrNonceExecutesTwice(_ => true, prefixes, i);
  }

  /** An execution id is only ever reported for an authorized request whose tool is the authorized capability, on the range. */
  lemma ExecutionMeansAuthorized(verify: Signature, s: State, i: Input)
    requires i.message.Execute?
    requires Step(verify, s, i.message, i.now, i.world).1.executionId.Some?
    ensures i.message.envelope.Some? && i.message.requested.Some?
    ensures var e, r := i.message.envelope.value, i.message.requested.value;
      && Authorized(verify, s, e, r, i.now)
      && r.toolId == e.capability && r.toolId in RANGE_TOOLS && "cyber_range:" <= e.environment
      && e.nonce in Step(verify, s, i.message, i.now, i.world).0.store.seen
  {
    var e, r := i.message.envelope.value, i.message.requested.value;
    PermitMeansAuthorized(verify, s, e, r, i.now, i.world.write);
  }

  // ---------------------------------------------------------------- the answer to a permitted request

  /** A range request has the range's environment, no arguments, and resets nothing but the range. */
  predicate RangeRequestValid(r: Requested) {
    && "cyber_range:" <= r.environment && Text.Trim(r.argsJson, Text.IsRustSpace) == "{}"
    && (r.toolId == "range.reset" ==> r.target == "range")
  }

  predicate Verifies(r: Requested) {
    r.toolId == "range.scenario.verify" || r.toolId == "range.campaign.verify"
  }

  /** The gateway's decision let the request pass, with its nonce durably written. */
  ghost predicate Passes(verify: Signature, s: State, i: Input) {
    && IsRequest(i) && i.world.write == Durable
    && Authorized(verify, s, i.message.envelope.value, i.message.requested.value, i.now)
  }

  /** A passed request for a range tool, in order, to a range that answered. */
  ghost predicate RangeAnswers(verify: Signature, s: State, i: Input, answer: bool) {
    && Passes(verify, s, i)
    && var r := i.message.requested.value;
       r.toolId == r.capability && r.toolId in RANGE_TOOLS && RangeRequestValid(r) && i.world.range == Some(Answered(answer))
  }

  lemma DispatchedWork(e: Envelope, r: Requested, w: World)
    ensures var reply := Dispatch(e, r, w);
      var ran := r.toolId == r.capability && r.toolId in RANGE_TOOLS && RangeRequestValid(r)
        && (w.range == Some(Answered(true)) || (w.range == Some(Answered(false)) && !Verifies(r)));
      && reply.Outcome? && (reply.status == Executed <==> ran) && (reply.executionId.Some? <==> ran)
      && (ran ==> reply == Outcome(true, Executed, [], Some("range-control:" + r.toolId + ":" + e.actionId + ":" + e.nonce)))
  {
  }

  /**
   * Work is reported as executed, with an id, exactly for a passed range request in order that the range
   * answered; and answered with yes, where the tool verifies something.
   */
  lemma ExecutesExactly(verify: Signature, s: State, i: Input)
    requires IsRequest(i)
    ensures var reply := Step(verify, s, i.message, i.now, i.world).1;
      var e, r := i.message.envelope.value, i.message.requested.value;
      && reply.Outcome? && (reply.status == Executed <==> reply.executionId.Some?)
      && (reply.executionId.Some? <==>
            RangeAnswers(verify, s, i, true) || (RangeAnswers(verify, s, i, false) && !Verifies(r)))
      && (reply.executionId.Some? ==>
            reply == Outcome(true, Executed, [], Some("range-control:" + r.toolId + ":" + e.actionId + ":" + e.nonce)))
  {
    var e, r := i.message.envelope.value, i.message.requested.value;
    PermitMeansAuthorized(verify, s, e, r, i.now, i.world.write);
    DispatchedWork(e, r, i.world);
  }

  /** A verification that the range answered with no is refused, and says which it was. */
  lemma FailedVerificationIsRefused(verify: Signature, s: State, i: Input)
    requires RangeAnswers(verify, s, i, false) && Verifies(i.message.requested.value)
    ensures Step(verify, s, i.message, i.now, i.world).1 ==
      Outcome(false, Denied,
        [if i.message.requested.value.toolId == "range.campaign.verify" then "RangeCampaignNotComplete" else "RangeScenarioNotActive"], None)
  {
    PermitMeansAuthorized(verify, s, i.message.envelope.value, i.message.requested.value, i.now, Durable);
  }

  /** A permit without an execution is given exactly to a passed health check of an isolated sandbox; every other reply is a refusal. */
  lemma PermitsWithoutExecution(verify: Signature, s: State, i: Input)
    requires IsRequest(i)
    ensures var reply, r := Step(verify, s, i.message, i.now, i.world).1, i.message.requested.value;
      && (reply.permit && reply.executionId == None <==>
            && Passes(verify, s, i) && i.world.backend != Unavailable
            && r.toolId == r.capability && r.toolId == "sandbox.health.verify")
      && (reply.permit && reply.executionId == None ==> reply == Outcome(true, AuthorizedOnly, ["ExecutionNotImplemented"], None))
      && (!reply.permit ==> reply.status == Denied && reply.executionId == None && |reply.reasons| == 1)
  {
    PermitMeansAuthorized(verify, s, i.message.envelope.value, i.message.requested.value, i.now, i.world.write);
  }

  /** Why a passed request is refused: each reason exactly under its condition. */
  lemma PassedRefusals(verify: Signature, s: State, i: Input)
    requires Passes(verify, s, i)
    ensures var reply, r, w := Step(verify, s, i.message, i.now, i.world).1, i.message.requested.value, i.world;
      var range := r.toolId in RANGE_TOOLS && RangeRequestValid(r);
      && (reply == Refuse("ToolCapabilityMismatch") <==> r.toolId != r.capability)
      && (r.toolId == r.capability ==>
            && (reply == Refuse("RangeControlRequestInvalid") <==> r.toolId in RANGE_TOOLS && !RangeRequestValid(r))
            && (reply == Refuse("RangeControlUnavailable") <==> range && (w.range == None || w.range == Some(RangeUnavailable)))
            && (reply == Refuse("RangeControlInvalidResponse") <==> range && w.range == Some(RangeInvalid))
            && (reply == Refuse("SandboxUnavailable") <==> r.toolId !in RANGE_TOOLS && w.backend == Unavailable)
            && (reply == Refuse("ToolNotAllowlisted") <==>
                 r.toolId !in RANGE_TOOLS && w.backend != Unavailable && r.toolId != "sandbox.health.verify"))
  {
    PermitMeansAuthorized(verify, s, i.message.envelope.value, i.message.requested.value, i.now, Durable);
  }

  /** A request that does not pass is refused with the name of the first broken rule, and nothing is dispatched. */
  lemma UnpassedIsRefused(verify: Signature, s: State, i: Input)
    requires IsRequest(i) && !Passes(verify, s, i)
    ensures var d := Evaluate(verify, s, i.message.envelope.value, i.message.requested.value, i.now, i.world.write).1;
      d.Deny? && Step(verify, s, i.message, i.now, i.world).1 == Outcome(false, Denied, [ReasonName(d.reason)], None)
  {
    PermitMeansAuthorized(verify, s, i.message.envelope.value, i.message.requested.value, i.now, i.world.write);
  }

  /** The range is reset from outside an execution exactly for a mission that a kill covers, by a range that answers. */
  lemma RangeResetsExactly(verify: Signature, s: State, mission: string, now: int, w: World)
    ensures var (s', reply) := Step(verify, s, RangeReset(Some(mission)), now, w);
      && s' == s && reply.Control?
      && (reply.ok <==> (s.globalKill || mission in s.killed) && w.range.Some? && w.range.value.Answered?)
      && (reply.reasons == ["kill_required"] <==> !s.globalKill && mission !in s.killed)
  {
    assert ["RangeControlUnavailable"][0] != "kill_required" && ["RangeControlInvalidResponse"][0] != "kill_required";
  }

  /** Which messages that request no execution are answered with ok; those that are not understood change nothing. */
  lemma ControlIsAcknowledged(verify: Signature, s: State, m: Message, now: int, w: World)
    requires !m.Execute?
    ensures var (s', reply) := Step(verify, s, m, now, w);
      && reply.Control? && (reply.ok ==> reply.reasons == [])
      && (m.RevokeGrant? || m.SetMissionVersion? || m.Kill? ==> reply.ok)
      && (m.Malformed? || m.UnknownOp? || m == RangeReset(None) ==>
            && !reply.ok && s' == s
            && reply.reasons == [if m.Malformed? then "malformed" else if m.UnknownOp? then "unknown_op" else "mission_id_required"])
  {
  }

  /** A request without a readable envelope or action is refused before anything is decided. */
  lemma IncompleteRequestsAreRefused(verify: Signature, s: State, m: Message, now: int, w: World)
    requires m.Execute? && (m.envelope == None || m.requested == None)
    ensures Step(verify, s, m, now, w) == (s, Outcome(false, Denied, ["malformed"], None))
  {
  }

  /** A refusal tells which rule was broken. */
  lemma NamesTellRulesApart(a: DenyReason, b: DenyReason)
    ensures ReasonName(a) == ReasonName(b) ==> a == b
  {
  }
}
