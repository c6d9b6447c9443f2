/**
 * The runtime over routed adapters: how many providers a call's idempotency key can reach, counting
 * every entry into the gateway that came to its adapter, and every provider attempted in it.
 */
module ProviderEffects {
  import opened Options
  import opened CapabilityPolicy
  import opened Providers
  import Runtime = CapabilityRuntime

  /** How each provider ends its attempt in one entry into the gateway. */
  type Behaviour = Provider -> Attempt

  type Adapters = map<string, Routed>

  /** What the gateway knows of the adapters. */
  function Declarations(adapters: Adapters): Runtime.Registry {
    map name | name in adapters :: Declaration(adapters[name].externalEffect, adapters[name].minimum)
  }

  ghost predicate AllBuilt(adapters: Adapters) {
    forall name :: name in adapters ==> DistinctNames(adapters[name].providers)
  }

  function EndOf(o: Outcome): Runtime.AdapterEnd {
    match o case Returned(result) => Runtime.Answers(result) case _ => Runtime.Raises
  }

  /** How the routed adapter of an intent ends under a behaviour of its providers. */
  function RoutedEnd(adapters: Adapters, intent: Intent, run: Behaviour): Runtime.AdapterEnd
    requires intent.capability in adapters
  {
    EndOf(OutcomeOf(adapters[intent.capability], intent, run))
  }

  // ---------------------------------------------------------------- entries and their providers

  /** Entry `k` came to its adapter: the gateway's own second authorization let it pass. */
  predicate CameThrough(s: Runtime.State, adapters: Adapters, k: nat) {
    && k < |s.entries| && s.entries[k].row < |s.rows| && s.entries[k].attempt != Runtime.NotRun
    && s.rows[s.entries[k].row].intent.capability in adapters
  }

  function IntentOf(s: Runtime.State, adapters: Adapters, k: nat): Intent
    requires CameThrough(s, adapters, k)
  {
    s.rows[s.entries[k].row].intent
  }

  /** Under this behaviour of the providers the adapter of entry `k` ends as the entry recorded. */
  predicate Explains(s: Runtime.State, adapters: Adapters, k: nat, run: Behaviour) {
    CameThrough(s, adapters, k) && s.entries[k].attempt == Runtime.AttemptOf(RoutedEnd(adapters, IntentOf(s, adapters, k), run))
  }

  ghost predicate Explainable(s: Runtime.State, adapters: Adapters, k: nat) {
    exists run: Behaviour :: Explains(s, adapters, k, run)
  }

  /** Every entry that was not refused by the gateway itself ended as its routed adapter can end. */
  ghost predicate EntriesRouted(s: Runtime.State, adapters: Adapters) {
    forall k: nat :: k < |s.entries| && s.entries[k].attempt != Runtime.NotRun ==> Explainable(s, adapters, k)
  }

  /** A behaviour for each entry that explains what was recorded. */
  ghost predicate ExplainsAll(s: Runtime.State, adapters: Adapters, behave: nat -> Behaviour) {
    forall k: nat :: CameThrough(s, adapters, k) ==> Explains(s, adapters, k, behave(k))
  }

  /** The providers attempted in entry `k`. */
  function ReachedIn(s: Runtime.State, adapters: Adapters, run: Behaviour, k: nat): seq<Provider> {
    if !CameThrough(s, adapters, k) then []
    else
      var intent := IntentOf(s, adapters, k);
      Attempted(Candidates(adapters[intent.capability], intent), FailoverSafe(adapters[intent.capability]), run)
  }

  /** What the first `n` entries into the gateway add up to under a key. */
  function JoinedUnder<T>(s: Runtime.State, n: nat, key: Option<string>, part: nat -> seq<T>): seq<T>
    requires n <= |s.entries|
  {
    if n == 0 then []
    else JoinedUnder(s, n - 1, key, part) + if Runtime.EnteredUnder(s, n - 1, key) then part(n - 1) else []
  }

  /** The providers attempted under a key, when the providers of each entry behave as given. */
  function ReachedUnder(s: Runtime.State, key: Option<string>, adapters: Adapters, behave: nat -> Behaviour): seq<Provider> {
    JoinedUnder(s, |s.entries|, key, (k: nat) => ReachedIn(s, adapters, behave(k), k))
  }

  lemma {:induction false} NothingJoined<T>(s: Runtime.State, n: nat, key: Option<string>, part: nat -> seq<T>)
    requires n <= |s.entries| && forall k :: 0 <= k < n ==> !Runtime.EnteredUnder(s, k, key)
    ensures JoinedUnder(s, n, key, part) == []
  {
    if n > 0 {
      NothingJoined(s, n - 1, key, part);
    }
  }

  /** With one entry under the key, the sum is no longer than its part. */
  lemma {:induction false} OneEntryJoined<T>(s: Runtime.State, n: nat, key: Option<string>, part: nat -> seq<T>)
    requires n <= |s.entries|
    requires forall k, l :: 0 <= k < l < n && Runtime.EnteredUnder(s, k, key) ==> !Runtime.EnteredUnder(s, l, key)
    requires forall k: nat :: k < n && Runtime.EnteredUnder(s, k, key) ==> |part(k)| <= 1
    ensures |JoinedUnder(s, n, key, part)| <= 1
  {
    if n > 0 {
      if Runtime.EnteredUnder(s, n - 1, key) {
        NothingJoined(s, n - 1, key, part);
      } else {
        OneEntryJoined(s, n - 1, key, part);
      }
    }
  }

  lemma {:induction false} EntryIsJoined<T>(s: Runtime.State, n: nat, key: Option<string>, part: nat -> seq<T>, k: nat)
    requires k < n <= |s.entries| && Runtime.EnteredUnder(s, k, key)
    ensures |JoinedUnder(s, n, key, part)| >= |part(k)|
  {
    if k < n - 1 {
      EntryIsJoined(s, n - 1, key, part, k);
    }
  }

  // ---------------------------------------------------------------- when a key reaches one provider

  /** The key has reached at most one provider, under every behaviour of the providers that explains the recorded entries. */
  ghost predicate OnlyOneReached(s: Runtime.State, key: Option<string>, adapters: Adapters) {
    forall behave: nat -> Behaviour | ExplainsAll(s, adapters, behave) :: |ReachedUnder(s, key, adapters, behave)| <= 1
  }

  predicate MayFailOver(s: Runtime.State, adapters: Adapters, k: nat) {
    && CameThrough(s, adapters, k)
    && !ReachesOneProvider(adapters[IntentOf(s, adapters, k).capability], IntentOf(s, adapters, k))
  }

  /** No entry under the key came to an adapter that may fail over to a second candidate. */
  ghost predicate NoFailoverUnder(s: Runtime.State, key: Option<string>, adapters: Adapters) {
    forall k: nat :: k < |s.entries| && Runtime.EnteredUnder(s, k, key) ==> !MayFailOver(s, adapters, k)
  }

  lemma OneReachedIn(s: Runtime.State, adapters: Adapters, run: Behaviour, k: nat)
    requires !MayFailOver(s, adapters, k)
    ensures |ReachedIn(s, adapters, run, k)| <= 1
  {
    if CameThrough(s, adapters, k) {
      var intent := IntentOf(s, adapters, k);
      OneAttemptExactly(adapters[intent.capability], intent);
    }
  }

  /** What an entry recorded does not tell that only one provider was reached, where failing over is safe. */
  lemma TwoReachedIn(s: Runtime.State, adapters: Adapters, run: Behaviour, k: nat) returns (other: Behaviour)
    requires AllBuilt(adapters) && MayFailOver(s, adapters, k) && Explains(s, adapters, k, run)
    ensures Explains(s, adapters, k, other) && |ReachedIn(s, adapters, other, k)| > 1
  {
    var intent := IntentOf(s, adapters, k);
    other := SameOutcomeFromTwo(adapters[intent.capability], intent, run);
  }

  ghost function Explanation(s: Runtime.State, adapters: Adapters, k: nat): (run: Behaviour)
    requires Explainable(s, adapters, k)
    ensures Explains(s, adapters, k, run)
  {
    var run: Behaviour :| Explains(s, adapters, k, run);
    run
  }

  /** Behaviours that explain every entry, with `other` as the one chosen for entry `k`. */
  ghost function Behaviours(s: Runtime.State, adapters: Adapters, k: nat, other: Behaviour): (behave: nat -> Behaviour)
    requires EntriesRouted(s, adapters) && Explains(s, adapters, k, other)
    ensures behave(k) == other && ExplainsAll(s, adapters, behave)
  {
    (l: nat) => if l == k || !CameThrough(s, adapters, l) then other else Explanation(s, adapters, l)
  }

  lemma ReachedUnderAtLeast(s: Runtime.State, key: Option<string>, adapters: Adapters, behave: nat -> Behaviour, k: nat)
    requires k < |s.entries| && Runtime.EnteredUnder(s, k, key)
    ensures |ReachedUnder(s, key, adapters, behave)| >= |ReachedIn(s, adapters, behave(k), k)|
  {
    EntryIsJoined(s, |s.entries|, key, (l: nat) => ReachedIn(s, adapters, behave(l), l), k);
  }

  lemma FailoverReachesTwo(s: Runtime.State, key: Option<string>, adapters: Adapters, k: nat)
    requires AllBuilt(adapters) && EntriesRouted(s, adapters)
    requires k < |s.entries| && Runtime.EnteredUnder(s, k, key) && MayFailOver(s, adapters, k)
    ensures !OnlyOneReached(s, key, adapters)
  {
    var other := TwoReachedIn(s, adapters, Explanation(s, adapters, k), k);
    var behave := Behaviours(s, adapters, k, other);
    ReachedUnderAtLeast(s, key, adapters, behave, k);
  }

  lemma OneEntryExactly(s: Runtime.State, key: Option<string>, adapters: Adapters)
    requires AllBuilt(adapters) && EntriesRouted(s, adapters)
    requires forall k, l :: 0 <= k < l < |s.entries| && Runtime.EnteredUnder(s, k, key) ==> !Runtime.EnteredUnder(s, l, key)
    ensures OnlyOneReached(s, key, adapters) <==> NoFailoverUnder(s, key, adapters)
  {
    if NoFailoverUnder(s, key, adapters) {
      forall behave: nat -> Behaviour | ExplainsAll(s, adapters, behave) ensures |ReachedUnder(s, key, adapters, behave)| <= 1 {
        var part := (k: nat) => ReachedIn(s, adapters, behave(k), k);
        forall k: nat | k < |s.entries| && Runtime.EnteredUnder(s, k, key) ensures |part(k)| <= 1 {
          OneReachedIn(s, adapters, behave(k), k);
        }
        OneEntryJoined(s, |s.entries|, key, part);
      }
    } else {
      var k: nat :| k < |s.entries| && Runtime.EnteredUnder(s, k, key) && MayFailOver(s, adapters, k);
      FailoverReachesTwo(s, key, adapters, k);
    }
  }

  // ---------------------------------------------------------------- runs over routed adapters

  /** The adapter of this turn ends as some behaviour of its providers makes the routed adapter end. */
  ghost predicate RoutedTurn(adapters: Adapters, s: Runtime.State, p: nat, c: Runtime.Choice) {
    c.Proceed? && p < |s.callers| && s.callers[p].phase.Ready? && s.callers[p].request.intent.capability in adapters ==>
      exists run: Behaviour :: c.adapter == RoutedEnd(adapters, s.callers[p].request.intent, run)
  }

  ghost predicate RoutedTurns(adapters: Adapters, s: Runtime.State, turns: seq<Runtime.Turn>)
    decreases |turns|
  {
    turns == [] || (
      && RoutedTurn(adapters, s, turns[0].caller, turns[0].choice)
      && RoutedTurns(adapters, Runtime.Step(Declarations(adapters), s, turns[0].caller, turns[0].choice), turns[1..]))
  }

  /** Rows keep their intents, and entries stay. */
  ghost predicate Extends(s: Runtime.State, s': Runtime.State) {
    && |s.rows| <= |s'.rows| && (forall i :: 0 <= i < |s.rows| ==> s'.rows[i].intent == s.rows[i].intent)
    && s.entries <= s'.entries && |s'.entries| <= |s.entries| + 1
  }

  lemma StepExtends(registry: Runtime.Registry, s: Runtime.State, p: nat, c: Runtime.Choice)
    ensures Extends(s, Runtime.Step(registry, s, p, c))
  {
    assert s.entries + [] == s.entries;
  }

  lemma ExplainedStays(adapters: Adapters, s: Runtime.State, s': Runtime.State, k: nat)
    requires Extends(s, s') && Explainable(s, adapters, k)
    ensures Explainable(s', adapters, k)
  {
    var run := Explanation(s, adapters, k);
    assert s'.entries[k] == s.entries[k];
    assert s'.rows[s.entries[k].row].intent == s.rows[s.entries[k].row].intent;
    assert Explains(s', adapters, k, run);
  }

  /** A new entry is for the row of a call that was about to enter, and records how its adapter ended unless the gateway refused. */
  lemma NewEntry(registry: Runtime.Registry, s: Runtime.State, p: nat, c: Runtime.Choice)
    requires Runtime.Inv(registry, s) && |Runtime.Step(registry, s, p, c).entries| > |s.entries|
    ensures p < |s.callers| && s.callers[p].phase.Ready? && c.Proceed?
    ensures var s' := Runtime.Step(registry, s, p, c);
      var e := s'.entries[|s.entries|];
      && e.row < |s'.rows| && s'.rows[e.row].intent == s.callers[p].request.intent
      && (e.attempt != Runtime.NotRun ==> e.attempt == Runtime.AttemptOf(c.adapter) && s.callers[p].request.intent.capability in registry)
  {
    assert s.entries + [] == s.entries;
    assert Runtime.Held(s.callers[p].phase).Some?;
  }

  lemma NewEntryExplained(adapters: Adapters, s: Runtime.State, p: nat, c: Runtime.Choice)
    requires Runtime.Inv(Declarations(adapters), s) && RoutedTurn(adapters, s, p, c)
    requires var s' := Runtime.Step(Declarations(adapters), s, p, c);
      |s.entries| < |s'.entries| && s'.entries[|s.entries|].attempt != Runtime.NotRun
    ensures Explainable(Runtime.Step(Declarations(adapters), s, p, c), adapters, |s.entries|)
  {
    NewEntry(Declarations(adapters), s, p, c);
    var run: Behaviour :| c.adapter == RoutedEnd(adapters, s.callers[p].request.intent, run);
    assert Explains(Runtime.Step(Declarations(adapters), s, p, c), adapters, |s.entries|, run);
  }

  lemma RoutedEntriesGrow(adapters: Adapters, s: Runtime.State, s': Runtime.State)
    requires Extends(s, s') && EntriesRouted(s, adapters)
    requires |s.entries| < |s'.entries| && s'.entries[|s.entries|].attempt != Runtime.NotRun ==> Explainable(s', adapters, |s.entries|)
    ensures EntriesRouted(s', adapters)
  {
    forall k: nat | k < |s'.entries| && s'.entries[k].attempt != Runtime.NotRun ensures Explainable(s', adapters, k) {
      if k < |s.entries| {
        assert s'.entries[k] == s.entries[k];
        ExplainedStays(adapters, s, s', k);
      }
    }
  }

  lemma StepKeepsRouted(adapters: Adapters, s: Runtime.State, p: nat, c: Runtime.Choice)
    requires Runtime.Inv(Declarations(adapters), s) && EntriesRouted(s, adapters) && RoutedTurn(adapters, s, p, c)
    ensures EntriesRouted(Runtime.Step(Declarations(adapters), s, p, c), adapters)
  {
    var s' := Runtime.Step(Declarations(adapters), s, p, c);
    StepExtends(Declarations(adapters), s, p, c);
    if |s.entries| < |s'.entries| && s'.entries[|s.entries|].attempt != Runtime.NotRun {
      NewEntryExplained(adapters, s, p, c);
    }
    RoutedEntriesGrow(adapters, s, s');
  }

  /** Runs in which adapters end as routed adapters do leave only entries that their providers explain. */
  lemma {:induction false} RoutedRunsAreExplained(adapters: Adapters, s: Runtime.State, turns: seq<Runtime.Turn>)
    requires Runtime.Inv(Declarations(adapters), s) && EntriesRouted(s, adapters) && RoutedTurns(adapters, s, turns)
    ensures EntriesRouted(Runtime.Run(Declarations(adapters), s, turns), adapters)
    decreases |turns|
  {
    if turns != [] {
      var registry := Declarations(adapters);
      StepKeepsRouted(adapters, s, turns[0].caller, turns[0].choice);
      Runtime.StepKeeps(registry, s, turns[0].caller, turns[0].choice);
      RoutedRunsAreExplained(adapters, Runtime.Step(registry, s, turns[0].caller, turns[0].choice), turns[1..]);
    }
  }

  /**
   * After any run over routed adapters, however calls interleave and crash, an idempotency key has
   * reached at most one provider, under every behaviour of the providers that explains what was
   * recorded, exactly if no entry under it came to an adapter that may fail over to a second candidate.
   * The recorded result does not tell the provider: one that names another is recorded with that name.
   */
  lemma KeyReachesOneProviderExactly(
    adapters: Adapters, requests: seq<Runtime.Request>, turns: seq<Runtime.Turn>, key: string)
    requires AllBuilt(adapters) && RoutedTurns(adapters, Runtime.Initial(requests), turns)
    ensures var s := Runtime.Run(Declarations(adapters), Runtime.Initial(requests), turns);
      OnlyOneReached(s, Some(key), adapters) <==> NoFailoverUnder(s, Some(key), adapters)
  {
    var registry := Declarations(adapters);
    var s := Runtime.Run(registry, Runtime.Initial(requests), turns);
    Runtime.InitialInv(registry, requests);
    RoutedRunsAreExplained(adapters, Runtime.Initial(requests), turns);
    forall k, l | 0 <= k < l < |s.entries| && Runtime.EnteredUnder(s, k, Some(key)) ensures !Runtime.EnteredUnder(s, l, Some(key)) {
      Runtime.EnteredAtMostOncePerKey(registry, requests, turns, k, l);
    }
    OneEntryExactly(s, Some(key), adapters);
  }
}
