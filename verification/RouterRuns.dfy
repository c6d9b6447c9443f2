/**
 * Whole runs of the caching router: any number of calls interleave between their steps, leases run
 * out, entries are invalidated, Redis loses keys, and calls are cancelled.
 */
module RouterRuns {
  import opened Options
  import opened ResponseCache
  import opened CachingRouter
  import F = SingleFlight
  import H = CacheHistory

  // ---------------------------------------------------------------- runs

  /** A call, the acquisition of the lock it made, and the provider's answer it got. */
  datatype Call = Call(request: Request, phase: Phase, holder: Option<nat>, provider: Option<Provider>)

  /** `flight` is the history of the locks, `ops` that of the cache. */
  datatype World = World(now: int, state: State, calls: seq<Call>, flight: F.Flight, ops: seq<H.Op>)

  datatype Turn =
    | Elapse(elapsed: nat)
    | Resume(call: nat, choice: Choice)
    | Invalidate(tags: seq<string>, scope: Option<string>)
    | Lose(copies: set<Key>, locks: set<Key>)

  /** The cache operation that a step of a call performs. */
  function OpsOf(call: Call, now: int, w: Choice): seq<H.Op> {
    if w.Cancel? then []
    else match call.phase
      case Asked => if w.lookupRaises then [] else [H.FindOp(call.request, now, w.nearest, w.token)]
      case Calling(l) =>
        if w.provider.Answers? && !w.admissionRaises then [H.AdmitOp(l, w.provider.response, w.ttl, now)]
        else [H.AbortOp(l, now)]
      case _ => []
  }

  predicate TakesLock(call: Call, phase: Phase) {
    call.phase.Asked? && phase.Calling? && phase.l.lock.Some? && phase.l.key.Some?
  }

  function Resumed(c: Settings, w: World, p: nat, choice: Choice): World
    requires p < |w.calls|
  {
    var call := w.calls[p];
    var (state, phase) := Move(c, w.state, call.request, call.phase, w.now, choice);
    var ends := call.phase.Calling? && choice.Proceed?;
    World(w.now, state,
      w.calls[p := Call(call.request, phase,
        if TakesLock(call, phase) then Some(|w.flight.holders|) else call.holder,
        if ends then Some(choice.provider) else call.provider)],
      if TakesLock(call, phase) then
        F.Next(w.flight, F.Acquire(phase.l.key.value, c.lockSeconds, phase.l.lock.value))
      else if ends && call.holder.Some? then F.Next(w.flight, F.Release(call.holder.value))
      else w.flight,
      w.ops + OpsOf(call, w.now, choice))
  }

  /** Lock tokens are drawn at random: a step that would draw a used one is no step. */
  function Next(c: Settings, w: World, t: Turn): World {
    match t
    case Elapse(elapsed) => w.(now := w.now + elapsed, flight := F.Next(w.flight, F.Tick(elapsed)))
    case Resume(p, choice) =>
      if p >= |w.calls| || (choice.Proceed? && w.calls[p].phase.Asked? && !F.FreshToken(w.flight, choice.token)) then w
      else Resumed(c, w, p, choice)
    case Invalidate(tags, scope) =>
      w.(state := Invalidated(w.state, tags, scope), ops := w.ops + [H.InvalidateOp(tags, scope)])
    case Lose(copies, locks) =>
      w.(state := w.state.(copies := w.state.copies - copies, locks := w.state.locks - locks),
         flight := F.Next(w.flight, F.Lose(locks)), ops := w.ops + [H.Lose(copies, locks)])
  }

  function Run(c: Settings, w: World, turns: seq<Turn>): World
    decreases |turns|
  {
    if turns == [] then w else Run(c, Next(c, w, turns[0]), turns[1..])
  }

  function Started(now: int, requests: seq<Request>): World {
    World(now, H.EMPTY, seq(|requests|, i requires 0 <= i < |requests| => Call(requests[i], Asked, None, None)), F.Start(now), [])
  }

  // ---------------------------------------------------------------- locks

  /** What the lock history knows about one call. */
  predicate CallSound(f: F.Flight, call: Call) {
    && (call.holder.Some? ==> call.holder.value < |f.holders|)
    && match call.phase
       case Asked => call.holder == None
       case Waiting(l) => call.holder == None && l.lock == None && l.decision == AwaitPeer
       case Calling(l) =>
         && (l.lock.Some? <==> call.holder.Some?)
         && (l.lock.Some? ==>
               var h := f.holders[call.holder.value];
               && l.decision == Miss && l.key.Some? && l.context.Some?
               && h.key == l.key.value && h.token == l.lock.value && !h.released)
       case Ended(_) => call.holder.Some? ==> f.holders[call.holder.value].released
       case Cancelled => true
  }

  ghost predicate LocksSound(w: World) {
    && w.now == w.flight.now && w.state.locks == w.flight.locks && F.Inv(w.flight)
    && (forall p :: 0 <= p < |w.calls| ==> CallSound(w.flight, w.calls[p]))
    && (forall p, q :: 0 <= p < q < |w.calls| && w.calls[p].holder.Some? ==> w.calls[p].holder != w.calls[q].holder)
  }

  /** Other acquisitions, releases and losses do not disturb a call. */
  lemma SoundStays(f: F.Flight, f': F.Flight, call: Call)
    requires CallSound(f, call) && |f.holders| <= |f'.holders|
    requires call.holder.Some? ==>
      var h, h' := f.holders[call.holder.value], f'.holders[call.holder.value];
      (h.key, h.token, h.released) == (h'.key, h'.token, h'.released)
    ensures CallSound(f', call)
  {
  }

  lemma OthersStaySound(w: World, f': F.Flight, p: nat)
    requires LocksSound(w) && p < |w.calls| && |w.flight.holders| <= |f'.holders|
    requires forall i :: 0 <= i < |w.flight.holders| && w.calls[p].holder != Some(i) ==>
      var h, h' := w.flight.holders[i], f'.holders[i];
      (h.key, h.token, h.released) == (h'.key, h'.token, h'.released)
    ensures forall q :: 0 <= q < |w.calls| && q != p ==> CallSound(f', w.calls[q])
  {
    forall q | 0 <= q < |w.calls| && q != p ensures CallSound(f', w.calls[q]) {
      assert q < p ==> w.calls[q].holder.Some? ==> w.calls[q].holder != w.calls[p].holder;
      assert p < q ==> w.calls[p].holder.Some? ==> w.calls[p].holder != w.calls[q].holder;
      SoundStays(w.flight, f', w.calls[q]);
    }
  }

  lemma AskKeepsLocks(c: Settings, w: World, p: nat, choice: Choice)
    requires LocksSound(w) && p < |w.calls| && w.calls[p].phase.Asked?
    requires choice.Proceed? && F.FreshToken(w.flight, choice.token)
    ensures LocksSound(Resumed(c, w, p, choice))
  {
    var call := w.calls[p];
    var w' := Resumed(c, w, p, choice);
    var phase := w'.calls[p].phase;
    TakenLock(c, w.state, call.request, w.now, choice.nearest, choice.token);
    LookupShape(c, w.state, call.request, w.now, choice.nearest, choice.token);
    if TakesLock(call, phase) {
      var move := F.Acquire(phase.l.key.value, c.lockSeconds, choice.token);
      F.NextKeeps(w.flight, move);
      assert w'.flight == F.Next(w.flight, move);
      OthersStaySound(w, w'.flight, p);
    }
  }

  /** The key and context of a lookup are those of its request. */
  predicate IsLookupOf(l: Lookup, r: Request) {
    r.context.Some? && l.context == r.context && l.key == Some(ExactKey(r.query, r.context.value))
  }

  /** A lookup that ends the call or waits has taken no lock. */
  lemma LookupShape(c: Settings, s: State, r: Request, now: int, nearest: Option<Neighbour>, token: string)
    ensures var l := LookedUp(c, s, r, now, nearest, token).1;
      && (l.lock.Some? ==> l.decision == Miss && l.key.Some? && l.context.Some?)
      && (l.decision == AwaitPeer ==> IsLookupOf(l, r))
  {
  }

  lemma EndKeepsLocks(c: Settings, w: World, p: nat, choice: Choice)
    requires LocksSound(w) && p < |w.calls| && w.calls[p].phase.Calling? && choice.Proceed?
    ensures LocksSound(Resumed(c, w, p, choice))
  {
    var call := w.calls[p];
    var l := call.phase.l;
    var w' := Resumed(c, w, p, choice);
    EveryEndReleases(w.state, l, w.now, choice.provider, choice.ttl, choice.admissionRaises);
    if call.holder.Some? {
      F.NextKeeps(w.flight, F.Release(call.holder.value));
      OthersStaySound(w, w'.flight, p);
    }
  }

  lemma WaitKeepsLocks(c: Settings, w: World, p: nat, choice: Choice)
    requires LocksSound(w) && p < |w.calls| && !w.calls[p].phase.Asked?
    requires w.calls[p].phase.Calling? ==> choice.Cancel?
    ensures LocksSound(Resumed(c, w, p, choice))
  {
    var w' := Resumed(c, w, p, choice);
    assert w'.flight == w.flight && w'.state == w.state;
  }

  lemma NextKeepsLocks(c: Settings, w: World, t: Turn)
    requires LocksSound(w)
    ensures LocksSound(Next(c, w, t))
  {
    match t
    case Elapse(elapsed) => F.NextKeeps(w.flight, F.Tick(elapsed));
    case Invalidate(tags, scope) =>
    case Lose(copies, locks) =>
      F.NextKeeps(w.flight, F.Lose(locks));
      forall p | 0 <= p < |w.calls| ensures CallSound(Next(c, w, t).flight, w.calls[p]) {
        SoundStays(w.flight, Next(c, w, t).flight, w.calls[p]);
      }
    case Resume(p, choice) =>
      if p < |w.calls| {
        if w.calls[p].phase.Asked? {
          if choice.Proceed? && F.FreshToken(w.flight, choice.token) {
            AskKeepsLocks(c, w, p, choice);
          }
        } else if w.calls[p].phase.Calling? && choice.Proceed? {
          EndKeepsLocks(c, w, p, choice);
        } else {
          WaitKeepsLocks(c, w, p, choice);
        }
      }
  }

  lemma {:induction false} RunKeepsLocks(c: Settings, w: World, turns: seq<Turn>)
    requires LocksSound(w)
    ensures LocksSound(Run(c, w, turns))
    decreases |turns|
  {
    if turns != [] {
      NextKeepsLocks(c, w, turns[0]);
      RunKeepsLocks(c, Next(c, w, turns[0]), turns[1..]);
    }
  }

  /**
   * In every interleaving, a call that has ended, however it ended short of being cancelled, has left
   * no live lock behind: no unexpired lock carries the token it acquired.
   */
  lemma EveryPathReleasesItsLock(c: Settings, now: int, requests: seq<Request>, turns: seq<Turn>, p: nat, key: Key)
    requires var w := Run(c, Started(now, requests), turns);
      p < |w.calls| && w.calls[p].phase.Ended? && w.calls[p].holder.Some? && !Free(w.state.locks, key, w.now)
    ensures var w := Run(c, Started(now, requests), turns);
      w.calls[p].holder.value < |w.flight.holders|
      && w.state.locks[key].token != w.flight.holders[w.calls[p].holder.value].token
  {
    RunKeepsLocks(c, Started(now, requests), turns);
    var w := Run(c, Started(now, requests), turns);
    var h := w.calls[p].holder.value;
    var i: nat :| F.Owns(w.flight, i, key);
    assert i != h;
    assert i < h ==> w.flight.holders[i].token != w.flight.holders[h].token;
    assert h < i ==> w.flight.holders[h].token != w.flight.holders[i].token;
  }

  /** The lease under which a call asks a provider, if it has one that runs. */
  predicate Leases(w: World, p: nat, key: Key) {
    && p < |w.calls| && w.calls[p].phase.Calling? && w.calls[p].phase.l.lock.Some?
    && w.calls[p].holder.Some? && w.calls[p].holder.value < |w.flight.holders|
    && w.flight.holders[w.calls[p].holder.value].key == key
    && F.Live(w.flight.holders[w.calls[p].holder.value], w.now)
  }

  /** At most one call at a time asks a provider under a running lease of a key, and the stored lock is its own. */
  lemma OneCallAtATime(c: Settings, now: int, requests: seq<Request>, turns: seq<Turn>, key: Key, p: nat, q: nat)
    requires var w := Run(c, Started(now, requests), turns); Leases(w, p, key) && Leases(w, q, key)
    ensures p == q
    ensures var w := Run(c, Started(now, requests), turns);
      w.calls[p].phase.l.key == Some(key) && key in w.state.locks && w.state.locks[key].token == w.calls[p].phase.l.lock.value
  {
    RunKeepsLocks(c, Started(now, requests), turns);
    var w := Run(c, Started(now, requests), turns);
    F.OneOwner(w.flight, w.calls[p].holder.value, w.calls[q].holder.value);
    assert F.Owns(w.flight, w.calls[p].holder.value, key);
    HolderIdentifies(w, p, q);
  }

  lemma HolderIdentifies(w: World, p: nat, q: nat)
    requires LocksSound(w) && p < |w.calls| && q < |w.calls|
    requires w.calls[p].holder.Some? && w.calls[p].holder == w.calls[q].holder
    ensures p == q
  {
  }

  /** From `w` to `w'` call `p` keeps its running lease, and the stored lock of the key is still its own. */
  ghost predicate Spared(w: World, w': World, p: nat, key: Key) {
    && Leases(w', p, key) && key in w.state.locks && key in w'.state.locks
    && w'.state.locks[key] == w.state.locks[key]
  }

  lemma OneEndSparesOthers(c: Settings, w: World, key: Key, p: nat, late: nat, choice: Choice)
    requires LocksSound(w) && Leases(w, p, key) && late != p && late < |w.calls| && w.calls[late].phase.Calling?
    ensures Spared(w, Next(c, w, Resume(late, choice)), p, key)
  {
    var w' := Next(c, w, Resume(late, choice));
    NextKeepsLocks(c, w, Resume(late, choice));
    var h := w.calls[p].holder.value;
    assert F.Owns(w.flight, h, key);
    assert p < late ==> w.calls[p].holder != w.calls[late].holder;
    assert late < p ==> w.calls[late].holder.Some? ==> w.calls[late].holder != w.calls[p].holder;
    assert w'.flight.holders[h] == w.flight.holders[h];
    assert F.Owns(w'.flight, h, key);
  }

  /** The end of one call never takes the lock of another whose lease runs. */
  lemma EndsSpareOthers(c: Settings, now: int, requests: seq<Request>, turns: seq<Turn>, key: Key, p: nat, late: nat, choice: Choice)
    requires var w := Run(c, Started(now, requests), turns);
      Leases(w, p, key) && late != p && late < |w.calls| && w.calls[late].phase.Calling?
    ensures var w := Run(c, Started(now, requests), turns);
      Spared(w, Next(c, w, Resume(late, choice)), p, key)
  {
    RunKeepsLocks(c, Started(now, requests), turns);
    OneEndSparesOthers(c, Run(c, Started(now, requests), turns), key, p, late, choice);
  }

  // ---------------------------------------------------------------- answers

  /** A search for this request ranked that key first, and found it similar enough to answer with. */
  ghost predicate FoundAlike(c: Settings, ops: seq<H.Op>, r: Request, key: Key) {
    c.mode == Semantic && exists j :: 0 <= j < |ops| && AlikeIn(c, ops[j], r, key)
  }

  predicate AlikeIn(c: Settings, op: H.Op, r: Request, key: Key) {
    op.FindOp? && op.r == r && op.nearest.Some? && op.nearest.value.key == key && Similarity(op.nearest.value) >= c.similarity
  }

  /** Somebody had this payload admitted in a compatible context: under the very key of the request, or of a neighbour that was similar enough. */
  ghost predicate Justified(c: Settings, ops: seq<H.Op>, r: Request, payload: Payload) {
    r.context.Some? && exists i :: AdmittedFor(c, ops, r, payload, i)
  }

  ghost predicate AdmittedFor(c: Settings, ops: seq<H.Op>, r: Request, payload: Payload, i: int) {
    var admissions := H.Run(c, ops).admissions;
    && 0 <= i < |admissions| && r.context.Some?
    && admissions[i].payload == payload && Compatible(admissions[i].context, r.context.value)
    && (admissions[i].key == ExactKey(r.query, r.context.value) || FoundAlike(c, ops, r, admissions[i].key))
  }

  /** A call's outcome is justified by the cache's history or is its own provider's. */
  ghost predicate CallAnswered(c: Settings, ops: seq<H.Op>, call: Call) {
    match call.phase
    case Waiting(l) => IsLookupOf(l, call.request) && l.decision == AwaitPeer && Reuses(c.mode)
    case Calling(l) => H.Consistent(l)
    case Ended(FromCache(payload)) => Reuses(c.mode) && Justified(c, ops, call.request, payload)
    case Ended(outcome) => call.provider.Some? && outcome == OutcomeOf(call.provider.value)
    case _ => true
  }

  ghost predicate AnswersSound(c: Settings, w: World) {
    && (forall i :: 0 <= i < |w.ops| ==> H.Genuine(w.ops[i]))
    && H.Run(c, w.ops).state == w.state
    && forall p :: 0 <= p < |w.calls| ==> CallAnswered(c, w.ops, w.calls[p])
  }

  lemma HistoryGrows(c: Settings, ops: seq<H.Op>, op: H.Op)
    ensures H.Run(c, ops + [op]).state == H.Apply(c, H.Run(c, ops).state, op)
    ensures H.Run(c, ops).admissions <= H.Run(c, ops + [op]).admissions
  {
    assert (ops + [op])[..|ops|] == ops;
  }

  lemma AlikeStays(c: Settings, ops: seq<H.Op>, op: H.Op, r: Request, key: Key)
    requires FoundAlike(c, ops, r, key)
    ensures FoundAlike(c, ops + [op], r, key)
  {
    var j :| 0 <= j < |ops| && AlikeIn(c, ops[j], r, key);
    assert (ops + [op])[j] == ops[j];
  }

  lemma JustifiedStays(c: Settings, ops: seq<H.Op>, op: H.Op, r: Request, payload: Payload)
    requires Justified(c, ops, r, payload)
    ensures Justified(c, ops + [op], r, payload)
  {
    var i :| AdmittedFor(c, ops, r, payload, i);
    HistoryGrows(c, ops, op);
    var key := H.Run(c, ops).admissions[i].key;
    if FoundAlike(c, ops, r, key) {
      AlikeStays(c, ops, op, r, key);
    }
    assert H.Run(c, ops + [op]).admissions[i] == H.Run(c, ops).admissions[i];
    assert AdmittedFor(c, ops + [op], r, payload, i);
  }

  lemma AnsweredStays(c: Settings, ops: seq<H.Op>, op: H.Op, call: Call)
    requires CallAnswered(c, ops, call)
    ensures CallAnswered(c, ops + [op], call)
  {
    match call.phase
    case Ended(FromCache(payload)) => JustifiedStays(c, ops, op, call.request, payload);
    case _ =>
  }

  /** One more cache operation, with one call or none changed by it, keeps the answers sound. */
  lemma OperationKeepsAnswers(c: Settings, w: World, op: H.Op, w': World, p: nat)
    requires AnswersSound(c, w) && H.Genuine(op) && w'.ops == w.ops + [op] && w'.state == H.Apply(c, w.state, op)
    requires |w'.calls| == |w.calls| && forall q :: 0 <= q < |w.calls| && q != p ==> w'.calls[q] == w.calls[q]
    requires p < |w.calls| ==> CallAnswered(c, w'.ops, w'.calls[p])
    ensures AnswersSound(c, w')
  {
    HistoryGrows(c, w.ops, op);
    forall q | 0 <= q < |w.calls| && q != p ensures CallAnswered(c, w'.ops, w'.calls[q]) {
      AnsweredStays(c, w.ops, op, w.calls[q]);
    }
  }

  /** The row that a lookup answered with was admitted: its own, or a neighbour's that the search found similar enough. */
  lemma FoundIsJustified(c: Settings, w: World, r: Request, choice: Choice, l: Lookup)
    requires AnswersSound(c, w) && choice.Proceed?
    requires l == LookedUp(c, w.state, r, w.now, choice.nearest, choice.token).1 && l.decision.Hit?
    ensures Reuses(c.mode) && Justified(c, w.ops + [H.FindOp(r, w.now, choice.nearest, choice.token)], r, l.decision.payload)
  {
    var op := H.FindOp(r, w.now, choice.nearest, choice.token);
    HitSource(c, w.state, r, w.now, choice.nearest, choice.token);
    HistoryGrows(c, w.ops, op);
    if l.decision.source == SemanticHit {
      NeighbourIsAdmitted(c, w, r, choice, l);
    } else {
      H.HitsAreJustified(c, w.ops, r, w.now, choice.nearest, choice.token);
      var admissions := H.Run(c, w.ops).admissions;
      var i :| 0 <= i < |admissions| && admissions[i].payload == l.decision.payload
        && Compatible(admissions[i].context, r.context.value) && admissions[i].key == ExactKey(r.query, r.context.value);
      assert AdmittedFor(c, w.ops, r, l.decision.payload, i);
      JustifiedStays(c, w.ops, op, r, l.decision.payload);
    }
  }

  lemma NeighbourIsAdmitted(c: Settings, w: World, r: Request, choice: Choice, l: Lookup)
    requires AnswersSound(c, w) && choice.Proceed?
    requires l == LookedUp(c, w.state, r, w.now, choice.nearest, choice.token).1
    requires l.decision.Hit? && l.decision.source == SemanticHit
    ensures Justified(c, w.ops + [H.FindOp(r, w.now, choice.nearest, choice.token)], r, l.decision.payload)
  {
    var op := H.FindOp(r, w.now, choice.nearest, choice.token);
    var ops := w.ops + [op];
    HitSource(c, w.state, r, w.now, choice.nearest, choice.token);
    H.HitShape(c, w.state, r, w.now, choice.nearest, choice.token);
    var found := choice.nearest.value.key;
    var i := H.RowIsAdmitted(c, w.ops, found);
    HistoryGrows(c, w.ops, op);
    assert ops[|w.ops|] == op && AlikeIn(c, op, r, found);
    assert FoundAlike(c, ops, r, found);
    assert AdmittedFor(c, ops, r, l.decision.payload, i);
  }

  /** Only reusing modes hit, and only the semantic mode hits semantically. */
  lemma HitSource(c: Settings, s: State, r: Request, now: int, nearest: Option<Neighbour>, token: string)
    ensures var d := LookedUp(c, s, r, now, nearest, token).1.decision;
      && (d.Hit? ==> Reuses(c.mode))
      && (d.Hit? && d.source == SemanticHit ==>
            c.mode == Semantic && nearest.Some? && Similarity(nearest.value) >= c.similarity)
      && (d == AwaitPeer ==> Reuses(c.mode))
  {
  }

  lemma AskKeepsAnswers(c: Settings, w: World, p: nat, choice: Choice)
    requires AnswersSound(c, w) && p < |w.calls| && w.calls[p].phase.Asked? && choice.Proceed?
    ensures AnswersSound(c, Resumed(c, w, p, choice))
  {
    var r := w.calls[p].request;
    var w' := Resumed(c, w, p, choice);
    if choice.lookupRaises {
      assert w'.ops == w.ops && w'.state == w.state;
    } else {
      var (s', l) := LookedUp(c, w.state, r, w.now, choice.nearest, choice.token);
      var op := H.FindOp(r, w.now, choice.nearest, choice.token);
      HistoryGrows(c, w.ops, op);
      H.LookupsAreConsistent(c, w.state, r, w.now, choice.nearest, choice.token);
      LookupShape(c, w.state, r, w.now, choice.nearest, choice.token);
      HitSource(c, w.state, r, w.now, choice.nearest, choice.token);
      if l.decision.Hit? {
        FoundIsJustified(c, w, r, choice, l);
      }
      OperationKeepsAnswers(c, w, op, w', p);
    }
  }

  lemma WaitKeepsAnswers(c: Settings, w: World, p: nat, choice: Choice)
    requires AnswersSound(c, w) && p < |w.calls| && w.calls[p].phase.Waiting? && choice.Proceed?
    ensures AnswersSound(c, Resumed(c, w, p, choice))
  {
    var l, r := w.calls[p].phase.l, w.calls[p].request;
    var w' := Resumed(c, w, p, choice);
    assert w'.ops == w.ops && w'.state == w.state;
    if LiveCopy(w.state.copies, l.key.value, w.now).Some? {
      H.PeerHitsAreJustified(c, w.ops, l, w.now);
      var peer := LiveCopy(w.state.copies, l.key.value, w.now).value;
      var admissions := H.Run(c, w.ops).admissions;
      var i :| 0 <= i < |admissions| && admissions[i].payload == peer
        && Compatible(admissions[i].context, l.context.value) && admissions[i].key == l.key.value;
      assert AdmittedFor(c, w.ops, r, peer, i);
    }
  }

  lemma EndKeepsAnswers(c: Settings, w: World, p: nat, choice: Choice)
    requires AnswersSound(c, w) && p < |w.calls| && w.calls[p].phase.Calling? && choice.Proceed?
    ensures AnswersSound(c, Resumed(c, w, p, choice))
  {
    var op := OpsOf(w.calls[p], w.now, choice)[0];
    OperationKeepsAnswers(c, w, op, Resumed(c, w, p, choice), p);
  }

  lemma ResumeKeepsAnswers(c: Settings, w: World, p: nat, choice: Choice)
    requires AnswersSound(c, w) && p < |w.calls|
    ensures AnswersSound(c, Next(c, w, Resume(p, choice)))
  {
    assert w.ops + [] == w.ops;
    if choice.Proceed? && w.calls[p].phase.Asked? {
      AskKeepsAnswers(c, w, p, choice);
    } else if choice.Proceed? && w.calls[p].phase.Waiting? {
      WaitKeepsAnswers(c, w, p, choice);
    } else if choice.Proceed? && w.calls[p].phase.Calling? {
      EndKeepsAnswers(c, w, p, choice);
    }
  }

  lemma NextKeepsAnswers(c: Settings, w: World, t: Turn)
    requires AnswersSound(c, w)
    ensures AnswersSound(c, Next(c, w, t))
  {
    match t
    case Elapse(_) =>
    case Invalidate(tags, scope) => OperationKeepsAnswers(c, w, H.InvalidateOp(tags, scope), Next(c, w, t), |w.calls|);
    case Lose(copies, locks) => OperationKeepsAnswers(c, w, H.Lose(copies, locks), Next(c, w, t), |w.calls|);
    case Resume(p, choice) =>
      if p < |w.calls| {
        ResumeKeepsAnswers(c, w, p, choice);
      }
  }

  lemma {:induction false} RunKeepsAnswers(c: Settings, w: World, turns: seq<Turn>)
    requires AnswersSound(c, w)
    ensures AnswersSound(c, Run(c, w, turns))
    decreases |turns|
  {
    if turns != [] {
      NextKeepsAnswers(c, w, turns[0]);
      RunKeepsAnswers(c, Next(c, w, turns[0]), turns[1..]);
    }
  }

  /**
   * In every interleaving each call that ends returns either its own provider's answer or failure,
   * or a payload that some request with the same scope, intent, versions and authorization had
   * admitted before, under the very key or, in SEMANTIC mode, under one that the search found similar
   * enough for this request; and a disabled or shadow cache never answers.
   */
  lemma EveryAnswerIsJustified(c: Settings, now: int, requests: seq<Request>, turns: seq<Turn>, p: nat)
    requires var w := Run(c, Started(now, requests), turns); p < |w.calls| && w.calls[p].phase.Ended?
    ensures var w := Run(c, Started(now, requests), turns);
      match w.calls[p].phase.outcome
      case FromCache(payload) =>
        Reuses(c.mode) && Justified(c, w.ops, w.calls[p].request, payload)
      case outcome => w.calls[p].provider.Some? && outcome == OutcomeOf(w.calls[p].provider.value)
  {
    RunKeepsAnswers(c, Started(now, requests), turns);
  }

  /** This step of call `p` ends it with an answer from the cache. */
  predicate Takes(c: Settings, w: World, p: nat, choice: Choice) {
    && p < |w.calls| && !w.calls[p].phase.Ended? && p < |Next(c, w, Resume(p, choice)).calls|
    && Next(c, w, Resume(p, choice)).calls[p].phase.Ended? && Next(c, w, Resume(p, choice)).calls[p].phase.outcome.FromCache?
  }

  lemma LookupRefinesTheMap(c: Settings, w: World, p: nat, choice: Choice)
    requires c.mode == Exact && AnswersSound(c, w) && Takes(c, w, p, choice) && w.calls[p].phase.Asked?
    ensures var r := w.calls[p].request;
      && r.context.Some?
      && H.Allowed(H.ModelRun(w.ops), ExactKey(r.query, r.context.value), w.now,
           Some(Next(c, w, Resume(p, choice)).calls[p].phase.outcome.payload))
  {
    var r := w.calls[p].request;
    H.HitShape(c, w.state, r, w.now, choice.nearest, choice.token);
    H.ExactLookupsRefineTheMap(c, w.ops, r, w.now, choice.nearest, choice.token);
  }

  lemma PollRefinesTheMap(c: Settings, w: World, p: nat, choice: Choice)
    requires AnswersSound(c, w) && Takes(c, w, p, choice) && w.calls[p].phase.Waiting?
    ensures var r := w.calls[p].request;
      && r.context.Some?
      && H.Allowed(H.ModelRun(w.ops), ExactKey(r.query, r.context.value), w.now,
           Some(Next(c, w, Resume(p, choice)).calls[p].phase.outcome.payload))
  {
    H.PeerHitsAreJustified(c, w.ops, w.calls[p].phase.l, w.now);
  }

  /**
   * In EXACT mode each answer a call takes from the cache is, at the moment it takes it, one that the
   * one map of payload, tags, expiry and validity may give, whatever is in flight beside it.
   */
  lemma AnswersRefineTheMap(c: Settings, now: int, requests: seq<Request>, turns: seq<Turn>, p: nat, choice: Choice)
    requires c.mode == Exact && Takes(c, Run(c, Started(now, requests), turns), p, choice)
    ensures var w := Run(c, Started(now, requests), turns);
      var r := w.calls[p].request;
      && r.context.Some?
      && H.Allowed(H.ModelRun(w.ops), ExactKey(r.query, r.context.value), w.now,
           Some(Next(c, w, Resume(p, choice)).calls[p].phase.outcome.payload))
  {
    var w := Run(c, Started(now, requests), turns);
    RunKeepsAnswers(c, Started(now, requests), turns);
    if w.calls[p].phase.Asked? {
      LookupRefinesTheMap(c, w, p, choice);
    } else {
      PollRefinesTheMap(c, w, p, choice);
    }
  }

  /** A lookup of an eligible request that goes on without an answer found none that the map had to give. */
  lemma MissesRefineTheMap(c: Settings, now: int, requests: seq<Request>, turns: seq<Turn>, p: nat, choice: Choice)
    requires c.mode == Exact && choice.Proceed? && !choice.lookupRaises
    requires var w := Run(c, Started(now, requests), turns);
      && p < |w.calls| && w.calls[p].phase.Asked?
      && w.calls[p].request.query != "" && w.calls[p].request.eligible && w.calls[p].request.context.Some?
      && (Next(c, w, Resume(p, choice)).calls[p].phase.Waiting? || Next(c, w, Resume(p, choice)).calls[p].phase.Calling?)
    ensures var w := Run(c, Started(now, requests), turns);
      var r := w.calls[p].request;
      H.Allowed(H.ModelRun(w.ops), ExactKey(r.query, r.context.value), w.now, None)
  {
    var w := Run(c, Started(now, requests), turns);
    RunKeepsAnswers(c, Started(now, requests), turns);
    H.ExactLookupsRefineTheMap(c, w.ops, w.calls[p].request, w.now, choice.nearest, choice.token);
  }

  /** In OFF and SHADOW mode a call that ends returns exactly what its provider returned, whatever happens beside it. */
  lemma ShadowIsTransparent(c: Settings, now: int, requests: seq<Request>, turns: seq<Turn>, p: nat)
    requires c.mode == Off || c.mode == Shadow
    requires var w := Run(c, Started(now, requests), turns); p < |w.calls| && w.calls[p].phase.Ended?
    ensures var call := Run(c, Started(now, requests), turns).calls[p];
      call.provider.Some? && call.phase.outcome == OutcomeOf(call.provider.value)
  {
    EveryAnswerIsJustified(c, now, requests, turns, p);
  }
}
