/**
 * Whole runs of the response cache: which answers it can give, why the two tiers behave like one
 * map, and what an invalidation reaches.
 */
module CacheHistory {
  import opened Options
  import opened ResponseCache

  // ---------------------------------------------------------------- runs

  /** One atomic operation with its time; `Lose` is a Redis failure, modelled as losing copies and locks. */
  datatype Op =
    | FindOp(r: Request, now: int, nearest: Option<Neighbour>, token: string)
    | PeekOp(key: Key, now: int)
    | AdmitOp(l: Lookup, response: Response, ttl: nat, now: int)
    | InvalidateOp(tags: seq<string>, scope: Option<string>)
    | AbortOp(l: Lookup, now: int)
    | Lose(keys: set<Key>, locks: set<Key>)

  datatype Admission = Admission(key: Key, context: Context, payload: Payload)

  datatype History = History(state: State, admissions: seq<Admission>)

  predicate Stores(op: Op) {
    && op.AdmitOp? && op.l.key.Some? && op.l.context.Some? && op.l.decision != Bypass && Admissible(op.response)
  }

  function Apply(c: Settings, s: State, op: Op): State {
    match op
    case FindOp(r, now, nearest, token) => LookedUp(c, s, r, now, nearest, token).0
    case PeekOp(_, _) => s
    case AdmitOp(l, response, ttl, now) => AdmittedOrNot(s, l, response, ttl, now)
    case InvalidateOp(tags, scope) => Invalidated(s, tags, scope)
    case AbortOp(l, now) => Aborted(s, l, now)
    case Lose(keys, locks) => s.(copies := s.copies - keys, locks := s.locks - locks)
  }

  const EMPTY := State(map[], map[], map[])

  function Run(c: Settings, ops: seq<Op>): History {
    if ops == [] then History(EMPTY, [])
    else
      Next(c, Run(c, ops[..|ops| - 1]), ops[|ops| - 1])
  }

  function Next(c: Settings, h: History, op: Op): History {
    History(Apply(c, h.state, op),
      h.admissions + if Stores(op) then [Admission(op.l.key.value, op.l.context.value, op.response.payload)] else [])
  }

  /** A lookup's key is the key of its context: what every lookup hands out, and what admissions are given. */
  predicate Consistent(l: Lookup) {
    l.key.Some? && l.context.Some? ==> l.key.value.identity == l.context.value.(tags := [])
  }

  predicate Genuine(op: Op) {
    op.AdmitOp? ==> Consistent(op.l)
  }

  lemma LookupsAreConsistent(c: Settings, s: State, r: Request, now: int, nearest: Option<Neighbour>, token: string)
    ensures Consistent(LookedUp(c, s, r, now, nearest, token).1)
  {
  }

  // ---------------------------------------------------------------- what every operation keeps

  ghost predicate WasAdmitted(admissions: seq<Admission>, key: Key, payload: Payload) {
    exists i :: 0 <= i < |admissions| && admissions[i].key == key && admissions[i].payload == payload
  }

  ghost predicate TagAdmitted(admissions: seq<Admission>, key: Key, tag: string) {
    exists i :: 0 <= i < |admissions| && admissions[i].key == key && tag in admissions[i].context.tags
  }

  /** A Redis copy stands behind a valid row, carries its payload, and outlives it by at most one second. */
  ghost predicate CopyBacked(s: State, key: Key) {
    && key in s.copies && key in s.rows && s.rows[key].valid
    && s.copies[key].payload == s.rows[key].payload
    && s.copies[key].expires <= s.rows[key].expires + 1000
  }

  /** A row stands under its own key, carries an admitted payload, and exactly the tags ever admitted under the key. */
  ghost predicate RowTrue(admissions: seq<Admission>, key: Key, row: Row) {
    && row.context.(tags := []) == key.identity
    && WasAdmitted(admissions, key, row.payload)
    && (forall tag :: tag in row.tags <==> TagAdmitted(admissions, key, tag))
  }

  ghost predicate CopiesBacked(s: State) {
    forall key :: key in s.copies ==> CopyBacked(s, key)
  }

  ghost predicate RowsTrue(admissions: seq<Admission>, rows: map<Key, Row>) {
    forall key :: key in rows ==> RowTrue(admissions, key, rows[key])
  }

  /** Every admission left a row, and was given the key of its context. */
  ghost predicate AdmissionsStand(admissions: seq<Admission>, rows: map<Key, Row>) {
    forall i :: 0 <= i < |admissions| ==>
      admissions[i].key in rows && admissions[i].context.(tags := []) == admissions[i].key.identity
  }

  ghost predicate Inv(h: History) {
    && CopiesBacked(h.state)
    && RowsTrue(h.admissions, h.state.rows)
    && AdmissionsStand(h.admissions, h.state.rows)
  }

  /** The rows differ at most in their hits and their validity. */
  ghost predicate SameContents(rows: map<Key, Row>, changed: map<Key, Row>) {
    changed.Keys == rows.Keys && forall key :: key in rows ==> SameContent(rows[key], changed[key])
  }

  predicate SameContent(row: Row, changed: Row) {
    changed.context == row.context && changed.payload == row.payload && changed.tags == row.tags && changed.expires == row.expires
  }

  lemma RowsStayTrue(admissions: seq<Admission>, rows: map<Key, Row>, changed: map<Key, Row>)
    requires RowsTrue(admissions, rows) && SameContents(rows, changed)
    ensures RowsTrue(admissions, changed)
  {
    forall key | key in changed ensures RowTrue(admissions, key, changed[key]) {
      assert RowTrue(admissions, key, rows[key]) && SameContent(rows[key], changed[key]);
    }
  }

  /** Fewer copies stay backed, as long as a row that has one stays valid. */
  lemma CopiesStayBacked(s: State, s': State)
    requires CopiesBacked(s) && SameContents(s.rows, s'.rows)
    requires forall key :: key in s'.copies ==> key in s.copies && s'.copies[key] == s.copies[key]
    requires forall key :: key in s'.copies && key in s'.rows && s.rows[key].valid ==> s'.rows[key].valid
    ensures CopiesBacked(s')
  {
    forall key | key in s'.copies ensures CopyBacked(s', key) {
      assert CopyBacked(s, key) && SameContent(s.rows[key], s'.rows[key]);
    }
  }

  lemma HitKeepsContents(rows: map<Key, Row>, key: Key)
    requires key in rows
    ensures SameContents(rows, HitRecorded(rows, key))
  {
  }

  lemma HitRecordedKeeps(h: History, key: Key)
    requires Inv(h) && key in h.state.rows
    ensures Inv(h.(state := h.state.(rows := HitRecorded(h.state.rows, key))))
  {
    HitKeepsContents(h.state.rows, key);
    RowsStayTrue(h.admissions, h.state.rows, HitRecorded(h.state.rows, key));
    CopiesStayBacked(h.state, h.state.(rows := HitRecorded(h.state.rows, key)));
  }

  lemma PromoteKeeps(h: History, key: Key, now: int)
    requires Inv(h) && LiveRow(h.state.rows, key, now).Some?
    ensures Inv(h.(state := Promoted(h.state, key, now)))
  {
    var row := h.state.rows[key];
    var h' := h.(state := Promoted(h.state, key, now));
    assert 1000 * ((row.expires - now) / 1000) <= row.expires - now;
    forall k | k in h'.state.copies ensures CopyBacked(h'.state, k) {
      assert k != key ==> CopyBacked(h.state, k);
    }
  }

  function Promoted(s: State, key: Key, now: int): State
    requires key in s.rows
  {
    s.(copies := s.copies[key := Copy(s.rows[key].payload, now + Seconds(TimeLeft(s.rows[key].expires, now)))])
  }

  lemma ExactTierShape(reuse: bool, s: State, key: Key, now: int)
    ensures var s' := ExactTier(reuse, s, key, now).0;
      || s' == s
      || (LiveRow(s.rows, key, now).Some?
          && (s' == Promoted(s, key, now)
              || s' == Promoted(s, key, now).(rows := HitRecorded(s.rows, key))))
  {
  }

  lemma ExactTierKeeps(h: History, reuse: bool, key: Key, now: int)
    requires Inv(h)
    ensures Inv(h.(state := ExactTier(reuse, h.state, key, now).0))
  {
    ExactTierShape(reuse, h.state, key, now);
    if LiveRow(h.state.rows, key, now).Some? {
      PromoteKeeps(h, key, now);
      HitRecordedKeeps(h.(state := Promoted(h.state, key, now)), key);
    }
  }

  lemma SemanticTierKeeps(c: Settings, h: History, context: Context, now: int, nearest: Option<Neighbour>)
    requires Inv(h)
    ensures Inv(h.(state := SemanticTier(c, h.state, context, now, nearest).0))
  {
    SemanticTierShape(c, h.state, context, now, nearest);
    if nearest.Some? && nearest.value.key in h.state.rows {
      HitRecordedKeeps(h, nearest.value.key);
    }
  }

  lemma SemanticTierShape(c: Settings, s: State, context: Context, now: int, nearest: Option<Neighbour>)
    ensures var s' := SemanticTier(c, s, context, now, nearest).0;
      || s' == s
      || (nearest.Some? && nearest.value.key in s.rows && s' == s.(rows := HitRecorded(s.rows, nearest.value.key)))
  {
  }

  lemma LocksDoNotMatter(h: History, locks: map<Key, Lease>)
    requires Inv(h)
    ensures Inv(h.(state := h.state.(locks := locks)))
  {
    CopiesStayBacked(h.state, h.state.(locks := locks));
  }

  lemma LockTierKeeps(c: Settings, h: History, key: Key, now: int, token: string)
    requires Inv(h)
    ensures Inv(h.(state := LockTier(c, h.state, key, now, token).0))
  {
    var s' := LockTier(c, h.state, key, now, token).0;
    assert s' == h.state.(locks := s'.locks);
    LocksDoNotMatter(h, s'.locks);
  }

  /** A lookup ends with what one of its tiers left. */
  lemma FindShape(c: Settings, s: State, r: Request, now: int, nearest: Option<Neighbour>, token: string)
    ensures var s' := LookedUp(c, s, r, now, nearest, token).0;
      s' == s || (r.context.Some? &&
        var key := ExactKey(r.query, r.context.value);
        var s1 := ExactTier(Reuses(c.mode), s, key, now).0;
        var s2 := SemanticTier(c, s1, r.context.value, now, nearest).0;
        s' == s1 || s' == s2 || s' == LockTier(c, s2, key, now, token).0)
  {
  }

  lemma FindKeeps(c: Settings, h: History, r: Request, now: int, nearest: Option<Neighbour>, token: string)
    requires Inv(h)
    ensures Inv(h.(state := LookedUp(c, h.state, r, now, nearest, token).0))
  {
    FindShape(c, h.state, r, now, nearest, token);
    if r.context.Some? {
      var key := ExactKey(r.query, r.context.value);
      var h1 := h.(state := ExactTier(Reuses(c.mode), h.state, key, now).0);
      var h2 := h.(state := SemanticTier(c, h1.state, r.context.value, now, nearest).0);
      ExactTierKeeps(h, Reuses(c.mode), key, now);
      SemanticTierKeeps(c, h1, r.context.value, now, nearest);
      LockTierKeeps(c, h2, key, now, token);
    }
  }

  lemma AdmissionsGrow(admissions: seq<Admission>, a: Admission, key: Key, payload: Payload, tag: string)
    ensures WasAdmitted(admissions + [a], key, payload)
      <==> WasAdmitted(admissions, key, payload) || (a.key == key && a.payload == payload)
    ensures TagAdmitted(admissions + [a], key, tag)
      <==> TagAdmitted(admissions, key, tag) || (a.key == key && tag in a.context.tags)
  {
    var more := admissions + [a];
    assert more[|admissions|] == a;
    if WasAdmitted(admissions, key, payload) {
      var i :| 0 <= i < |admissions| && admissions[i].key == key && admissions[i].payload == payload;
      assert more[i] == admissions[i];
    }
    if TagAdmitted(admissions, key, tag) {
      var i :| 0 <= i < |admissions| && admissions[i].key == key && tag in admissions[i].context.tags;
      assert more[i] == admissions[i];
    }
  }

  lemma OtherRowStaysTrue(admissions: seq<Admission>, a: Admission, key: Key, row: Row)
    requires RowTrue(admissions, key, row) && key != a.key
    ensures RowTrue(admissions + [a], key, row)
  {
    forall tag ensures TagAdmitted(admissions + [a], key, tag) <==> TagAdmitted(admissions, key, tag) {
      AdmissionsGrow(admissions, a, key, row.payload, tag);
    }
    AdmissionsGrow(admissions, a, key, row.payload, "");
  }

  lemma StoredRowIsTrue(h: History, a: Admission, expires: int)
    requires Inv(h) && a.key.identity == a.context.(tags := [])
    ensures RowTrue(h.admissions + [a], a.key, Upserted(h.state.rows, a.key, a.context, a.payload, expires)[a.key])
  {
    var row := Upserted(h.state.rows, a.key, a.context, a.payload, expires)[a.key];
    AdmissionsGrow(h.admissions, a, a.key, a.payload, "");
    forall tag ensures tag in row.tags <==> TagAdmitted(h.admissions + [a], a.key, tag) {
      AdmissionsGrow(h.admissions, a, a.key, a.payload, tag);
      if a.key in h.state.rows {
        assert RowTrue(h.admissions, a.key, h.state.rows[a.key]);
      }
    }
  }

  lemma StoredRowsAreTrue(h: History, a: Admission, ttl: nat, now: int)
    requires Inv(h) && a.key.identity == a.context.(tags := [])
    ensures RowsTrue(h.admissions + [a], Admitted(h.state, a.key, a.context, a.payload, ttl, now).rows)
  {
    var rows := Admitted(h.state, a.key, a.context, a.payload, ttl, now).rows;
    StoredRowIsTrue(h, a, now + 1000 * ttl);
    forall k | k in rows ensures RowTrue(h.admissions + [a], k, rows[k]) {
      if k != a.key {
        OtherRowStaysTrue(h.admissions, a, k, h.state.rows[k]);
      }
    }
  }

  lemma StoredCopiesAreBacked(s: State, a: Admission, ttl: nat, now: int)
    requires CopiesBacked(s)
    ensures CopiesBacked(Admitted(s, a.key, a.context, a.payload, ttl, now))
  {
    var s' := Admitted(s, a.key, a.context, a.payload, ttl, now);
    forall k | k in s'.copies ensures CopyBacked(s', k) {
      assert k != a.key ==> CopyBacked(s, k);
    }
  }

  lemma StoredAdmissionsStand(h: History, a: Admission, ttl: nat, now: int)
    requires Inv(h) && a.key.identity == a.context.(tags := [])
    ensures AdmissionsStand(h.admissions + [a], Admitted(h.state, a.key, a.context, a.payload, ttl, now).rows)
  {
  }

  lemma StoreKeeps(h: History, a: Admission, ttl: nat, now: int)
    requires Inv(h) && a.key.identity == a.context.(tags := [])
    ensures Inv(History(Admitted(h.state, a.key, a.context, a.payload, ttl, now), h.admissions + [a]))
  {
    StoredRowsAreTrue(h, a, ttl, now);
    StoredCopiesAreBacked(h.state, a, ttl, now);
    StoredAdmissionsStand(h, a, ttl, now);
  }

  lemma InvalidationKeepsContents(rows: map<Key, Row>, tags: seq<string>, scope: Option<string>)
    ensures SameContents(rows, RowsInvalidated(rows, tags, scope))
  {
  }

  lemma InvalidateKeeps(h: History, tags: seq<string>, scope: Option<string>)
    requires Inv(h)
    ensures Inv(h.(state := Invalidated(h.state, tags, scope)))
  {
    InvalidationKeepsContents(h.state.rows, tags, scope);
    RowsStayTrue(h.admissions, h.state.rows, RowsInvalidated(h.state.rows, tags, scope));
    CopiesStayBacked(h.state, Invalidated(h.state, tags, scope));
  }

  lemma LoseKeeps(h: History, keys: set<Key>, locks: set<Key>)
    requires Inv(h)
    ensures Inv(h.(state := h.state.(copies := h.state.copies - keys, locks := h.state.locks - locks)))
  {
    CopiesStayBacked(h.state, h.state.(copies := h.state.copies - keys, locks := h.state.locks - locks));
  }

  lemma NextKeeps(c: Settings, h: History, op: Op)
    requires Inv(h) && Genuine(op)
    ensures Inv(Next(c, h, op))
  {
    assert h.admissions + [] == h.admissions;
    match op
    case FindOp(r, now, nearest, token) => FindKeeps(c, h, r, now, nearest, token);
    case PeekOp(_, _) =>
    case AdmitOp(l, response, ttl, now) => AdmitKeeps(h, l, response, ttl, now);
    case InvalidateOp(tags, scope) => InvalidateKeeps(h, tags, scope);
    case AbortOp(l, now) => LocksDoNotMatter(h, Aborted(h.state, l, now).locks);
    case Lose(keys, locks) => LoseKeeps(h, keys, locks);
  }

  lemma {:induction false} RunKeeps(c: Settings, ops: seq<Op>)
    requires forall i :: 0 <= i < |ops| ==> Genuine(ops[i])
    ensures Inv(Run(c, ops))
  {
    if ops != [] {
      var n := |ops| - 1;
      RunKeeps(c, ops[..n]);
      assert Genuine(ops[n]);
      NextKeeps(c, Run(c, ops[..n]), ops[n]);
    }
  }

  lemma AdmitKeeps(h: History, l: Lookup, response: Response, ttl: nat, now: int)
    requires Inv(h) && Consistent(l)
    ensures Inv(History(AdmittedOrNot(h.state, l, response, ttl, now),
      h.admissions + if Stores(AdmitOp(l, response, ttl, now)) then [Admission(l.key.value, l.context.value, response.payload)] else []))
  {
    assert h.admissions + [] == h.admissions;
    if Stores(AdmitOp(l, response, ttl, now)) {
      StoreKeeps(h, Admission(l.key.value, l.context.value, response.payload), ttl, now);
      var stored := Admitted(h.state, l.key.value, l.context.value, response.payload, ttl, now);
      LocksDoNotMatter(
        History(stored, h.admissions + [Admission(l.key.value, l.context.value, response.payload)]),
        Aborted(stored, l, now).locks);
    } else {
      LocksDoNotMatter(h, Aborted(h.state, l, now).locks);
    }
  }

  // ---------------------------------------------------------------- hits are admitted answers

  /** Some request with a compatible context had this payload admitted; unless the hit is semantic, under the very same key. */
  ghost predicate Justified(admissions: seq<Admission>, context: Context, key: Key, source: Source, payload: Payload) {
    exists i :: 0 <= i < |admissions|
      && admissions[i].payload == payload && Compatible(admissions[i].context, context)
      && (source != SemanticHit ==> admissions[i].key == key)
  }

  lemma JustifiedByKey(h: History, found: Key, context: Context, key: Key, source: Source, payload: Payload)
    requires Inv(h) && found in h.state.rows && h.state.rows[found].payload == payload
    requires Compatible(found.identity, context) && (source != SemanticHit ==> found == key)
    ensures Justified(h.admissions, context, key, source, payload)
  {
    assert RowTrue(h.admissions, found, h.state.rows[found]);
    var i :| 0 <= i < |h.admissions| && h.admissions[i].key == found && h.admissions[i].payload == payload;
    assert h.admissions[i].context.(tags := []) == found.identity;
  }

  /** Every row carries a payload admitted under its key, in a context compatible with the row's. */
  lemma RowIsAdmitted(c: Settings, ops: seq<Op>, key: Key) returns (i: nat)
    requires forall k :: 0 <= k < |ops| ==> Genuine(ops[k])
    requires key in Run(c, ops).state.rows
    ensures var h := Run(c, ops);
      && i < |h.admissions| && h.admissions[i].key == key && h.admissions[i].payload == h.state.rows[key].payload
      && forall context :: Compatible(h.state.rows[key].context, context) ==> Compatible(h.admissions[i].context, context)
  {
    var h := Run(c, ops);
    RunKeeps(c, ops);
    assert RowTrue(h.admissions, key, h.state.rows[key]);
    i :| 0 <= i < |h.admissions| && h.admissions[i].key == key && h.admissions[i].payload == h.state.rows[key].payload;
    assert h.admissions[i].context.(tags := []) == key.identity == h.state.rows[key].context.(tags := []);
  }

  /** Where a hit's payload stands. */
  lemma HitShape(c: Settings, s: State, r: Request, now: int, nearest: Option<Neighbour>, token: string)
    requires LookedUp(c, s, r, now, nearest, token).1.decision.Hit?
    ensures r.context.Some?
    ensures var key := ExactKey(r.query, r.context.value);
      var d := LookedUp(c, s, r, now, nearest, token).1.decision;
      match d.source
      case RedisHit => key in s.copies && s.copies[key].payload == d.payload
      case PostgresHit => key in s.rows && s.rows[key].payload == d.payload
      case SemanticHit =>
        nearest.Some? && nearest.value.key in s.rows && s.rows[nearest.value.key].payload == d.payload
        && Compatible(s.rows[nearest.value.key].context, r.context.value)
      case PeerHit => false
  {
  }

  /** Every hit, at any point of any run, answers with a payload admitted for the same scope, intent, versions and authorization. */
  lemma HitsAreJustified(
    c: Settings, ops: seq<Op>, r: Request, now: int, nearest: Option<Neighbour>, token: string)
    requires forall i :: 0 <= i < |ops| ==> Genuine(ops[i])
    requires LookedUp(c, Run(c, ops).state, r, now, nearest, token).1.decision.Hit?
    ensures r.context.Some?
    ensures var d := LookedUp(c, Run(c, ops).state, r, now, nearest, token).1.decision;
      Justified(Run(c, ops).admissions, r.context.value, ExactKey(r.query, r.context.value), d.source, d.payload)
  {
    RunKeeps(c, ops);
    HitShape(c, Run(c, ops).state, r, now, nearest, token);
    var d := LookedUp(c, Run(c, ops).state, r, now, nearest, token).1.decision;
    StoredHitIsJustified(Run(c, ops), ExactKey(r.query, r.context.value), r.context.value, nearest, d.source, d.payload);
  }

  lemma StoredHitIsJustified(
    h: History, key: Key, context: Context, nearest: Option<Neighbour>, source: Source, payload: Payload)
    requires Inv(h) && key.identity == context.(tags := [])
    requires match source
      case RedisHit => key in h.state.copies && h.state.copies[key].payload == payload
      case PostgresHit => key in h.state.rows && h.state.rows[key].payload == payload
      case SemanticHit =>
        nearest.Some? && nearest.value.key in h.state.rows && h.state.rows[nearest.value.key].payload == payload
        && Compatible(h.state.rows[nearest.value.key].context, context)
      case PeerHit => false
    ensures Justified(h.admissions, context, key, source, payload)
  {
    if source == SemanticHit {
      var found := nearest.value.key;
      assert RowTrue(h.admissions, found, h.state.rows[found]);
      assert h.state.rows[found].context.(tags := []) == found.identity;
      JustifiedByKey(h, found, context, key, SemanticHit, payload);
    } else {
      assert source == RedisHit ==> CopyBacked(h.state, key);
      JustifiedByKey(h, key, context, key, source, payload);
    }
  }

  /** So is an answer polled for while another request held the lock, and the one map allows it. */
  lemma PeerHitsAreJustified(c: Settings, ops: seq<Op>, l: Lookup, now: int)
    requires forall i :: 0 <= i < |ops| ==> Genuine(ops[i])
    requires l.decision == AwaitPeer && l.key.Some? && l.context.Some? && Consistent(l)
    requires LiveCopy(Run(c, ops).state.copies, l.key.value, now).Some?
    ensures var peer := LiveCopy(Run(c, ops).state.copies, l.key.value, now);
      && Awaited(l, peer).decision == Hit(PeerHit, peer.value)
      && Justified(Run(c, ops).admissions, l.context.value, l.key.value, PeerHit, peer.value)
      && Allowed(ModelRun(ops), l.key.value, now, peer)
  {
    var h := Run(c, ops);
    RunKeeps(c, ops);
    assert CopyBacked(h.state, l.key.value);
    JustifiedByKey(h, l.key.value, l.context.value, l.key.value, PeerHit, h.state.copies[l.key.value].payload);
    RunRefines(c, ops);
  }

  // ---------------------------------------------------------------- two tiers refine one map

  datatype Entry = Entry(payload: Payload, tags: set<string>, expires: int, valid: bool)

  type Model = map<Key, Entry>

  function ModelStep(m: Model, op: Op): Model {
    match op
    case AdmitOp(l, response, ttl, now) =>
      if !Stores(op) then m
      else
        var key := l.key.value;
        var tags := set t | t in l.context.value.tags;
        m[key := Entry(response.payload, if key in m then m[key].tags + tags else tags, now + 1000 * ttl, true)]
    case InvalidateOp(tags, scope) =>
      map key | key in m ::
        if m[key].valid && (scope.Some? ==> key.identity.creatorScope == scope.value)
           && exists i :: 0 <= i < |tags| && tags[i] in m[key].tags
        then m[key].(valid := false) else m[key]
    case _ => m
  }

  function ModelRun(ops: seq<Op>): Model {
    if ops == [] then map[] else ModelStep(ModelRun(ops[..|ops| - 1]), ops[|ops| - 1])
  }

  /** What one map may answer: a live entry must be returned, one invalid or over a second past its expiry must not. */
  predicate Allowed(m: Model, key: Key, now: int, answer: Option<Payload>) {
    match answer
    case Some(payload) => key in m && m[key].valid && m[key].payload == payload && now < m[key].expires + 1000
    case None => !(key in m && m[key].valid && now < m[key].expires)
  }

  function Abstract(s: State): Model {
    map key | key in s.rows :: Entry(s.rows[key].payload, s.rows[key].tags, s.rows[key].expires, s.rows[key].valid)
  }

  lemma HitLeavesModel(s: State, key: Key)
    requires key in s.rows
    ensures Abstract(s.(rows := HitRecorded(s.rows, key))) == Abstract(s)
  {
  }

  lemma ExactTierLeavesModel(reuse: bool, s: State, key: Key, now: int)
    ensures Abstract(ExactTier(reuse, s, key, now).0) == Abstract(s)
  {
    ExactTierShape(reuse, s, key, now);
    if key in s.rows {
      HitLeavesModel(s, key);
    }
  }

  lemma SemanticTierLeavesModel(c: Settings, s: State, context: Context, now: int, nearest: Option<Neighbour>)
    ensures Abstract(SemanticTier(c, s, context, now, nearest).0) == Abstract(s)
  {
    SemanticTierShape(c, s, context, now, nearest);
    if nearest.Some? && nearest.value.key in s.rows {
      HitLeavesModel(s, nearest.value.key);
    }
  }

  lemma FindLeavesModel(c: Settings, s: State, r: Request, now: int, nearest: Option<Neighbour>, token: string)
    ensures Abstract(LookedUp(c, s, r, now, nearest, token).0) == Abstract(s)
  {
    FindShape(c, s, r, now, nearest, token);
    if r.context.Some? {
      var s1 := ExactTier(Reuses(c.mode), s, ExactKey(r.query, r.context.value), now).0;
      ExactTierLeavesModel(Reuses(c.mode), s, ExactKey(r.query, r.context.value), now);
      SemanticTierLeavesModel(c, s1, r.context.value, now, nearest);
    }
  }

  lemma StoreRefines(s: State, key: Key, context: Context, payload: Payload, ttl: nat, now: int)
    ensures var tags := set t | t in context.tags;
      Abstract(Admitted(s, key, context, payload, ttl, now)) ==
        Abstract(s)[key := Entry(payload, if key in s.rows then s.rows[key].tags + tags else tags, now + 1000 * ttl, true)]
  {
    assert Abstract(Admitted(s, key, context, payload, ttl, now)).Keys == Abstract(s).Keys + {key};
  }

  lemma AdmitRefines(s: State, l: Lookup, response: Response, ttl: nat, now: int)
    ensures Abstract(AdmittedOrNot(s, l, response, ttl, now)) == ModelStep(Abstract(s), AdmitOp(l, response, ttl, now))
  {
    if Stores(AdmitOp(l, response, ttl, now)) {
      StoreRefines(s, l.key.value, l.context.value, response.payload, ttl, now);
    }
  }

  lemma InvalidateRefines(s: State, tags: seq<string>, scope: Option<string>)
    requires forall key :: key in s.rows ==> s.rows[key].context.creatorScope == key.identity.creatorScope
    ensures Abstract(Invalidated(s, tags, scope)) == ModelStep(Abstract(s), InvalidateOp(tags, scope))
  {
    var m' := ModelStep(Abstract(s), InvalidateOp(tags, scope));
    assert Abstract(Invalidated(s, tags, scope)).Keys == m'.Keys;
    forall key | key in s.rows ensures Abstract(Invalidated(s, tags, scope))[key] == m'[key] {
      InvalidateRefinesAt(s, tags, scope, key);
    }
  }

  lemma InvalidateRefinesAt(s: State, tags: seq<string>, scope: Option<string>, key: Key)
    requires key in s.rows && s.rows[key].context.creatorScope == key.identity.creatorScope
    ensures Abstract(Invalidated(s, tags, scope))[key] == ModelStep(Abstract(s), InvalidateOp(tags, scope))[key]
  {
    assert Abstract(s)[key].tags == s.rows[key].tags && Abstract(s)[key].valid == s.rows[key].valid;
  }

  lemma RowScope(h: History, key: Key)
    requires Inv(h) && key in h.state.rows
    ensures h.state.rows[key].context.creatorScope == key.identity.creatorScope
  {
    assert RowTrue(h.admissions, key, h.state.rows[key]);
    assert h.state.rows[key].context.(tags := []).creatorScope == h.state.rows[key].context.creatorScope;
  }

  lemma StepRefines(c: Settings, h: History, op: Op)
    requires Inv(h) && Genuine(op)
    ensures Abstract(Apply(c, h.state, op)) == ModelStep(Abstract(h.state), op)
  {
    match op
    case FindOp(r, now, nearest, token) => FindLeavesModel(c, h.state, r, now, nearest, token);
    case AdmitOp(l, response, ttl, now) => AdmitRefines(h.state, l, response, ttl, now);
    case InvalidateOp(tags, scope) =>
      forall key | key in h.state.rows ensures h.state.rows[key].context.creatorScope == key.identity.creatorScope {
        RowScope(h, key);
      }
      InvalidateRefines(h.state, tags, scope);
    case _ =>
  }

  /** After any run the rows are the map that the admissions and invalidations alone produce. */
  lemma {:induction false} RunRefines(c: Settings, ops: seq<Op>)
    requires forall i :: 0 <= i < |ops| ==> Genuine(ops[i])
    ensures Abstract(Run(c, ops).state) == ModelRun(ops)
  {
    if ops != [] {
      var n := |ops| - 1;
      RunKeeps(c, ops[..n]);
      RunRefines(c, ops[..n]);
      assert Genuine(ops[n]);
      StepRefines(c, Run(c, ops[..n]), ops[n]);
    }
  }

  function AnswerOf(l: Lookup): Option<Payload> {
    match l.decision case Hit(_, payload) => Some(payload) case _ => None
  }

  /** In EXACT mode only the exact tiers can answer. */
  lemma ExactModeAnswers(c: Settings, s: State, r: Request, now: int, nearest: Option<Neighbour>, token: string)
    requires c.mode == Exact && r.query != "" && r.eligible && r.context.Some?
    ensures AnswerOf(LookedUp(c, s, r, now, nearest, token).1) ==
      match ExactTier(true, s, ExactKey(r.query, r.context.value), now).1
      case Some(Hit(_, payload)) => Some(payload)
      case _ => None
  {
  }

  lemma TierIsAllowed(h: History, key: Key, now: int)
    requires Inv(h)
    ensures Allowed(Abstract(h.state), key, now,
      match ExactTier(true, h.state, key, now).1 case Some(Hit(_, payload)) => Some(payload) case _ => None)
  {
    assert key in h.state.copies ==> CopyBacked(h.state, key);
    assert key in h.state.rows ==> Abstract(h.state)[key].valid == h.state.rows[key].valid;
  }

  /** In EXACT mode every lookup, after any run, answers as that one map may. */
  lemma ExactLookupsRefineTheMap(
    c: Settings, ops: seq<Op>, r: Request, now: int, nearest: Option<Neighbour>, token: string)
    requires forall i :: 0 <= i < |ops| ==> Genuine(ops[i])
    requires c.mode == Exact && r.query != "" && r.eligible && r.context.Some?
    ensures Allowed(ModelRun(ops), ExactKey(r.query, r.context.value), now,
      AnswerOf(LookedUp(c, Run(c, ops).state, r, now, nearest, token).1))
  {
    RunKeeps(c, ops);
    RunRefines(c, ops);
    ExactModeAnswers(c, Run(c, ops).state, r, now, nearest, token);
    TierIsAllowed(Run(c, ops), ExactKey(r.query, r.context.value), now);
  }

  /** A promoted copy outlives its row exactly when less than a second was left, an admitted one exactly when the lifetime was no whole second. */
  lemma GraceExactly(s: State, key: Key, context: Context, payload: Payload, ttl: nat, now: int)
    ensures LiveRow(s.rows, key, now).Some? ==>
      (Promoted(s, key, now).copies[key].expires > s.rows[key].expires <==> s.rows[key].expires - now < 1000)
    ensures var s' := Admitted(s, key, context, payload, ttl, now);
      s'.copies[key].expires > s'.rows[key].expires <==> ttl < 1
  {
    if LiveRow(s.rows, key, now).Some? {
      var left := s.rows[key].expires - now;
      assert 1000 * (left / 1000) <= left;
    }
  }

  /**
   * A lookup that finds the row and no copy leaves a copy behind; a later lookup at or after the
   * row's expiry is still answered exactly when less than a second was left, and within a second of the first.
   */
  lemma AnsweredAfterExpiry(c: Settings, s: State, context: Context, query: string, now: int, later: int)
    requires c.mode == Exact && query != ""
    requires var key := ExactKey(query, context);
      LiveRow(s.rows, key, now).Some? && LiveCopy(s.copies, key, now) == None && s.rows[key].expires <= later
    ensures var key := ExactKey(query, context);
      var r := Request(query, true, Some(context));
      var s' := LookedUp(c, s, r, now, None, "").0;
      AnswerOf(LookedUp(c, s', r, later, None, "").1) ==
        if s.rows[key].expires - now < 1000 && later < now + 1000 then Some(s.rows[key].payload) else None
  {
    var key := ExactKey(query, context);
    var r := Request(query, true, Some(context));
    var s' := LookedUp(c, s, r, now, None, "").0;
    GraceExactly(s, key, context, "", 0, now);
    assert s' == Promoted(s, key, now).(rows := HitRecorded(s.rows, key));
    ExactModeAnswers(c, s', r, later, None, "");
  }

  // ---------------------------------------------------------------- invalidation

  /** Gone from both tiers. */
  predicate Gone(s: State, key: Key) {
    key !in s.copies && (key in s.rows ==> !s.rows[key].valid)
  }

  /**
   * Invalidating by any tag under which the key was ever admitted, in any conversation, removes the
   * entry from both tiers; an invalidation narrowed to a creator does so for that creator's keys.
   */
  lemma InvalidationReachesEveryTag(c: Settings, ops: seq<Op>, key: Key, tag: string, tags: seq<string>, scope: Option<string>)
    requires forall i :: 0 <= i < |ops| ==> Genuine(ops[i])
    requires TagAdmitted(Run(c, ops).admissions, key, tag) && tag in tags
    requires scope.Some? ==> scope.value == key.identity.creatorScope
    ensures Gone(Invalidated(Run(c, ops).state, tags, scope), key)
  {
    var h := Run(c, ops);
    RunKeeps(c, ops);
    var i :| 0 <= i < |h.admissions| && h.admissions[i].key == key && tag in h.admissions[i].context.tags;
    assert RowTrue(h.admissions, key, h.state.rows[key]);
    assert key in h.state.copies ==> CopyBacked(h.state, key);
    var j :| 0 <= j < |tags| && tags[j] == tag;
    assert tags[j] in h.state.rows[key].tags;
  }

  lemma FindKeepsGone(c: Settings, s: State, r: Request, now: int, nearest: Option<Neighbour>, token: string, key: Key)
    requires Gone(s, key)
    ensures Gone(LookedUp(c, s, r, now, nearest, token).0, key)
  {
    if !(c.mode == Off || r.query == "" || !r.eligible || r.context == None) {
      var asked := ExactKey(r.query, r.context.value);
      var (s1, exact) := ExactTier(Reuses(c.mode), s, asked, now);
      assert Gone(s1, key);
      var (s2, semantic) := SemanticTier(c, s1, r.context.value, now, nearest);
      assert Gone(s2, key);
    }
  }

  lemma GoneThroughOne(c: Settings, s: State, op: Op, key: Key)
    requires Gone(s, key)
    requires op.AdmitOp? ==> op.l.key != Some(key)
    ensures Gone(Apply(c, s, op), key)
  {
    match op
    case FindOp(r, now, nearest, token) => FindKeepsGone(c, s, r, now, nearest, token, key);
    case AdmitOp(l, response, ttl, now) => assert l.key.Some? ==> l.key.value != key;
    case _ =>
  }

  /** What is gone stays gone through every further run without an admission under its own key. */
  lemma {:induction false} GoneStaysGone(c: Settings, ops: seq<Op>, later: seq<Op>, key: Key)
    requires Gone(Run(c, ops).state, key)
    requires forall i :: 0 <= i < |later| && later[i].AdmitOp? ==> later[i].l.key != Some(key)
    ensures Gone(Run(c, ops + later).state, key)
    decreases |later|
  {
    if later == [] {
      assert ops + later == ops;
    } else {
      var n := |later| - 1;
      GoneStaysGone(c, ops, later[..n], key);
      var whole := ops + later;
      assert whole[..|whole| - 1] == ops + later[..n] && whole[|whole| - 1] == later[n];
      GoneThroughOne(c, Run(c, ops + later[..n]).state, later[n], key);
    }
  }

  /** An entry outside the tags or the scope of an invalidation is left as it was in both tiers. */
  lemma InvalidationIsPrecise(s: State, key: Key, tags: seq<string>, scope: Option<string>)
    requires key in s.rows && !Tagged(s.rows[key], tags, scope)
    ensures var s' := Invalidated(s, tags, scope);
      && s'.rows[key] == s.rows[key]
      && (key in s'.copies <==> key in s.copies) && (key in s.copies ==> s'.copies[key] == s.copies[key])
  {
  }
}
