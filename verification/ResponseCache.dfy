/**
 * The two-tier response cache: Redis copies in front of durable rows, one key per query and
 * context, tags that only drive invalidation, and a token lock for single flight. Times are in
 * milliseconds; the hash of a key is modelled as injective, so the key is its own preimage.
 */
module ResponseCache {
  import opened Options

  type Payload = string

  // ---------------------------------------------------------------- keys

  datatype Context = Context(
    creatorScope: string, universeScope: Option<string>, intent: string, sensitivity: string,
    contextHash: string, contextVersion: Option<string>, knowledgeVersion: Option<string>,
    retrievalFingerprint: Option<string>, generationProfileHash: string, policyVersion: string,
    authorizationFingerprint: string, toolStateClass: string, tags: seq<string>)

  /** Tags are not part of an entry's identity. */
  datatype Key = Key(query: string, identity: Context)

  function ExactKey(query: string, context: Context): Key {
    Key(query, context.(tags := []))
  }

  /** The columns a semantic candidate must share with the context of the request. */
  predicate Compatible(a: Context, b: Context) {
    && a.creatorScope == b.creatorScope && a.universeScope == b.universeScope && a.intent == b.intent
    && a.contextHash == b.contextHash && a.contextVersion == b.contextVersion
    && a.knowledgeVersion == b.knowledgeVersion && a.retrievalFingerprint == b.retrievalFingerprint
    && a.generationProfileHash == b.generationProfileHash && a.policyVersion == b.policyVersion
    && a.authorizationFingerprint == b.authorizationFingerprint && a.toolStateClass == b.toolStateClass
  }

  /** Requests share a key exactly when they ask the same in the same context, whatever their tags. */
  lemma SameKeyMeansSameIdentity(q: string, a: Context, r: string, b: Context)
    ensures ExactKey(q, a) == ExactKey(r, b)
      <==> q == r && Compatible(a, b) && a.sensitivity == b.sensitivity
  {
    if q == r && Compatible(a, b) && a.sensitivity == b.sensitivity {
      assert a.(tags := []) == b.(tags := []);
    }
  }

  // ---------------------------------------------------------------- the two tiers

  datatype Copy = Copy(payload: Payload, expires: int)

  datatype Row = Row(context: Context, payload: Payload, tags: set<string>, expires: int, valid: bool, hits: nat)

  datatype Lease = Lease(token: string, expires: int)

  datatype State = State(copies: map<Key, Copy>, rows: map<Key, Row>, locks: map<Key, Lease>)

  function Seconds(ttl: int): int {
    1000 * if ttl < 1 then 1 else ttl
  }

  function LiveCopy(copies: map<Key, Copy>, key: Key, now: int): Option<Payload> {
    if key in copies && now < copies[key].expires then Some(copies[key].payload) else None
  }

  function LiveRow(rows: map<Key, Row>, key: Key, now: int): Option<Row> {
    if key in rows && rows[key].valid && now < rows[key].expires then Some(rows[key]) else None
  }

  class RedisCacheStore {
    var copies: map<Key, Copy>
    var locks: map<Key, Lease>

    constructor ()
      ensures copies == map[] && locks == map[]
    {
      copies, locks := map[], map[];
    }

    method GetExact(key: Key, now: int) returns (payload: Option<Payload>)
      ensures payload == LiveCopy(copies, key, now)
    {
      payload := if key in copies && now < copies[key].expires then Some(copies[key].payload) else None;
    }

    method SetExact(key: Key, payload: Payload, ttl: int, now: int)
      modifies this`copies
      ensures copies == old(copies)[key := Copy(payload, now + Seconds(ttl))]
    {
      copies := copies[key := Copy(payload, now + Seconds(ttl))];
    }

    method DeleteExact(keys: set<Key>)
      modifies this`copies
      ensures copies == old(copies) - keys
    {
      copies := copies - keys;
    }

    method AcquireLock(key: Key, ttl: int, token: string, now: int) returns (acquired: bool)
      modifies this`locks
      ensures acquired <==> Free(old(locks), key, now)
      ensures locks == if acquired then Acquired(old(locks), key, ttl, token, now) else old(locks)
    {
      acquired := key !in locks || locks[key].expires <= now;
      if acquired {
        locks := locks[key := Lease(token, now + Seconds(ttl))];
      }
    }

    /** Compare and delete, as one script. */
    method ReleaseLock(key: Key, token: string, now: int)
      modifies this`locks
      ensures locks == Released(old(locks), key, token, now)
    {
      if key in locks && now < locks[key].expires && locks[key].token == token {
        locks := locks - {key};
      }
    }
  }

  predicate Free(locks: map<Key, Lease>, key: Key, now: int) {
    !(key in locks && now < locks[key].expires)
  }

  function Acquired(locks: map<Key, Lease>, key: Key, ttl: int, token: string, now: int): map<Key, Lease> {
    locks[key := Lease(token, now + Seconds(ttl))]
  }

  function Released(locks: map<Key, Lease>, key: Key, token: string, now: int): map<Key, Lease> {
    if key in locks && now < locks[key].expires && locks[key].token == token then locks - {key} else locks
  }

  function Upserted(rows: map<Key, Row>, key: Key, context: Context, payload: Payload, expires: int): map<Key, Row> {
    var tags := set t | t in context.tags;
    rows[key :=
      if key in rows then Row(context, payload, rows[key].tags + tags, expires, true, rows[key].hits)
      else Row(context, payload, tags, expires, true, 0)]
  }

  predicate Tagged(row: Row, tags: seq<string>, scope: Option<string>) {
    && row.valid
    && (scope.Some? ==> row.context.creatorScope == scope.value)
    && exists i :: 0 <= i < |tags| && tags[i] in row.tags
  }

  function KeysTagged(rows: map<Key, Row>, tags: seq<string>, scope: Option<string>): set<Key> {
    set key | key in rows && Tagged(rows[key], tags, scope)
  }

  function RowsInvalidated(rows: map<Key, Row>, tags: seq<string>, scope: Option<string>): map<Key, Row> {
    map key | key in rows :: if Tagged(rows[key], tags, scope) then rows[key].(valid := false) else rows[key]
  }

  class CacheRepository {
    var rows: map<Key, Row>

    constructor ()
      ensures rows == map[]
    {
      rows := map[];
    }

    method Exact(key: Key, now: int) returns (row: Option<Row>)
      ensures row == LiveRow(rows, key, now)
    {
      row := if key in rows && rows[key].valid && now < rows[key].expires then Some(rows[key]) else None;
    }

    method Upsert(key: Key, context: Context, payload: Payload, expires: int)
      modifies this
      ensures rows == Upserted(old(rows), key, context, payload, expires)
    {
      var tags := set t | t in context.tags;
      if key in rows {
        // Earlier tags stay: invalidating by any of them has to find the entry.
        rows := rows[key := Row(context, payload, rows[key].tags + tags, expires, true, rows[key].hits)];
      } else {
        rows := rows[key := Row(context, payload, tags, expires, true, 0)];
      }
    }

    method RecordHit(key: Key)
      requires key in rows
      modifies this
      ensures rows == old(rows)[key := old(rows)[key].(hits := old(rows)[key].hits + 1)]
    {
      rows := rows[key := rows[key].(hits := rows[key].hits + 1)];
    }

    method InvalidateTags(tags: seq<string>, scope: Option<string>) returns (keys: set<Key>)
      modifies this
      ensures keys == KeysTagged(old(rows), tags, scope)
      ensures rows == RowsInvalidated(old(rows), tags, scope)
    {
      if tags == [] {
        assert RowsInvalidated(rows, tags, scope) == rows;
        return {};
      }
      keys := set key | key in rows && Tagged(rows[key], tags, scope);
      var pending := keys;
      while pending != {}
        invariant pending <= keys == KeysTagged(old(rows), tags, scope)
        invariant rows.Keys == old(rows).Keys
        invariant forall key :: key in rows ==>
          rows[key] == if key in keys - pending then old(rows)[key].(valid := false) else old(rows)[key]
        decreases pending
      {
        var key :| key in pending;
        rows := rows[key := rows[key].(valid := false)];
        pending := pending - {key};
      }
      assert rows == RowsInvalidated(old(rows), tags, scope);
    }
  }

  // ---------------------------------------------------------------- lookup

  datatype Mode = Off | Shadow | Exact | Semantic

  datatype Settings = Settings(mode: Mode, embeds: bool, similarity: real, revalidate: real, lockSeconds: int)

  predicate Reuses(mode: Mode) {
    mode == Exact || mode == Semantic
  }

  /** What the request gives the cache; an empty query stands for none. */
  datatype Request = Request(query: string, eligible: bool, context: Option<Context>)

  datatype Source = RedisHit | PostgresHit | SemanticHit | PeerHit

  datatype Decision = Bypass | Hit(source: Source, payload: Payload) | Revalidate | AwaitPeer | Miss

  datatype Lookup = Lookup(decision: Decision, key: Option<Key>, context: Option<Context>, lock: Option<string>)

  /** The row the vector search ranks first, with its distance from the query. */
  datatype Neighbour = Neighbour(key: Key, distance: real)

  /** One minus the distance, kept within plus and minus one. */
  function Similarity(n: Neighbour): real {
    if 1.0 - n.distance > 1.0 then 1.0 else if 1.0 - n.distance < -1.0 then -1.0 else 1.0 - n.distance
  }

  /** The search returns live rows of the same context columns only. */
  predicate IsCandidate(rows: map<Key, Row>, context: Context, now: int, n: Neighbour) {
    LiveRow(rows, n.key, now).Some? && Compatible(rows[n.key].context, context)
  }

  function Bypassed(): Lookup {
    Lookup(Bypass, None, None, None)
  }

  function TimeLeft(expires: int, now: int): int {
    if expires <= now then 0 else (expires - now) / 1000
  }

  function HitRecorded(rows: map<Key, Row>, key: Key): map<Key, Row>
    requires key in rows
  {
    rows[key := rows[key].(hits := rows[key].hits + 1)]
  }

  /** The exact tiers: a live row is copied to Redis in every mode, but only reusing modes answer from either. */
  function ExactTier(reuse: bool, s: State, key: Key, now: int): (State, Option<Decision>) {
    if reuse && LiveCopy(s.copies, key, now).Some? then
      (s, Some(Hit(RedisHit, LiveCopy(s.copies, key, now).value)))
    else match LiveRow(s.rows, key, now)
      case None => (s, None)
      case Some(row) =>
        var s1 := s.(copies := s.copies[key := Copy(row.payload, now + Seconds(TimeLeft(row.expires, now)))]);
        if reuse then (s1.(rows := HitRecorded(s1.rows, key)), Some(Hit(PostgresHit, row.payload))) else (s1, None)
  }

  function SemanticTier(c: Settings, s: State, context: Context, now: int, nearest: Option<Neighbour>): (State, Option<Decision>) {
    if !(c.mode == Shadow || c.mode == Semantic) || !c.embeds || nearest == None
       || !IsCandidate(s.rows, context, now, nearest.value) then (s, None)
    else
      var n := nearest.value;
      if Similarity(n) >= c.similarity then
        if c.mode == Semantic then
          (s.(rows := HitRecorded(s.rows, n.key)), Some(Hit(SemanticHit, s.rows[n.key].payload)))
        else (s, Some(Revalidate))
      else if Similarity(n) >= c.revalidate then (s, Some(Revalidate))
      else (s, None)
  }

  function LockTier(c: Settings, s: State, key: Key, now: int, token: string): (State, Decision, Option<string>) {
    if !Reuses(c.mode) then (s, Miss, None)
    else if !Free(s.locks, key, now) then (s, AwaitPeer, None)
    else (s.(locks := Acquired(s.locks, key, c.lockSeconds, token, now)), Miss, Some(token))
  }

  /** One lookup, at one time; `AwaitPeer` means that another request holds the lock and its answer is polled for. */
  function LookedUp(c: Settings, s: State, r: Request, now: int, nearest: Option<Neighbour>, token: string): (State, Lookup) {
    if c.mode == Off || r.query == "" || !r.eligible || r.context == None then (s, Bypassed())
    else
      var context := r.context.value;
      var key := ExactKey(r.query, context);
      var (s1, exact) := ExactTier(Reuses(c.mode), s, key, now);
      if exact.Some? then (s1, Lookup(exact.value, Some(key), Some(context), None))
      else
        var (s2, semantic) := SemanticTier(c, s1, context, now, nearest);
        if semantic.Some? then (s2, Lookup(semantic.value, Some(key), Some(context), None))
        else
          var (s3, decision, lock) := LockTier(c, s2, key, now, token);
          (s3, Lookup(decision, Some(key), Some(context), lock))
  }

  /** A similarity lies between minus one and one, and is one minus the distance wherever that does. */
  lemma SimilarityIsBounded(n: Neighbour)
    ensures -1.0 <= Similarity(n) <= 1.0
    ensures -1.0 <= 1.0 - n.distance <= 1.0 ==> Similarity(n) == 1.0 - n.distance
    ensures n.distance <= 0.0 ==> Similarity(n) == 1.0
  {
  }

  // ---------------------------------------------------------------- what a lookup decides

  predicate Cached(s: State, key: Key, now: int) {
    key in s.copies && now < s.copies[key].expires
  }

  predicate Standing(s: State, key: Key, now: int) {
    key in s.rows && s.rows[key].valid && now < s.rows[key].expires
  }

  /** A mode that reuses answers finds one under the very key. */
  predicate FoundExactly(c: Settings, s: State, key: Key, now: int) {
    c.mode in {Exact, Semantic} && (Cached(s, key, now) || Standing(s, key, now))
  }

  /** The search is made, and ranks a standing row of a compatible context first. */
  predicate FoundNearby(c: Settings, s: State, context: Context, now: int, nearest: Option<Neighbour>) {
    && c.mode in {Shadow, Semantic} && c.embeds && nearest.Some?
    && Standing(s, nearest.value.key, now) && Compatible(s.rows[nearest.value.key].context, context)
  }

  predicate Bypasses(c: Settings, r: Request) {
    c.mode == Off || r.query == "" || !r.eligible || r.context == None
  }

  /** The similar neighbour that SEMANTIC mode answers with, when it has no exact answer. */
  predicate AnswersNearby(c: Settings, s: State, key: Key, context: Context, now: int, nearest: Option<Neighbour>) {
    && c.mode == Semantic && !FoundExactly(c, s, key, now) && FoundNearby(c, s, context, now, nearest)
    && 1.0 - nearest.value.distance >= c.similarity
  }

  /** The neighbour that is only worth a revalidation: less similar, or found by a mode that does not answer. */
  predicate RevalidatesNearby(c: Settings, s: State, key: Key, context: Context, now: int, nearest: Option<Neighbour>) {
    && !FoundExactly(c, s, key, now) && FoundNearby(c, s, context, now, nearest)
    && (1.0 - nearest.value.distance >= c.similarity ==> c.mode == Shadow)
    && (1.0 - nearest.value.distance >= c.similarity || 1.0 - nearest.value.distance >= c.revalidate)
  }

  /** Thresholds are fractions, as the configuration has it. */
  predicate Configured(c: Settings) {
    0.0 <= c.similarity <= 1.0 && 0.0 <= c.revalidate <= 1.0
  }

  /**
   * What a lookup decides, each decision by one condition: it bypasses; it answers from Redis, else from
   * the row under the very key, else, in SEMANTIC mode, from a neighbour that is similar enough; it asks
   * for revalidation; it waits for the holder of the lock; or it misses, and has taken the lock.
   */
  lemma LookupDecides(c: Settings, s: State, r: Request, now: int, nearest: Option<Neighbour>, token: string)
    requires Configured(c)
    ensures var d := LookedUp(c, s, r, now, nearest, token).1.decision;
      && (d == Bypass <==> Bypasses(c, r))
      && (!Bypasses(c, r) ==>
            var context := r.context.value;
            var key := ExactKey(r.query, context);
            && (d.Hit? && d.source == RedisHit <==> c.mode in {Exact, Semantic} && Cached(s, key, now))
            && (d.Hit? && d.source == PostgresHit <==>
                 c.mode in {Exact, Semantic} && Standing(s, key, now) && !Cached(s, key, now))
            && (d.Hit? && d.source == SemanticHit <==> AnswersNearby(c, s, key, context, now, nearest))
            && (d == Revalidate <==> RevalidatesNearby(c, s, key, context, now, nearest)))
  {
  }

  /** Whose payload a hit answers with; a lookup itself never hits through a peer. */
  lemma HitsAnswerWith(c: Settings, s: State, r: Request, now: int, nearest: Option<Neighbour>, token: string)
    requires LookedUp(c, s, r, now, nearest, token).1.decision.Hit?
    ensures !Bypasses(c, r)
    ensures var key := ExactKey(r.query, r.context.value);
      var d := LookedUp(c, s, r, now, nearest, token).1.decision;
      match d.source
      case RedisHit => key in s.copies && d.payload == s.copies[key].payload
      case PostgresHit => key in s.rows && d.payload == s.rows[key].payload
      case SemanticHit => nearest.Some? && nearest.value.key in s.rows && d.payload == s.rows[nearest.value.key].payload
      case PeerHit => false
  {
  }

  /** A lookup that neither answers nor revalidates waits exactly for a lock that is held, and only in the modes that reuse answers. */
  lemma MissOrWait(c: Settings, s: State, r: Request, now: int, nearest: Option<Neighbour>, token: string)
    requires Configured(c) && !Bypasses(c, r)
    ensures var context := r.context.value;
      var key := ExactKey(r.query, context);
      var l := LookedUp(c, s, r, now, nearest, token).1;
      var open := !FoundExactly(c, s, key, now) && !AnswersNearby(c, s, key, context, now, nearest)
        && !RevalidatesNearby(c, s, key, context, now, nearest);
      var held := key in s.locks && now < s.locks[key].expires;
      && (l.decision == AwaitPeer <==> open && c.mode in {Exact, Semantic} && held)
      && (l.decision == Miss <==> open && (c.mode in {Exact, Semantic} ==> !held))
      && l.key == Some(key) && l.context == Some(context)
      && l.lock == if l.decision == Miss && c.mode in {Exact, Semantic} then Some(token) else None
  {
    LookupDecides(c, s, r, now, nearest, token);
  }

  /** The row a hit is counted on. */
  predicate Counted(l: Lookup, nearest: Option<Neighbour>, key: Key) {
    l.decision.Hit? && (
      || (l.decision.source == PostgresHit && l.key == Some(key))
      || (l.decision.source == SemanticHit && nearest.Some? && nearest.value.key == key))
  }

  /** A lookup counts one hit on the row it answered with, and changes no other row. */
  lemma LookupCountsHits(c: Settings, s: State, r: Request, now: int, nearest: Option<Neighbour>, token: string, key: Key)
    requires key in s.rows
    ensures var (s', l) := LookedUp(c, s, r, now, nearest, token);
      key in s'.rows && s'.rows[key] == if Counted(l, nearest, key) then s.rows[key].(hits := s.rows[key].hits + 1) else s.rows[key]
  {
  }

  lemma LookupKeepsRows(c: Settings, s: State, r: Request, now: int, nearest: Option<Neighbour>, token: string)
    ensures LookedUp(c, s, r, now, nearest, token).0.rows.Keys == s.rows.Keys
  {
  }

  predicate Promotes(c: Settings, s: State, r: Request, now: int, key: Key) {
    && !Bypasses(c, r) && key == ExactKey(r.query, r.context.value) && Standing(s, key, now)
    && !(c.mode in {Exact, Semantic} && Cached(s, key, now))
  }

  /** A lookup copies the standing row of its key to Redis unless a copy answers, for as long as the row has left. */
  lemma LookupPromotes(c: Settings, s: State, r: Request, now: int, nearest: Option<Neighbour>, token: string, key: Key)
    requires Promotes(c, s, r, now, key)
    ensures var s' := LookedUp(c, s, r, now, nearest, token).0;
      && key in s'.copies && s'.copies[key].payload == s.rows[key].payload
      && now + 1000 <= s'.copies[key].expires
      && (s.rows[key].expires - now >= 1000 ==> s.rows[key].expires - 1000 < s'.copies[key].expires <= s.rows[key].expires)
  {
    var left := s.rows[key].expires - now;
    assert left - 1000 < 1000 * (left / 1000) <= left;
    assert LookedUp(c, s, r, now, nearest, token).0.copies ==
      s.copies[key := Copy(s.rows[key].payload, now + Seconds(TimeLeft(s.rows[key].expires, now)))];
  }

  /** Other copies stay. */
  lemma LookupKeepsCopies(c: Settings, s: State, r: Request, now: int, nearest: Option<Neighbour>, token: string, key: Key)
    requires !Promotes(c, s, r, now, key)
    ensures var s' := LookedUp(c, s, r, now, nearest, token).0;
      (key in s'.copies <==> key in s.copies) && (key in s.copies ==> s'.copies[key] == s.copies[key])
  {
  }

  /** How a lookup that waited for a peer ends. */
  function Awaited(l: Lookup, peer: Option<Payload>): Lookup {
    if l.decision == AwaitPeer then
      l.(decision := if peer.Some? then Hit(PeerHit, peer.value) else Miss)
    else l
  }

  // ---------------------------------------------------------------- admission and invalidation

  function Admitted(s: State, key: Key, context: Context, payload: Payload, ttl: nat, now: int): State {
    s.(rows := Upserted(s.rows, key, context, payload, now + 1000 * ttl),
       copies := s.copies[key := Copy(payload, now + Seconds(ttl))])
  }

  function Aborted(s: State, l: Lookup, now: int): State {
    if l.key == None || l.lock == None then s
    else s.(locks := Released(s.locks, l.key.value, l.lock.value, now))
  }

  /** What is asked of a response before it is stored: no capability intent, some content, a policy that still allows it. */
  datatype Response = Response(payload: Payload, capabilityIntent: bool, blank: bool, stillEligible: bool)

  predicate Admissible(r: Response) {
    !r.capabilityIntent && !r.blank && r.stillEligible
  }

  function AdmittedOrNot(s: State, l: Lookup, r: Response, ttl: nat, now: int): State {
    if l.context == None || l.key == None || l.decision == Bypass then s
    else if !Admissible(r) then Aborted(s, l, now)
    else Aborted(Admitted(s, l.key.value, l.context.value, r.payload, ttl, now), l, now)
  }

  /** A response is stored, over both tiers, exactly if the lookup had a key and was no bypass and the response is fit to be reused. */
  lemma AdmissionStoresExactly(s: State, l: Lookup, r: Response, ttl: nat, now: int)
    ensures var s' := AdmittedOrNot(s, l, r, ttl, now);
      var stores := l.context.Some? && l.key.Some? && l.decision != Bypass && !r.capabilityIntent && !r.blank && r.stillEligible;
      && (!stores ==> s'.rows == s.rows && s'.copies == s.copies)
      && (stores ==>
            && s'.rows == s.rows[l.key.value := s'.rows[l.key.value]] && s'.copies == s.copies[l.key.value := s'.copies[l.key.value]]
            && var row := s'.rows[l.key.value];
               && row.context == l.context.value && row.payload == s'.copies[l.key.value].payload == r.payload
               && row.valid && row.expires == now + 1000 * ttl
               && row.hits == if l.key.value in s.rows then s.rows[l.key.value].hits else 0)
  {
  }

  /** What was stored answers the next lookups of the same query and context, until it expires. */
  lemma AdmittedIsFound(c: Settings, s: State, l: Lookup, r: Response, ttl: nat, now: int, later: int, nearest: Option<Neighbour>, token: string)
    requires c.mode in {Exact, Semantic} && l.context.Some? && l.key.Some? && l.decision != Bypass && Admissible(r)
    requires l.key.value == ExactKey(l.key.value.query, l.context.value) && l.key.value.query != ""
    requires later < now + 1000 * ttl
    ensures var stored := AdmittedOrNot(s, l, r, ttl, now);
      var again := Request(l.key.value.query, true, l.context);
      LookedUp(c, stored, again, later, nearest, token).1.decision == Hit(RedisHit, r.payload)
  {
  }

  function Invalidated(s: State, tags: seq<string>, scope: Option<string>): State {
    s.(rows := RowsInvalidated(s.rows, tags, scope), copies := s.copies - KeysTagged(s.rows, tags, scope))
  }

  class CacheOrchestrator {
    const settings: Settings
    const redis: RedisCacheStore
    const repository: CacheRepository

    ghost function View(): State
      reads redis, repository
    {
      State(redis.copies, repository.rows, redis.locks)
    }

    constructor (settings: Settings, redis: RedisCacheStore, repository: CacheRepository)
      ensures this.settings == settings && this.redis == redis && this.repository == repository
    {
      this.settings, this.redis, this.repository := settings, redis, repository;
    }

    method Find(r: Request, now: int, nearest: Option<Neighbour>, token: string) returns (l: Lookup)
      modifies redis, repository
      ensures (View(), l) == LookedUp(settings, old(View()), r, now, nearest, token)
    {
      if settings.mode == Off || r.query == "" || !r.eligible || r.context == None {
        return Bypassed();
      }
      var context := r.context.value;
      var key := ExactKey(r.query, context);
      var reuse := Reuses(settings.mode);
      var copy := redis.GetExact(key, now);
      if copy.Some? && reuse {
        return Lookup(Hit(RedisHit, copy.value), Some(key), Some(context), None);
      }
      var row := repository.Exact(key, now);
      if row.Some? {
        redis.SetExact(key, row.value.payload, TimeLeft(row.value.expires, now), now);
        if reuse {
          repository.RecordHit(key);
          return Lookup(Hit(PostgresHit, row.value.payload), Some(key), Some(context), None);
        }
      }
      if (settings.mode == Shadow || settings.mode == Semantic) && settings.embeds
         && nearest.Some? && IsCandidate(repository.rows, context, now, nearest.value)
      {
        var n := nearest.value;
        if Similarity(n) >= settings.similarity {
          if settings.mode == Semantic {
            var payload := repository.rows[n.key].payload;
            repository.RecordHit(n.key);
            return Lookup(Hit(SemanticHit, payload), Some(key), Some(context), None);
          }
          return Lookup(Revalidate, Some(key), Some(context), None);
        }
        if Similarity(n) >= settings.revalidate {
          return Lookup(Revalidate, Some(key), Some(context), None);
        }
      }
      if reuse {
        var acquired := redis.AcquireLock(key, settings.lockSeconds, token, now);
        if !acquired {
          return Lookup(AwaitPeer, Some(key), Some(context), None);
        }
        return Lookup(Miss, Some(key), Some(context), Some(token));
      }
      l := Lookup(Miss, Some(key), Some(context), None);
    }

    method Abort(l: Lookup, now: int)
      modifies redis
      ensures View() == Aborted(old(View()), l, now)
    {
      if l.key.Some? && l.lock.Some? {
        redis.ReleaseLock(l.key.value, l.lock.value, now);
      }
    }

    method Admit(l: Lookup, r: Response, ttl: nat, now: int)
      modifies redis, repository
      ensures View() == AdmittedOrNot(old(View()), l, r, ttl, now)
    {
      if l.context == None || l.key == None || l.decision == Bypass {
        return;
      }
      if r.capabilityIntent || r.blank || !r.stillEligible {
        Abort(l, now);
        return;
      }
      repository.Upsert(l.key.value, l.context.value, r.payload, now + 1000 * ttl);
      redis.SetExact(l.key.value, r.payload, ttl, now);
      Abort(l, now);
    }

    method Invalidate(tags: seq<string>, scope: Option<string>) returns (count: nat)
      modifies redis, repository
      ensures View() == Invalidated(old(View()), tags, scope)
      ensures count == |KeysTagged(old(View()).rows, tags, scope)|
    {
      var keys := repository.InvalidateTags(tags, scope);
      redis.DeleteExact(keys);
      count := |keys|;
    }
  }

  /** The moment of a poll: every `poll` milliseconds, and no later than the end of the wait. */
  function PollTime(wait: nat, poll: nat, i: nat): nat {
    if i == 0 then 0
    else
      var before := PollTime(wait, poll, i - 1);
      if before + poll < wait then before + poll else wait
  }

  lemma {:induction false} NoPollAfterTheEnd(wait: nat, poll: nat, last: nat, i: nat)
    requires last <= i && PollTime(wait, poll, last) == wait
    ensures PollTime(wait, poll, i) == wait
  {
    if last < i {
      NoPollAfterTheEnd(wait, poll, last, i - 1);
    }
  }

  /** The answer found by the poll is the first that any poll finds. */
  predicate FirstAnswer(at: nat -> Option<Payload>, wait: nat, poll: nat, i: nat) {
    at(PollTime(wait, poll, i)).Some? && forall j: nat :: j < i ==> at(PollTime(wait, poll, j)) == None
  }

  /**
   * Polling for a peer's answer: `at` is what Redis holds after so many milliseconds. The result is
   * the first answer that any of the polls finds, and nothing only when none of them does.
   */
  method WaitForExact(at: nat -> Option<Payload>, wait: nat, poll: nat) returns (payload: Option<Payload>)
    requires poll > 0
    ensures payload.Some? ==> exists i: nat :: FirstAnswer(at, wait, poll, i) && payload == at(PollTime(wait, poll, i))
    ensures payload == None ==> forall i: nat :: at(PollTime(wait, poll, i)) == None
  {
    var elapsed, remaining := 0, wait;
    ghost var polls: nat := 0;
    while remaining > 0
      invariant 0 <= remaining && elapsed + remaining == wait
      invariant elapsed == PollTime(wait, poll, polls)
      invariant forall i: nat :: i < polls ==> at(PollTime(wait, poll, i)) == None
    {
      payload := at(elapsed);
      if payload.Some? {
        assert FirstAnswer(at, wait, poll, polls);
        return;
      }
      var interval := if poll < remaining then poll else remaining;
      elapsed := elapsed + interval;
      remaining := remaining - interval;
      polls := polls + 1;
    }
    payload := at(elapsed);
    if payload.Some? {
      assert FirstAnswer(at, wait, poll, polls);
    } else {
      forall i: nat ensures at(PollTime(wait, poll, i)) == None {
        if polls <= i {
          NoPollAfterTheEnd(wait, poll, polls, i);
        }
      }
    }
  }

  /** An invalidation reaches every entry once: asked again it finds none to count. */
  lemma InvalidatedOnce(s: State, tags: seq<string>, scope: Option<string>)
    ensures KeysTagged(Invalidated(s, tags, scope).rows, tags, scope) == {}
  {
  }
}
