/**
 * Publishing journal records into incidents and current projections: each record is committed in one
 * transaction and acknowledged afterwards, so a crash in between publishes it again.
 */
module DiagnosticPublisher {
  import opened Options
  import opened DiagnosticJournal
  import Sorting

  const WINDOW := 256
  const BATCH := 100

  datatype Incident = Incident(
    resource: string, rule: string, state: string, firstSeen: int, lastSeen: int,
    observationIds: seq<string>, count: nat, recoveredAt: Option<int>)

  /** What a projection is about: the latest observation of a resource, or the latest note of an episode. */
  datatype Subject = OfResource(resource: string) | OfEpisode(episode: Option<string>)

  datatype Published = Published(incidents: map<string, Incident>, projections: map<Subject, Record>)

  const NOTHING := Published(map[], map[])

  function Max(a: int, b: int): int {
    if a < b then b else a
  }

  /** Keeps the identifiers seen last; one that is already kept changes nothing. */
  function AppendObservation(existing: seq<string>, id: string): seq<string> {
    if id in existing then existing
    else
      var longer := existing + [id];
      if |longer| > WINDOW then longer[|longer| - WINDOW..] else longer
  }

  function NewIncident(r: Record): Incident {
    Incident(r.resource, r.rule, "open", r.observedAt, r.observedAt, [r.id], 1, None)
  }

  function Extended(i: Incident, r: Record): Incident {
    var ids := AppendObservation(i.observationIds, r.id);
    i.(lastSeen := Max(i.lastSeen, r.observedAt),
       count := if ids != i.observationIds then i.count + 1 else i.count,
       observationIds := ids)
  }

  function WithState(i: Incident, r: Record): Incident {
    if r.kind.Observation? then i
    else if r.kind.state == "recovered" then i.(state := r.kind.state, recoveredAt := Some(r.observedAt))
    else i.(state := r.kind.state)
  }

  predicate HasEpisode(r: Record) {
    r.episode.Some? && r.episode.value != ""
  }

  function Evidenced(incidents: map<string, Incident>, r: Record): map<string, Incident> {
    if !HasEpisode(r) then incidents
    else
      var e := r.episode.value;
      incidents[e := WithState(if e in incidents then Extended(incidents[e], r) else NewIncident(r), r)]
  }

  function SubjectOf(r: Record): Subject {
    if r.kind.Observation? then OfResource(r.resource) else OfEpisode(r.episode)
  }

  /** An older or equally old record never replaces the current projection. */
  function Projected(projections: map<Subject, Record>, r: Record): map<Subject, Record> {
    if SubjectOf(r) in projections && projections[SubjectOf(r)].observedAt >= r.observedAt then projections
    else projections[SubjectOf(r) := r]
  }

  function Commit(db: Published, r: Record): Published {
    Published(Evidenced(db.incidents, r), Projected(db.projections, r))
  }

  function CommitAll(db: Published, records: seq<Record>): Published {
    if records == [] then db else Commit(CommitAll(db, records[..|records| - 1]), records[|records| - 1])
  }

  class DiagnosticStore {
    var incidents: map<string, Incident>
    var projections: map<Subject, Record>

    ghost function View(): Published
      reads this
    {
      Published(incidents, projections)
    }

    constructor ()
      ensures View() == NOTHING
    {
      incidents, projections := map[], map[];
    }

    method RecordIncidentEvidence(r: Record)
      modifies this`incidents
      ensures incidents == Evidenced(old(incidents), r)
    {
      if r.episode == None || r.episode.value == "" {
        return;
      }
      var e := r.episode.value;
      var incident: Incident;
      if e !in incidents {
        incident := Incident(r.resource, r.rule, "open", r.observedAt, r.observedAt, [r.id], 1, None);
      } else {
        incident := incidents[e];
        var updated := AppendObservation(incident.observationIds, r.id);
        incident := incident.(lastSeen := if incident.lastSeen < r.observedAt then r.observedAt else incident.lastSeen);
        if updated != incident.observationIds {
          incident := incident.(count := incident.count + 1);
        }
        incident := incident.(observationIds := updated);
      }
      if r.kind.IncidentNote? {
        incident := incident.(state := r.kind.state);
        if r.kind.state == "recovered" {
          incident := incident.(recoveredAt := Some(r.observedAt));
        }
      }
      incidents := incidents[e := incident];
    }

    /** One transaction of `Publish`. */
    method CommitRecord(r: Record)
      modifies this
      ensures View() == Commit(old(View()), r)
    {
      RecordIncidentEvidence(r);
      var subject := if r.kind.Observation? then OfResource(r.resource) else OfEpisode(r.episode);
      var older := subject in projections && projections[subject].observedAt >= r.observedAt;
      if !older {
        projections := projections[subject := r];
      }
    }
  }

  function AcknowledgeAll(entries: seq<Entry>, records: seq<Record>): seq<Entry> {
    if records == [] then entries
    else Acknowledge(AcknowledgeAll(entries, records[..|records| - 1]), records[|records| - 1].id)
  }

  /** What one cycle commits when it is interrupted after so many transactions. */
  function CommittedIn(entries: seq<Entry>, commits: nat): seq<Record> {
    Take(Pending(entries, BATCH), commits)
  }

  /** What it acknowledges: not the last one, if the process dies between its commit and its acknowledgement. */
  function AcknowledgedIn(entries: seq<Entry>, commits: nat, tornLast: bool): seq<Record> {
    var done := CommittedIn(entries, commits);
    if tornLast && commits <= |Pending(entries, BATCH)| && done != [] then done[..|done| - 1] else done
  }

  /** One cycle, as a function on the journal and what is published. */
  function Cycled(j: Journal, db: Published, commits: nat, tornLast: bool): (Journal, Published) {
    (j.(entries := AcknowledgeAll(j.entries, AcknowledgedIn(j.entries, commits, tornLast))),
     CommitAll(db, CommittedIn(j.entries, commits)))
  }

  /** A cycle that has come to its end, or to its interruption, after `i` records. */
  lemma CycleEnds(entries: seq<Entry>, commits: nat, tornLast: bool, i: nat)
    requires i <= |Pending(entries, BATCH)| && i <= commits && (i == commits || i == |Pending(entries, BATCH)|)
    ensures var pending := Pending(entries, BATCH);
      && CommittedIn(entries, commits) == pending[..i]
      && AcknowledgedIn(entries, commits, tornLast) ==
           if tornLast && i == commits && i > 0 then pending[..i - 1] else pending[..i]
  {
    var pending := Pending(entries, BATCH);
    assert i == |pending| ==> pending[..i] == pending;
    assert i > 0 ==> pending[..i][..i - 1] == pending[..i - 1];
  }

  lemma OneMoreCommitted(db: Published, entries: seq<Entry>, records: seq<Record>, i: nat)
    requires i < |records|
    ensures CommitAll(db, records[..i + 1]) == Commit(CommitAll(db, records[..i]), records[i])
    ensures AcknowledgeAll(entries, records[..i + 1]) == Acknowledge(AcknowledgeAll(entries, records[..i]), records[i].id)
  {
    assert records[..i + 1][..i] == records[..i];
  }

  /**
   * One cycle over the pending records, interrupted after `commits` transactions, the last of them
   * not acknowledged if `tornLast`.
   */
  method Publish(spool: DiagnosticSpool, store: DiagnosticStore, commits: nat, tornLast: bool)
    modifies spool, store
    ensures (spool.View(), store.View()) == Cycled(old(spool.View()), old(store.View()), commits, tornLast)
  {
    ghost var entries, db := spool.entries, store.View();
    var pending := spool.ListPending(BATCH);
    for i := 0 to |pending|
      invariant i <= commits && (i == commits && tornLast ==> commits == 0)
      invariant store.View() == CommitAll(db, pending[..i])
      invariant spool.View() == old(spool.View()).(entries := AcknowledgeAll(entries, pending[..i]))
      invariant pending == Pending(entries, BATCH)
    {
      if i == commits {
        CycleEnds(entries, commits, tornLast, i);
        return;
      }
      OneMoreCommitted(db, entries, pending, i);
      store.CommitRecord(pending[i]);
      if i + 1 == commits && tornLast {
        CycleEnds(entries, commits, tornLast, i + 1);
        return;
      }
      spool.Ack(pending[i].id);
    }
    CycleEnds(entries, commits, tornLast, |pending|);
  }

  // ---------------------------------------------------------------- crashes and replays

  /**
   * `Arrive` appends a record; `Torn` commits the oldest pending record and crashes before the
   * acknowledgement; `Whole` does both. A transaction that rolls back is no step at all.
   */
  datatype Step = Arrive(r: Record, bytes: nat, now: int, d: Disk) | Torn | Whole

  datatype World = World(journal: Journal, db: Published, stored: seq<Record>)

  predicate UsedIdentifier(stored: seq<Record>, id: string) {
    exists i :: 0 <= i < |stored| && stored[i].id == id
  }

  /** Identifiers are drawn at random: a used one does not arrive again. */
  function Next(max: nat, w: World, step: Step): World {
    match step
    case Arrive(r, bytes, now, d) =>
      if UsedIdentifier(w.stored, r.id) then w
      else
        var (j, result) := Appended(w.journal, max, r, bytes, now, d);
        World(j, w.db, if result == Stored then w.stored + [r] else w.stored)
    case Torn =>
      var pending := Pending(w.journal.entries, BATCH);
      if pending == [] then w else w.(db := Commit(w.db, pending[0]))
    case Whole =>
      var pending := Pending(w.journal.entries, BATCH);
      if pending == [] then w
      else w.(db := Commit(w.db, pending[0]), journal := w.journal.(entries := Acknowledge(w.journal.entries, pending[0].id)))
  }

  function Run(max: nat, steps: seq<Step>): World {
    if steps == [] then World(Journal([], 0, None), NOTHING, [])
    else Next(max, Run(max, steps[..|steps| - 1]), steps[|steps| - 1])
  }

  ghost predicate DistinctRecords(records: seq<Record>) {
    forall i, j :: 0 <= i < j < |records| ==> records[i].id != records[j].id
  }

  /** The first `acked` stored records are acknowledged, and at most one more is committed. */
  ghost predicate Progress(w: World, max: nat, acked: nat, committed: nat) {
    && Inv(w.journal, max) && DistinctRecords(w.stored)
    && acked <= committed <= acked + 1 && committed <= |w.stored|
    && Records(Unacknowledged(w.journal.entries)) == w.stored[acked..]
    && w.db == CommitAll(NOTHING, w.stored[..committed])
    && EntriesUsed(w)
  }

  ghost predicate Good(w: World, max: nat) {
    exists acked: nat, committed: nat :: Progress(w, max, acked, committed)
  }

  lemma AppendedIsKept(existing: seq<string>, id: string)
    ensures id in AppendObservation(existing, id)
  {
    if id !in existing {
      assert AppendObservation(existing, id)[|AppendObservation(existing, id)| - 1] == id;
    }
  }

  /** Publishing a record again right after it was published changes nothing. */
  lemma CommitTwice(db: Published, r: Record)
    ensures Commit(Commit(db, r), r) == Commit(db, r)
  {
    var once := Commit(db, r);
    if HasEpisode(r) {
      var e := r.episode.value;
      if e in db.incidents {
        AppendedIsKept(db.incidents[e].observationIds, r.id);
      }
      assert r.id in once.incidents[e].observationIds;
      assert Evidenced(once.incidents, r)[e] == once.incidents[e];
      assert Evidenced(once.incidents, r) == once.incidents;
    }
  }

  lemma {:induction false} FilterAll(keep: Record -> bool, records: seq<Record>)
    requires forall i :: 0 <= i < |records| ==> keep(records[i])
    ensures Sorting.Filter(keep, records) == records
  {
    if records != [] {
      FilterAll(keep, records[..|records| - 1]);
      assert records == records[..|records| - 1] + [records[|records| - 1]];
    }
  }

  lemma DropHead(records: seq<Record>)
    requires records != [] && DistinctRecords(records)
    ensures Sorting.Filter((r: Record) => r.id != records[0].id, records) == records[1..]
  {
    var keep := (r: Record) => r.id != records[0].id;
    assert records == [records[0]] + records[1..];
    FilterAppend(keep, [records[0]], records[1..]);
    assert [records[0]][..0] == [] && Sorting.Filter(keep, [records[0]]) == [];
    FilterAll(keep, records[1..]);
  }

  lemma PendingHead(w: World, max: nat, acked: nat, committed: nat)
    requires Progress(w, max, acked, committed)
    ensures var pending := Pending(w.journal.entries, BATCH);
      if acked < |w.stored| then pending != [] && pending[0] == w.stored[acked] else pending == []
  {
    PendingIsAppendOrder(w.journal, max, BATCH);
  }

  /** Committing the oldest pending record leaves exactly the commits of one record more, whether or not it was committed before. */
  lemma CommitHead(w: World, max: nat, acked: nat, committed: nat)
    requires Progress(w, max, acked, committed) && acked < |w.stored|
    ensures Commit(w.db, w.stored[acked]) == CommitAll(NOTHING, w.stored[..acked + 1])
  {
    assert w.stored[..acked + 1][..acked] == w.stored[..acked];
    if committed == acked + 1 {
      CommitTwice(CommitAll(NOTHING, w.stored[..acked]), w.stored[acked]);
    }
  }

  lemma AcknowledgeHead(w: World, max: nat, acked: nat)
    requires Inv(w.journal, max) && DistinctRecords(w.stored) && acked < |w.stored|
    requires Records(Unacknowledged(w.journal.entries)) == w.stored[acked..]
    ensures var entries := Acknowledge(w.journal.entries, w.stored[acked].id);
      && Records(Unacknowledged(entries)) == w.stored[acked + 1..]
      && Inv(w.journal.(entries := entries), max)
  {
    AckKeeps(w.journal, max, w.stored[acked].id);
    AcknowledgedWaiting(w.journal.entries, w.stored[acked].id);
    var rest := w.stored[acked..];
    forall i, j | 0 <= i < j < |rest| ensures rest[i].id != rest[j].id {
      assert w.stored[acked + i].id != w.stored[acked + j].id;
    }
    DropHead(rest);
    assert rest[1..] == w.stored[acked + 1..];
  }

  lemma CollectedAreHeld(entries: seq<Entry>, now: int, i: nat)
    requires i < |Collected(entries, now)|
    ensures Holds(entries, Collected(entries, now)[i].record.id)
  {
    var x := Collected(entries, now)[i];
    FilterMembers((e: Entry) => !(e.acknowledged && e.createdAt < now - WEEK), entries, x);
    var k :| 0 <= k < |entries| && entries[k] == x;
  }

  /** Where an entry of the journal after an append comes from. */
  lemma AppendedAreHeld(j: Journal, max: nat, r: Record, bytes: nat, now: int, d: Disk, i: nat)
    requires var (j', result) := Appended(j, max, r, bytes, now, d); i < |j'.entries|
    ensures var (j', result) := Appended(j, max, r, bytes, now, d);
      Holds(j.entries, j'.entries[i].record.id) || (result == Stored && j'.entries[i].record.id == r.id)
  {
    var (j', result) := Appended(j, max, r, bytes, now, d);
    var collected := Collected(j.entries, now);
    if j'.entries == j.entries {
    } else if i < |collected| {
      CollectedAreHeld(j.entries, now, i);
    }
  }

  ghost predicate EntriesUsed(w: World) {
    forall i :: 0 <= i < |w.journal.entries| ==> UsedIdentifier(w.stored, w.journal.entries[i].record.id)
  }

  lemma ArrivedIsUsed(max: nat, w: World, r: Record, bytes: nat, now: int, d: Disk, i: nat)
    requires EntriesUsed(w) && i < |Appended(w.journal, max, r, bytes, now, d).0.entries|
    ensures var (j, result) := Appended(w.journal, max, r, bytes, now, d);
      UsedIdentifier(if result == Stored then w.stored + [r] else w.stored, j.entries[i].record.id)
  {
    var (j, result) := Appended(w.journal, max, r, bytes, now, d);
    var id, longer := j.entries[i].record.id, w.stored + [r];
    AppendedAreHeld(w.journal, max, r, bytes, now, d, i);
    if id == r.id && result == Stored {
      assert longer[|w.stored|].id == id;
    } else {
      var k :| 0 <= k < |w.journal.entries| && w.journal.entries[k].record.id == id;
      var l :| 0 <= l < |w.stored| && w.stored[l].id == id;
      assert longer[l] == w.stored[l];
    }
  }

  /** A fresh record joins the stored ones behind those that are acknowledged and committed. */
  lemma StoredGrows(stored: seq<Record>, r: Record, acked: nat, committed: nat)
    requires acked <= |stored| && committed <= |stored| && !UsedIdentifier(stored, r.id) && DistinctRecords(stored)
    ensures var longer := stored + [r];
      && longer[..committed] == stored[..committed] && longer[acked..] == stored[acked..] + [r]
      && DistinctRecords(longer)
  {
  }

  lemma ArrivedEntriesUsed(max: nat, w: World, r: Record, bytes: nat, now: int, d: Disk)
    requires EntriesUsed(w) && !UsedIdentifier(w.stored, r.id)
    ensures EntriesUsed(Next(max, w, Arrive(r, bytes, now, d)))
  {
    var w' := Next(max, w, Arrive(r, bytes, now, d));
    forall i | 0 <= i < |w'.journal.entries| ensures UsedIdentifier(w'.stored, w'.journal.entries[i].record.id) {
      ArrivedIsUsed(max, w, r, bytes, now, d, i);
    }
  }

  lemma ArriveKeeps(max: nat, w: World, r: Record, bytes: nat, now: int, d: Disk, acked: nat, committed: nat)
    requires Progress(w, max, acked, committed)
    ensures Progress(Next(max, w, Arrive(r, bytes, now, d)), max, acked, committed)
  {
    if !UsedIdentifier(w.stored, r.id) {
      AppendKeeps(w.journal, max, r, bytes, now, d);
      AppendedUnacknowledged(w.journal, max, r, bytes, now, d);
      ArrivedEntriesUsed(max, w, r, bytes, now, d);
      StoredGrows(w.stored, r, acked, committed);
      assert w.stored[acked..] + [] == w.stored[acked..];
    }
  }

  lemma TornKeeps(max: nat, w: World, acked: nat, committed: nat)
    requires Progress(w, max, acked, committed)
    ensures Good(Next(max, w, Torn), max)
  {
    PendingHead(w, max, acked, committed);
    if acked < |w.stored| {
      CommitHead(w, max, acked, committed);
      assert Progress(Next(max, w, Torn), max, acked, acked + 1);
    }
  }

  lemma WholeKeeps(max: nat, w: World, acked: nat, committed: nat)
    requires Progress(w, max, acked, committed)
    ensures Good(Next(max, w, Whole), max)
  {
    PendingHead(w, max, acked, committed);
    if acked < |w.stored| {
      CommitHead(w, max, acked, committed);
      AcknowledgeHead(w, max, acked);
      assert Progress(Next(max, w, Whole), max, acked + 1, acked + 1);
    }
  }

  lemma NextKeeps(max: nat, w: World, step: Step)
    requires Good(w, max)
    ensures Good(Next(max, w, step), max)
  {
    var acked: nat, committed: nat :| Progress(w, max, acked, committed);
    match step
    case Arrive(r, bytes, now, d) => ArriveKeeps(max, w, r, bytes, now, d, acked, committed);
    case Torn => TornKeeps(max, w, acked, committed);
    case Whole => WholeKeeps(max, w, acked, committed);
  }

  lemma {:induction false} RunKeeps(max: nat, steps: seq<Step>)
    ensures Good(Run(max, steps), max)
  {
    if steps == [] {
      assert Progress(Run(max, []), max, 0, 0);
    } else {
      RunKeeps(max, steps[..|steps| - 1]);
      NextKeeps(max, Run(max, steps[..|steps| - 1]), steps[|steps| - 1]);
    }
  }

  /**
   * Crashes between commit and acknowledgement, in any number, are invisible: once nothing is
   * pending, the published state is that of committing every stored record exactly once, in order.
   */
  lemma PublishingConverges(max: nat, steps: seq<Step>)
    ensures var w := Run(max, steps);
      && DistinctRecords(w.stored)
      && (Pending(w.journal.entries, BATCH) == [] ==> w.db == CommitAll(NOTHING, w.stored))
      && exists n: nat :: n <= |w.stored| && w.db == CommitAll(NOTHING, w.stored[..n])
  {
    RunKeeps(max, steps);
    var w := Run(max, steps);
    var acked: nat, committed: nat :| Progress(w, max, acked, committed);
    PendingHead(w, max, acked, committed);
    if acked == |w.stored| {
      assert w.stored[..committed] == w.stored;
    }
  }

  // ---------------------------------------------------------------- cycles are steps

  function Wholes(n: nat): (steps: seq<Step>)
    ensures |steps| == n
  {
    seq(n, _ => Whole)
  }

  lemma RunSnoc(max: nat, steps: seq<Step>, step: Step)
    ensures Run(max, steps + [step]) == Next(max, Run(max, steps), step)
  {
    assert (steps + [step])[..|steps|] == steps;
  }

  /** The oldest unacknowledged record is the one a step publishes. */
  lemma OldestIsPublished(max: nat, w: World)
    requires Good(w, max)
    ensures var waiting := Records(Unacknowledged(w.journal.entries));
      && (waiting == [] <==> Pending(w.journal.entries, BATCH) == [])
      && (waiting != [] ==>
            && Pending(w.journal.entries, BATCH)[0] == waiting[0]
            && Records(Unacknowledged(Acknowledge(w.journal.entries, waiting[0].id))) == waiting[1..])
  {
    var acked: nat, committed: nat :| Progress(w, max, acked, committed);
    PendingHead(w, max, acked, committed);
    if acked < |w.stored| {
      AcknowledgeHead(w, max, acked);
      assert w.stored[acked..][1..] == w.stored[acked + 1..];
    }
  }

  /** From `w`, the first `n` waiting records have been published and acknowledged, and nothing else has happened. */
  ghost predicate FirstPublished(w: World, w': World, n: nat) {
    var waiting := Records(Unacknowledged(w.journal.entries));
    && n <= |waiting|
    && w' == World(w.journal.(entries := AcknowledgeAll(w.journal.entries, waiting[..n])), CommitAll(w.db, waiting[..n]), w.stored)
    && Records(Unacknowledged(w'.journal.entries)) == waiting[n..]
  }

  /** The next step finds record `n` of the ones that were waiting, and leaves the later ones. */
  lemma NextIsPublished(max: nat, w: World, waiting: seq<Record>, n: nat)
    requires Good(w, max) && n < |waiting| && Records(Unacknowledged(w.journal.entries)) == waiting[n..]
    ensures Pending(w.journal.entries, BATCH) != [] && Pending(w.journal.entries, BATCH)[0] == waiting[n]
    ensures Records(Unacknowledged(Acknowledge(w.journal.entries, waiting[n].id))) == waiting[n + 1..]
  {
    OldestIsPublished(max, w);
    assert waiting[n..][0] == waiting[n] && waiting[n..][1..] == waiting[n + 1..];
  }

  lemma OneMorePublished(max: nat, w: World, w': World, n: nat)
    requires Good(w', max) && FirstPublished(w, w', n) && n < |Unacknowledged(w.journal.entries)|
    ensures FirstPublished(w, Next(max, w', Whole), n + 1)
    ensures Next(max, w', Torn) == w'.(db := CommitAll(w.db, Records(Unacknowledged(w.journal.entries))[..n + 1]))
  {
    var waiting := Records(Unacknowledged(w.journal.entries));
    NextIsPublished(max, w', waiting, n);
    OneMoreCommitted(w.db, w.journal.entries, waiting, n);
  }

  lemma NothingPublished(w: World)
    ensures FirstPublished(w, w, 0)
  {
    assert Records(Unacknowledged(w.journal.entries))[..0] == [];
  }

  lemma WholeNext(max: nat, w: World, steps: seq<Step>, n: nat)
    requires FirstPublished(w, Run(max, steps), n) && n < |Unacknowledged(w.journal.entries)|
    ensures FirstPublished(w, Run(max, steps + [Whole]), n + 1)
  {
    RunKeeps(max, steps);
    OneMorePublished(max, w, Run(max, steps), n);
    RunSnoc(max, steps, Whole);
  }

  lemma WholesSnoc(steps: seq<Step>, n: nat)
    requires n > 0
    ensures steps + Wholes(n) == (steps + Wholes(n - 1)) + [Whole]
  {
  }

  /** So many whole steps publish and acknowledge the first so many waiting records. */
  lemma {:induction false} WholesPublish(max: nat, w: World, steps: seq<Step>, n: nat)
    requires w == Run(max, steps) && n <= |Unacknowledged(w.journal.entries)|
    ensures FirstPublished(w, Run(max, steps + Wholes(n)), n)
    decreases n
  {
    if n == 0 {
      NothingPublished(w);
      assert steps + Wholes(0) == steps;
    } else {
      WholesPublish(max, w, steps, n - 1);
      WholeNext(max, w, steps + Wholes(n - 1), n - 1);
      WholesSnoc(steps, n);
    }
  }

  /** The steps of a cycle: whole ones, and a torn one if the process dies before its last acknowledgement. */
  function CycleSteps(entries: seq<Entry>, commits: nat, tornLast: bool): seq<Step> {
    StepsFor(|AcknowledgedIn(entries, commits, tornLast)|, |CommittedIn(entries, commits)|)
  }

  lemma GoodMeansInv(w: World, max: nat)
    requires Good(w, max)
    ensures Inv(w.journal, max)
  {
  }

  lemma CycleIsAPrefix(j: Journal, max: nat, commits: nat, tornLast: bool)
    requires Inv(j, max)
    ensures var waiting, done, acked :=
        Records(Unacknowledged(j.entries)), CommittedIn(j.entries, commits), AcknowledgedIn(j.entries, commits, tornLast);
      && |acked| <= |done| <= |acked| + 1 && |done| <= |waiting|
      && done == waiting[..|done|] && acked == waiting[..|acked|]
  {
    PendingIsAppendOrder(j, max, BATCH);
    var waiting, n := Records(Unacknowledged(j.entries)), |CommittedIn(j.entries, commits)|;
    assert CommittedIn(j.entries, commits) == waiting[..n];
    if n > 0 {
      assert waiting[..n][..n - 1] == waiting[..n - 1];
    }
  }

  lemma TornNext(max: nat, w: World, steps: seq<Step>, n: nat)
    requires FirstPublished(w, Run(max, steps), n) && n < |Unacknowledged(w.journal.entries)|
    ensures var waiting := Records(Unacknowledged(w.journal.entries));
      Run(max, steps + [Torn])
        == World(w.journal.(entries := AcknowledgeAll(w.journal.entries, waiting[..n])), CommitAll(w.db, waiting[..n + 1]), w.stored)
  {
    RunKeeps(max, steps);
    OneMorePublished(max, w, Run(max, steps), n);
    RunSnoc(max, steps, Torn);
  }

  lemma TornCycle(max: nat, steps: seq<Step>, acked: nat)
    requires acked < |Unacknowledged(Run(max, steps).journal.entries)|
    ensures var w := Run(max, steps);
      var waiting := Records(Unacknowledged(w.journal.entries));
      Run(max, steps + (Wholes(acked) + [Torn]))
        == World(w.journal.(entries := AcknowledgeAll(w.journal.entries, waiting[..acked])), CommitAll(w.db, waiting[..acked + 1]), w.stored)
  {
    var w := Run(max, steps);
    var more := steps + Wholes(acked);
    WholesPublish(max, w, steps, acked);
    TornNext(max, w, more, acked);
    assert steps + (Wholes(acked) + [Torn]) == more + [Torn];
  }

  function StepsFor(acked: nat, committed: nat): seq<Step> {
    Wholes(acked) + if acked < committed then [Torn] else []
  }

  /** Publishing the first `committed` waiting records and acknowledging all of them, or all but the last. */
  lemma PrefixIsSteps(max: nat, steps: seq<Step>, acked: nat, committed: nat)
    requires acked <= committed <= acked + 1 && committed <= |Unacknowledged(Run(max, steps).journal.entries)|
    ensures var w := Run(max, steps);
      var waiting := Records(Unacknowledged(w.journal.entries));
      Run(max, steps + StepsFor(acked, committed))
        == World(w.journal.(entries := AcknowledgeAll(w.journal.entries, waiting[..acked])), CommitAll(w.db, waiting[..committed]), w.stored)
  {
    if acked < committed {
      TornCycle(max, steps, acked);
    } else {
      WholesPublish(max, Run(max, steps), steps, acked);
      assert StepsFor(acked, committed) == Wholes(acked);
    }
  }

  /** After any run, a cycle over a batch, however interrupted, is the run's continuation by its steps, each of which looks up what is pending anew. */
  lemma CycleIsSteps(max: nat, steps: seq<Step>, commits: nat, tornLast: bool)
    ensures var w := Run(max, steps);
      var (journal, db) := Cycled(w.journal, w.db, commits, tornLast);
      Run(max, steps + CycleSteps(w.journal.entries, commits, tornLast)) == World(journal, db, w.stored)
  {
    var w := Run(max, steps);
    var acked, committed := |AcknowledgedIn(w.journal.entries, commits, tornLast)|, |CommittedIn(w.journal.entries, commits)|;
    RunKeeps(max, steps);
    GoodMeansInv(w, max);
    CycleIsAPrefix(w.journal, max, commits, tornLast);
    PrefixIsSteps(max, steps, acked, committed);
  }

  /** What the worker does: records arrive, and cycles publish, interrupted or not. */
  datatype Doing = Append(r: Record, bytes: nat, now: int, d: Disk) | Cycle(commits: nat, tornLast: bool)

  function Worked(max: nat, doings: seq<Doing>): World {
    if doings == [] then World(Journal([], 0, None), NOTHING, [])
    else
      var w := Worked(max, doings[..|doings| - 1]);
      match doings[|doings| - 1]
      case Append(r, bytes, now, d) => Next(max, w, Arrive(r, bytes, now, d))
      case Cycle(commits, tornLast) =>
        var (journal, db) := Cycled(w.journal, w.db, commits, tornLast);
        World(journal, db, w.stored)
  }

  lemma {:induction false} WorkIsSteps(max: nat, doings: seq<Doing>) returns (steps: seq<Step>)
    ensures Run(max, steps) == Worked(max, doings)
  {
    if doings == [] {
      steps := [];
    } else {
      steps := WorkIsSteps(max, doings[..|doings| - 1]);
      match doings[|doings| - 1]
      case Append(r, bytes, now, d) =>
        RunSnoc(max, steps, Arrive(r, bytes, now, d));
        steps := steps + [Arrive(r, bytes, now, d)];
      case Cycle(commits, tornLast) =>
        CycleIsSteps(max, steps, commits, tornLast);
        steps := steps + CycleSteps(Run(max, steps).journal.entries, commits, tornLast);
    }
  }

  /**
   * Through any sequence of arrivals and of cycles interrupted anywhere, what is published is the commits
   * of a prefix of the stored records, each once and in order, and of all of them once nothing is pending.
   */
  lemma CyclesConverge(max: nat, doings: seq<Doing>)
    ensures var w := Worked(max, doings);
      && DistinctRecords(w.stored)
      && (Pending(w.journal.entries, BATCH) == [] ==> w.db == CommitAll(NOTHING, w.stored))
      && exists n: nat :: n <= |w.stored| && w.db == CommitAll(NOTHING, w.stored[..n])
  {
    var steps := WorkIsSteps(max, doings);
    PublishingConverges(max, steps);
  }

  // ---------------------------------------------------------------- what is published

  /** Identifiers of the records of one episode, in order. */
  function EpisodeIds(records: seq<Record>, episode: string): seq<string> {
    if records == [] then []
    else
      var r := records[|records| - 1];
      EpisodeIds(records[..|records| - 1], episode) + if r.episode == Some(episode) then [r.id] else []
  }

  function LastOnes(ids: seq<string>): seq<string> {
    if |ids| > WINDOW then ids[|ids| - WINDOW..] else ids
  }

  lemma {:induction false} EpisodeIdsAreIds(records: seq<Record>, episode: string, id: string)
    requires id in EpisodeIds(records, episode)
    ensures UsedIdentifier(records, id)
  {
    var n := |records| - 1;
    if records[n].episode == Some(episode) && records[n].id == id {
    } else {
      EpisodeIdsAreIds(records[..n], episode, id);
      var i :| 0 <= i < n && records[..n][i].id == id;
      assert records[i].id == id;
    }
  }

  lemma WindowGrows(ids: seq<string>, id: string)
    requires id !in ids
    ensures AppendObservation(LastOnes(ids), id) == LastOnes(ids + [id])
    ensures AppendObservation(LastOnes(ids), id) != LastOnes(ids)
  {
    assert id !in LastOnes(ids);
    assert AppendObservation(LastOnes(ids), id)[|AppendObservation(LastOnes(ids), id)| - 1] == id;
  }

  lemma LaterIdIsNew(front: seq<Record>, r: Record, episode: string)
    requires DistinctRecords(front + [r])
    ensures r.id !in EpisodeIds(front, episode)
  {
    var records := front + [r];
    forall i | 0 <= i < |front| ensures front[i].id != r.id {
      assert records[i].id != records[|front|].id;
    }
    if r.id in EpisodeIds(front, episode) {
      EpisodeIdsAreIds(front, episode, r.id);
    }
  }

  /** An episode's incident counts these identifiers, and keeps the last of them. */
  ghost predicate Counts(incidents: map<string, Incident>, episode: string, ids: seq<string>) {
    && (episode in incidents <==> ids != [])
    && (episode in incidents ==>
          incidents[episode].count == |ids| && incidents[episode].observationIds == LastOnes(ids))
  }

  lemma OneMoreCounted(incidents: map<string, Incident>, r: Record, episode: string, ids: seq<string>)
    requires Counts(incidents, episode, ids) && episode != "" && (r.episode == Some(episode) ==> r.id !in ids)
    ensures Counts(Evidenced(incidents, r), episode, if r.episode == Some(episode) then ids + [r.id] else ids)
  {
    if r.episode == Some(episode) {
      WindowGrows(ids, r.id);
    }
  }

  /**
   * Over distinct records, an incident's count is the number of its records, although only the last
   * 256 identifiers are kept.
   */
  lemma {:induction false} CountsAreExact(records: seq<Record>, episode: string)
    requires DistinctRecords(records) && episode != ""
    ensures Counts(CommitAll(NOTHING, records).incidents, episode, EpisodeIds(records, episode))
  {
    if records != [] {
      var n := |records| - 1;
      var r, front := records[n], records[..n];
      var ids := EpisodeIds(front, episode);
      assert records == front + [r];
      CountsAreExact(front, episode);
      LaterIdIsNew(front, r, episode);
      OneMoreCounted(CommitAll(NOTHING, front).incidents, r, episode, ids);
      assert ids + [] == ids;
    }
  }

  /** Whatever the crashes, once nothing is pending each incident counts its distinct stored records. */
  lemma PublishedCountsAreExact(max: nat, steps: seq<Step>, episode: string)
    requires episode != "" && Pending(Run(max, steps).journal.entries, BATCH) == []
    ensures var w := Run(max, steps);
      && (episode in w.db.incidents <==> EpisodeIds(w.stored, episode) != [])
      && (episode in w.db.incidents ==> w.db.incidents[episode].count == |EpisodeIds(w.stored, episode)|)
  {
    PublishingConverges(max, steps);
    CountsAreExact(Run(max, steps).stored, episode);
  }

  predicate Belongs(r: Record, episode: string) {
    r.episode == Some(episode)
  }

  predicate IsNote(r: Record, episode: string) {
    Belongs(r, episode) && r.kind.IncidentNote?
  }

  predicate IsRecovery(r: Record, episode: string) {
    IsNote(r, episode) && r.kind.state == "recovered"
  }

  function LastNote(records: seq<Record>, episode: string): Option<Record> {
    if records == [] then None
    else if IsNote(records[|records| - 1], episode) then Some(records[|records| - 1])
    else LastNote(records[..|records| - 1], episode)
  }

  function LastRecovery(records: seq<Record>, episode: string): Option<Record> {
    if records == [] then None
    else if IsRecovery(records[|records| - 1], episode) then Some(records[|records| - 1])
    else LastRecovery(records[..|records| - 1], episode)
  }

  ghost predicate LastNoteAt(records: seq<Record>, episode: string, i: nat) {
    i < |records| && IsNote(records[i], episode) && forall j :: i < j < |records| ==> !IsNote(records[j], episode)
  }

  /** Which record that is. */
  lemma {:induction false} LastNoteIsLast(records: seq<Record>, episode: string) returns (i: nat)
    ensures match LastNote(records, episode)
      case None => forall k :: 0 <= k < |records| ==> !IsNote(records[k], episode)
      case Some(r) => LastNoteAt(records, episode, i) && records[i] == r
  {
    i := 0;
    if records != [] {
      i := |records| - 1;
      if !IsNote(records[i], episode) {
        i := LastNoteIsLast(records[..|records| - 1], episode);
      }
    }
  }

  lemma LastNoteSnoc(front: seq<Record>, r: Record, episode: string)
    ensures LastNote(front + [r], episode) == if IsNote(r, episode) then Some(r) else LastNote(front, episode)
    ensures LastRecovery(front + [r], episode) == if IsRecovery(r, episode) then Some(r) else LastRecovery(front, episode)
  {
    assert (front + [r])[..|front|] == front;
  }

  /** The times of an episode's records, in order. */
  function EpisodeTimes(records: seq<Record>, episode: string): seq<int> {
    if records == [] then []
    else
      var r := records[|records| - 1];
      EpisodeTimes(records[..|records| - 1], episode) + if Belongs(r, episode) then [r.observedAt] else []
  }

  ghost predicate IsLatest(times: seq<int>, latest: int) {
    latest in times && forall i :: 0 <= i < |times| ==> times[i] <= latest
  }

  /** The record that opens an episode's incident. */
  function FirstRecord(records: seq<Record>, episode: string): Option<Record> {
    if records == [] then None
    else
      var front := FirstRecord(records[..|records| - 1], episode);
      if front == None && Belongs(records[|records| - 1], episode) then Some(records[|records| - 1]) else front
  }

  /** Which record that is. */
  lemma {:induction false} FirstRecordIsFirst(records: seq<Record>, episode: string) returns (i: nat)
    ensures match FirstRecord(records, episode)
      case None => forall k :: 0 <= k < |records| ==> !Belongs(records[k], episode)
      case Some(r) =>
        && i < |records| && records[i] == r && Belongs(r, episode)
        && forall k :: 0 <= k < i ==> !Belongs(records[k], episode)
  {
    i := 0;
    if records != [] {
      var n := |records| - 1;
      i := FirstRecordIsFirst(records[..n], episode);
      if FirstRecord(records[..n], episode) == None {
        i := n;
      }
    }
  }

  /** An incident is about what its first record is about. */
  ghost predicate BeginsAs(i: Incident, first: Option<Record>) {
    first.Some? && i.resource == first.value.resource && i.rule == first.value.rule && i.firstSeen == first.value.observedAt
  }

  /** An incident ends as its records say: the last note's state, or open without a note; the last recovery; the latest time. */
  ghost predicate EndsAs(i: Incident, state: string, recovery: Option<Record>, times: seq<int>) {
    && i.state == state
    && i.recoveredAt == (if recovery.Some? then Some(recovery.value.observedAt) else None)
    && IsLatest(times, i.lastSeen)
  }

  function StateOf(note: Option<Record>): string {
    if note.Some? && note.value.kind.IncidentNote? then note.value.kind.state else "open"
  }

  ghost predicate AllEndAs(incidents: map<string, Incident>, records: seq<Record>, episode: string) {
    && (episode in incidents <==> FirstRecord(records, episode).Some?)
    && (episode in incidents ==>
          && BeginsAs(incidents[episode], FirstRecord(records, episode))
          && EndsAs(incidents[episode], StateOf(LastNote(records, episode)), LastRecovery(records, episode), EpisodeTimes(records, episode)))
  }

  lemma LatestSnoc(times: seq<int>, latest: int, t: int)
    requires IsLatest(times, latest)
    ensures IsLatest(times + [t], Max(latest, t))
  {
    assert (times + [t])[|times|] == t;
    var k :| 0 <= k < |times| && times[k] == latest;
    assert (times + [t])[k] == latest;
  }

  lemma OneMoreEnds(incidents: map<string, Incident>, front: seq<Record>, r: Record, episode: string)
    requires AllEndAs(incidents, front, episode) && episode != ""
    requires episode !in incidents ==>
      LastNote(front, episode) == None && LastRecovery(front, episode) == None && EpisodeTimes(front, episode) == []
    ensures AllEndAs(Evidenced(incidents, r), front + [r], episode)
  {
    var times := EpisodeTimes(front, episode);
    assert (front + [r])[..|front|] == front && times + [] == times;
    LastNoteSnoc(front, r, episode);
    if Belongs(r, episode) {
      if episode in incidents {
        LatestSnoc(times, incidents[episode].lastSeen, r.observedAt);
      } else {
        assert times + [r.observedAt] == [r.observedAt];
      }
    }
  }

  lemma {:induction false} NoFirstNoOther(records: seq<Record>, episode: string)
    requires FirstRecord(records, episode) == None
    ensures LastNote(records, episode) == None && LastRecovery(records, episode) == None && EpisodeTimes(records, episode) == []
  {
    if records != [] {
      NoFirstNoOther(records[..|records| - 1], episode);
    }
  }

  /**
   * Over any records an incident is about the resource and the rule of the first record of its episode, first
   * seen then; it ends in the state of the last note, open if there is none, with the time of its last
   * recovery and the latest time of any record.
   */
  lemma {:induction false} IncidentsEndExactly(records: seq<Record>, episode: string)
    requires episode != ""
    ensures AllEndAs(CommitAll(NOTHING, records).incidents, records, episode)
  {
    if records != [] {
      var n := |records| - 1;
      var r, front := records[n], records[..n];
      var before := CommitAll(NOTHING, front).incidents;
      assert records == front + [r];
      IncidentsEndExactly(front, episode);
      if episode !in before {
        NoFirstNoOther(front, episode);
      }
      OneMoreEnds(before, front, r, episode);
      assert CommitAll(NOTHING, records).incidents == Evidenced(before, r);
    }
  }

  /** Record `i` is the first among the newest records of its subject. */
  ghost predicate NewestAt(records: seq<Record>, subject: Subject, i: nat) {
    && i < |records| && SubjectOf(records[i]) == subject
    && (forall j :: 0 <= j < |records| && SubjectOf(records[j]) == subject ==> records[j].observedAt <= records[i].observedAt)
    && (forall j :: 0 <= j < i && SubjectOf(records[j]) == subject ==> records[j].observedAt < records[i].observedAt)
  }

  ghost predicate IsNewest(records: seq<Record>, subject: Subject, r: Record) {
    exists i: nat :: NewestAt(records, subject, i) && records[i] == r
  }

  ghost predicate HasSubject(records: seq<Record>, subject: Subject) {
    exists i :: 0 <= i < |records| && SubjectOf(records[i]) == subject
  }

  lemma SubjectGrows(front: seq<Record>, r: Record, subject: Subject)
    ensures HasSubject(front + [r], subject) <==> HasSubject(front, subject) || SubjectOf(r) == subject
  {
    var records := front + [r];
    assert records[|front|] == r;
    if HasSubject(front, subject) {
      var k :| 0 <= k < |front| && SubjectOf(front[k]) == subject;
      assert SubjectOf(records[k]) == subject;
    }
  }

  /** The newest record stays when a later one is of another subject or not newer, and gives way to a newer one. */
  lemma NewestGrows(front: seq<Record>, r: Record, subject: Subject, i: nat)
    requires NewestAt(front, subject, i)
    ensures if SubjectOf(r) == subject && front[i].observedAt < r.observedAt then NewestAt(front + [r], subject, |front|)
      else NewestAt(front + [r], subject, i)
  {
    var records := front + [r];
    assert forall j :: 0 <= j < |front| ==> records[j] == front[j];
  }

  lemma FirstIsNewest(front: seq<Record>, r: Record, subject: Subject)
    requires !HasSubject(front, subject) && SubjectOf(r) == subject
    ensures NewestAt(front + [r], subject, |front|)
  {
    var records := front + [r];
    forall j | 0 <= j < |front| ensures SubjectOf(records[j]) != subject {
      assert records[j] == front[j];
    }
  }

  lemma ProjectedSubject(before: map<Subject, Record>, r: Record, subject: Subject)
    ensures var after := Projected(before, r);
      && (subject in after <==> subject in before || SubjectOf(r) == subject)
      && (subject in before ==>
            after[subject] == if SubjectOf(r) == subject && before[subject].observedAt < r.observedAt then r else before[subject])
      && (subject !in before && SubjectOf(r) == subject ==> after[subject] == r)
  {
  }

  lemma NewestIsExtended(front: seq<Record>, r: Record, subject: Subject, kept: Record)
    requires IsNewest(front, subject, kept)
    ensures IsNewest(front + [r], subject,
      if SubjectOf(r) == subject && kept.observedAt < r.observedAt then r else kept)
  {
    var i: nat :| NewestAt(front, subject, i) && front[i] == kept;
    NewestGrows(front, r, subject, i);
    assert (front + [r])[i] == kept && (front + [r])[|front|] == r;
  }

  /** Each subject's projection is its newest record, the first of them if several are equally new. */
  lemma {:induction false} ProjectionsAreNewest(records: seq<Record>, subject: Subject)
    ensures var projections := CommitAll(NOTHING, records).projections;
      && (subject in projections <==> HasSubject(records, subject))
      && (subject in projections ==> IsNewest(records, subject, projections[subject]))
  {
    if records != [] {
      var n := |records| - 1;
      var r, front := records[n], records[..n];
      assert records == front + [r];
      ProjectionsAreNewest(front, subject);
      SubjectGrows(front, r, subject);
      var before := CommitAll(NOTHING, front).projections;
      assert CommitAll(NOTHING, records).projections == Projected(before, r);
      ProjectedSubject(before, r, subject);
      if subject in before {
        NewestIsExtended(front, r, subject, before[subject]);
      } else if SubjectOf(r) == subject {
        FirstIsNewest(front, r, subject);
        assert records[n] == r;
      }
    }
  }

  /** A record that names no episode, or an empty one, opens no incident. */
  lemma {:induction false} NoIncidentWithoutEpisode(records: seq<Record>)
    ensures "" !in CommitAll(NOTHING, records).incidents
  {
    if records != [] {
      NoIncidentWithoutEpisode(records[..|records| - 1]);
    }
  }

  predicate ObservedAt(r: Record, resource: string) {
    r.kind.Observation? && r.resource == resource
  }

  /** A resource's projection is an observation of it, and an episode's is a note of it; each there is exactly if there is such a record. */
  lemma ProjectionsByKind(records: seq<Record>, resource: string, episode: Option<string>)
    ensures var projections := CommitAll(NOTHING, records).projections;
      && (OfResource(resource) in projections <==> exists i :: 0 <= i < |records| && ObservedAt(records[i], resource))
      && (OfResource(resource) in projections ==> ObservedAt(projections[OfResource(resource)], resource))
      && (OfEpisode(episode) in projections <==> exists i :: 0 <= i < |records| && records[i].kind.IncidentNote? && records[i].episode == episode)
      && (OfEpisode(episode) in projections ==>
            projections[OfEpisode(episode)].kind.IncidentNote? && projections[OfEpisode(episode)].episode == episode)
  {
    ProjectionsAreNewest(records, OfResource(resource));
    ProjectionsAreNewest(records, OfEpisode(episode));
    assert forall i :: 0 <= i < |records| ==>
      (SubjectOf(records[i]) == OfResource(resource) <==> ObservedAt(records[i], resource));
  }

  /** Whatever the crashes, once nothing is pending each projection is its subject's newest stored record. */
  lemma PublishedProjectionsAreNewest(max: nat, steps: seq<Step>, subject: Subject)
    requires Pending(Run(max, steps).journal.entries, BATCH) == []
    ensures var w := Run(max, steps);
      && (subject in w.db.projections <==> HasSubject(w.stored, subject))
      && (subject in w.db.projections ==> IsNewest(w.stored, subject, w.db.projections[subject]))
  {
    PublishingConverges(max, steps);
    ProjectionsAreNewest(Run(max, steps).stored, subject);
  }

  /**
   * So it is after any arrivals and any cycles over batches, wherever they were interrupted: once nothing
   * is pending each incident counts its distinct stored records and ends as they say, and each projection is
   * its subject's newest.
   */
  lemma CyclesPublishExactly(max: nat, doings: seq<Doing>, episode: string, subject: Subject)
    requires episode != "" && Pending(Worked(max, doings).journal.entries, BATCH) == []
    ensures var w := Worked(max, doings);
      && (episode in w.db.incidents <==> EpisodeIds(w.stored, episode) != [])
      && (episode in w.db.incidents ==> w.db.incidents[episode].count == |EpisodeIds(w.stored, episode)|)
      && AllEndAs(w.db.incidents, w.stored, episode)
      && (subject in w.db.projections <==> HasSubject(w.stored, subject))
      && (subject in w.db.projections ==> IsNewest(w.stored, subject, w.db.projections[subject]))
  {
    CyclesConverge(max, doings);
    IncidentsEndExactly(Worked(max, doings).stored, episode);
    var steps := WorkIsSteps(max, doings);
    PublishedCountsAreExact(max, steps, episode);
    PublishedProjectionsAreNewest(max, steps, subject);
  }
}
