/**
 * The bounded local journal of diagnostic records: appended with a sequence number, acknowledged
 * once published, collected a week later, and closed to new records when full.
 */
module DiagnosticJournal {
  import opened Options
  import Sorting
  import Text

  /** A record is an observation of a resource, or a note that an episode opened or recovered; a note always names its episode. */
  datatype Kind = Observation | IncidentNote(state: string)

  datatype Record = Record(id: string, kind: Kind, resource: string, rule: string, observedAt: int, episode: Option<string>)

  datatype Entry = Entry(record: Record, bytes: nat, acknowledged: bool, createdAt: int, sequence: nat)

  /** The table, the drop counter kept in it, and the counter in the marker file, if the file exists. */
  datatype Journal = Journal(entries: seq<Entry>, dropped: nat, marker: Option<nat>)

  const WEEK := 7 * 86400

  datatype AppendResult = Stored | AlreadyStored | Full

  /** What the disk does to one append: reject the row, and reject the counter. */
  datatype Disk = Disk(rejectsRow: bool, rejectsCounter: bool)

  function BytesOf(entries: seq<Entry>): nat {
    if entries == [] then 0 else BytesOf(entries[..|entries| - 1]) + entries[|entries| - 1].bytes
  }

  function MaxSequence(entries: seq<Entry>): (m: nat)
    ensures forall i :: 0 <= i < |entries| ==> entries[i].sequence <= m
  {
    if entries == [] then 0
    else
      var m := MaxSequence(entries[..|entries| - 1]);
      if m < entries[|entries| - 1].sequence then entries[|entries| - 1].sequence else m
  }

  predicate Holds(entries: seq<Entry>, id: string) {
    exists i :: 0 <= i < |entries| && entries[i].record.id == id
  }

  /** Acknowledged entries are collected after a week. */
  function Collected(entries: seq<Entry>, now: int): seq<Entry> {
    Sorting.Filter((e: Entry) => !(e.acknowledged && e.createdAt < now - WEEK), entries)
  }

  function Larger(a: nat, b: Option<nat>): nat {
    if b.Some? && b.value > a then b.value else a
  }

  /** Refusing a record: the marker always counts it; the table keeps the count and the collection unless it rejects the counter. */
  function Refused(j: Journal, collected: seq<Entry>, d: Disk): Journal {
    var dropped := Larger(j.dropped, j.marker) + 1;
    if d.rejectsCounter then j.(marker := Some(dropped))
    else Journal(collected, dropped, Some(dropped))
  }

  function Appended(j: Journal, max: nat, r: Record, bytes: nat, now: int, d: Disk): (Journal, AppendResult) {
    if Holds(j.entries, r.id) then (j, AlreadyStored)
    else
      var collected := Collected(j.entries, now);
      if BytesOf(collected) + bytes > max || d.rejectsRow then (Refused(j, collected, d), Full)
      else (Journal(collected + [Entry(r, bytes, false, now, MaxSequence(collected) + 1)], j.dropped, None), Stored)
  }

  function Acknowledge(entries: seq<Entry>, id: string): (acked: seq<Entry>)
    ensures |acked| == |entries|
  {
    seq(|entries|, i requires 0 <= i < |entries| => Acked(entries[i], id))
  }

  function Acked(e: Entry, id: string): Entry {
    if e.record.id == id then e.(acknowledged := true) else e
  }

  /** The order of the query: sequence, then creation time, then identifier. */
  predicate EntryLe(a: Entry, b: Entry) {
    if a.sequence != b.sequence then a.sequence < b.sequence
    else if a.createdAt != b.createdAt then a.createdAt < b.createdAt
    else Text.StringLe(a.record.id, b.record.id)
  }

  function Unacknowledged(entries: seq<Entry>): seq<Entry> {
    Sorting.Filter((e: Entry) => !e.acknowledged, entries)
  }

  function Records(entries: seq<Entry>): (records: seq<Record>)
    ensures |records| == |entries| && forall i :: 0 <= i < |entries| ==> records[i] == entries[i].record
  {
    seq(|entries|, i requires 0 <= i < |entries| => entries[i].record)
  }

  function Take<T>(s: seq<T>, limit: nat): seq<T> {
    if |s| > limit then s[..limit] else s
  }

  function Pending(entries: seq<Entry>, limit: nat): seq<Record> {
    Records(Take(Sorting.SortBy(EntryLe, Unacknowledged(entries)), limit))
  }

  datatype HealthReport = HealthReport(full: bool, dropped: nat, pending: nat, used: nat)

  class DiagnosticSpool {
    const max: nat
    var entries: seq<Entry>
    var dropped: nat
    var marker: Option<nat>

    ghost function View(): Journal
      reads this
    {
      Journal(entries, dropped, marker)
    }

    constructor (max: nat)
      ensures this.max == max && View() == Journal([], 0, None)
    {
      this.max, entries, dropped, marker := max, [], 0, None;
    }

    method Append(r: Record, bytes: nat, now: int, d: Disk) returns (result: AppendResult)
      modifies this
      ensures (View(), result) == Appended(old(View()), max, r, bytes, now, d)
    {
      if exists i :: 0 <= i < |entries| && entries[i].record.id == r.id {
        return AlreadyStored;
      }
      var before := entries;
      entries := Collected(entries, now);
      var used := SumBytes(entries);
      if used + bytes > max || d.rejectsRow {
        MarkFull(d);
        if d.rejectsCounter {
          // The raised error rolls the whole transaction back.
          entries := before;
        }
        return Full;
      }
      var sequence := MaxSequence(entries) + 1;
      entries := entries + [Entry(r, bytes, false, now, sequence)];
      marker := None;
      result := Stored;
    }

    method MarkFull(d: Disk)
      modifies this`dropped, this`marker
      ensures marker == Some(Larger(old(dropped), old(marker)) + 1)
      ensures dropped == if d.rejectsCounter then old(dropped) else Larger(old(dropped), old(marker)) + 1
    {
      var count := if marker.Some? && marker.value > dropped then marker.value else dropped;
      count := count + 1;
      marker := Some(count);
      if !d.rejectsCounter {
        dropped := count;
      }
    }

    method ListPending(limit: nat) returns (records: seq<Record>)
      ensures records == Pending(entries, limit)
      ensures Inv(View(), max) ==> records == Take(Records(Unacknowledged(entries)), limit)
    {
      records := Records(Take(Sorting.SortBy(EntryLe, Unacknowledged(entries)), limit));
      if Inv(View(), max) {
        PendingIsAppendOrder(View(), max, limit);
      }
    }

    method Ack(id: string)
      modifies this`entries
      ensures entries == Acknowledge(old(entries), id)
    {
      var done: seq<Entry> := [];
      for i := 0 to |entries|
        invariant entries == old(entries)
        invariant |done| == i && forall k :: 0 <= k < i ==> done[k] == Acknowledge(entries, id)[k]
      {
        done := done + [if entries[i].record.id == id then entries[i].(acknowledged := true) else entries[i]];
      }
      assert done == Acknowledge(entries, id);
      entries := done;
    }

    method Health() returns (report: HealthReport)
      ensures report == HealthReport(marker.Some?, Larger(dropped, marker), |Unacknowledged(entries)|, BytesOf(entries))
    {
      var used := SumBytes(entries);
      report := HealthReport(
        marker.Some?, if marker.Some? && marker.value > dropped then marker.value else dropped,
        |Unacknowledged(entries)|, used);
    }
  }

  method SumBytes(entries: seq<Entry>) returns (total: nat)
    ensures total == BytesOf(entries)
  {
    total := 0;
    for i := 0 to |entries|
      invariant total == BytesOf(entries[..i])
    {
      assert entries[..i + 1][..i] == entries[..i];
      total := total + entries[i].bytes;
    }
    assert entries[..|entries|] == entries;
  }

  // ---------------------------------------------------------------- what every operation keeps

  ghost predicate Ascending(entries: seq<Entry>) {
    forall i, j :: 0 <= i < j < |entries| ==> entries[i].sequence < entries[j].sequence
  }

  ghost predicate DistinctIds(entries: seq<Entry>) {
    forall i, j :: 0 <= i < j < |entries| ==> entries[i].record.id != entries[j].record.id
  }

  ghost predicate Inv(j: Journal, max: nat) {
    Ascending(j.entries) && DistinctIds(j.entries) && BytesOf(j.entries) <= max
  }

  lemma {:induction false} FilterMembers(keep: Entry -> bool, entries: seq<Entry>, e: Entry)
    ensures e in Sorting.Filter(keep, entries) <==> e in entries && keep(e)
  {
    if entries != [] {
      var n := |entries| - 1;
      FilterMembers(keep, entries[..n], e);
      assert entries == entries[..n] + [entries[n]];
    }
  }

  lemma SnocKeepsOrder(entries: seq<Entry>, e: Entry)
    requires Ascending(entries) && DistinctIds(entries)
    requires forall x :: x in entries ==> x.sequence < e.sequence && x.record.id != e.record.id
    ensures Ascending(entries + [e]) && DistinctIds(entries + [e])
  {
  }

  lemma {:induction false} FilterKeepsBytes(keep: Entry -> bool, entries: seq<Entry>)
    ensures BytesOf(Sorting.Filter(keep, entries)) <= BytesOf(entries)
  {
    if entries != [] {
      var n := |entries| - 1;
      FilterKeepsBytes(keep, entries[..n]);
      var kept := Sorting.Filter(keep, entries[..n]);
      assert (kept + [entries[n]])[..|kept|] == kept && kept + [] == kept;
    }
  }

  lemma KeptAreBefore(keep: Entry -> bool, front: seq<Entry>, last: Entry)
    requires Ascending(front + [last]) && DistinctIds(front + [last])
    ensures forall e :: e in Sorting.Filter(keep, front) ==> e.sequence < last.sequence && e.record.id != last.record.id
  {
    var entries := front + [last];
    forall e | e in Sorting.Filter(keep, front) ensures e.sequence < last.sequence && e.record.id != last.record.id {
      FilterMembers(keep, front, e);
      var k :| 0 <= k < |front| && front[k] == e;
      assert entries[k] == e && entries[|front|] == last;
    }
  }

  /** Filtering keeps the order and the distinctness. */
  lemma {:induction false} FilterKeeps(keep: Entry -> bool, entries: seq<Entry>)
    requires Ascending(entries) && DistinctIds(entries)
    ensures Ascending(Sorting.Filter(keep, entries)) && DistinctIds(Sorting.Filter(keep, entries))
  {
    if entries != [] {
      var n := |entries| - 1;
      FilterKeeps(keep, entries[..n]);
      var kept := Sorting.Filter(keep, entries[..n]);
      if keep(entries[n]) {
        assert entries[..n] + [entries[n]] == entries;
        KeptAreBefore(keep, entries[..n], entries[n]);
        SnocKeepsOrder(kept, entries[n]);
      } else {
        assert kept + [] == kept;
      }
    }
  }

  lemma {:induction false} FilterAppend<T>(keep: T -> bool, s: seq<T>, t: seq<T>)
    ensures Sorting.Filter(keep, s + t) == Sorting.Filter(keep, s) + Sorting.Filter(keep, t)
    decreases |t|
  {
    if t == [] {
      assert s + t == s;
    } else {
      assert (s + t)[..|s + t| - 1] == s + t[..|t| - 1];
      FilterAppend(keep, s, t[..|t| - 1]);
    }
  }

  /** Collecting acknowledged entries removes no unacknowledged one and keeps their order. */
  lemma {:induction false} CollectingSparesUnacknowledged(entries: seq<Entry>, now: int)
    ensures Unacknowledged(Collected(entries, now)) == Unacknowledged(entries)
  {
    if entries != [] {
      var n := |entries| - 1;
      CollectingSparesUnacknowledged(entries[..n], now);
      var keep := (e: Entry) => !(e.acknowledged && e.createdAt < now - WEEK);
      var open := (e: Entry) => !e.acknowledged;
      assert [entries[n]][..0] == [];
      assert Sorting.Filter(open, [entries[n]]) == if open(entries[n]) then [entries[n]] else [];
      assert Sorting.Filter(open, []) == [];
      FilterAppend(open, Collected(entries[..n], now), if keep(entries[n]) then [entries[n]] else []);
    }
  }

  lemma AppendKeeps(j: Journal, max: nat, r: Record, bytes: nat, now: int, d: Disk)
    requires Inv(j, max)
    ensures Inv(Appended(j, max, r, bytes, now, d).0, max)
  {
    var keep := (e: Entry) => !(e.acknowledged && e.createdAt < now - WEEK);
    FilterKeeps(keep, j.entries);
    FilterKeepsBytes(keep, j.entries);
    var collected := Collected(j.entries, now);
    var (j', result) := Appended(j, max, r, bytes, now, d);
    if result == Stored {
      var e := j'.entries[|collected|];
      assert j'.entries[..|collected|] == collected;
      forall x | x in collected ensures x.sequence < e.sequence && x.record.id != r.id {
        FilterMembers(keep, j.entries, x);
      }
      SnocKeepsOrder(collected, e);
    }
  }

  lemma {:induction false} AcknowledgeKeepsBytes(entries: seq<Entry>, id: string)
    ensures BytesOf(Acknowledge(entries, id)) == BytesOf(entries)
  {
    if entries != [] {
      AcknowledgeKeepsBytes(entries[..|entries| - 1], id);
      assert Acknowledge(entries, id)[..|entries| - 1] == Acknowledge(entries[..|entries| - 1], id);
    }
  }

  lemma AckKeeps(j: Journal, max: nat, id: string)
    requires Inv(j, max)
    ensures Inv(j.(entries := Acknowledge(j.entries, id)), max)
  {
    AcknowledgeKeepsBytes(j.entries, id);
  }

  // ---------------------------------------------------------------- pending records

  lemma EntryOrderIsTotal()
    ensures Sorting.TotalOrder(EntryLe)
  {
    forall a, b ensures EntryLe(a, b) || EntryLe(b, a) {
      Text.StringOrderIsTotal(a.record.id, b.record.id);
    }
    forall a, b, c | EntryLe(a, b) && EntryLe(b, c) ensures EntryLe(a, c) {
      if (a.sequence, a.createdAt) == (b.sequence, b.createdAt) == (c.sequence, c.createdAt) {
        Text.StringOrderIsTransitive(a.record.id, b.record.id, c.record.id);
      }
    }
  }

  lemma AscendingIsSorted(entries: seq<Entry>)
    requires Ascending(entries)
    ensures Sorting.Sorted(EntryLe, entries) && Sorting.NoTies(EntryLe, entries)
  {
    forall i, j | 0 <= i <= j < |entries| ensures EntryLe(entries[i], entries[j]) {
      Text.StringOrderIsTotal(entries[i].record.id, entries[j].record.id);
    }
    forall a, b | a in multiset(entries) && b in multiset(entries) && EntryLe(a, b) && EntryLe(b, a) ensures a == b {
      var i :| 0 <= i < |entries| && entries[i] == a;
      var j :| 0 <= j < |entries| && entries[j] == b;
      SequenceIdentifies(entries, i, j);
    }
  }

  lemma SequenceIdentifies(entries: seq<Entry>, i: nat, j: nat)
    requires Ascending(entries) && i < |entries| && j < |entries|
    requires entries[i].sequence == entries[j].sequence
    ensures i == j
  {
  }

  lemma WaitingIsSorted(entries: seq<Entry>)
    requires Ascending(entries) && DistinctIds(entries)
    ensures Sorting.SortBy(EntryLe, Unacknowledged(entries)) == Unacknowledged(entries)
  {
    FilterKeeps((e: Entry) => !e.acknowledged, entries);
    EntryOrderIsTotal();
    AscendingIsSorted(Unacknowledged(entries));
    Sorting.SortedStays(EntryLe, Unacknowledged(entries));
  }

  lemma RecordsOfTake(entries: seq<Entry>, limit: nat)
    ensures Records(Take(entries, limit)) == Take(Records(entries), limit)
  {
  }

  /** Ordering by sequence yields the append order, although numbers freed by collection are used again. */
  lemma PendingIsAppendOrder(j: Journal, max: nat, limit: nat)
    requires Inv(j, max)
    ensures Pending(j.entries, limit) == Take(Records(Unacknowledged(j.entries)), limit)
  {
    WaitingIsSorted(j.entries);
    RecordsOfTake(Unacknowledged(j.entries), limit);
  }

  // ---------------------------------------------------------------- runs

  datatype Op =
    | AppendOp(r: Record, bytes: nat, now: int, d: Disk)
    | AckOp(id: string)

  /** The journal, the records it has stored in order, how many it refused, and the identifiers acknowledged after being stored. */
  datatype History = History(journal: Journal, stored: seq<Record>, acked: set<string>, refused: nat)

  function Run(max: nat, ops: seq<Op>): History {
    if ops == [] then History(Journal([], 0, None), [], {}, 0)
    else
      var h := Run(max, ops[..|ops| - 1]);
      match ops[|ops| - 1]
      case AckOp(id) => h.(journal := h.journal.(entries := Acknowledge(h.journal.entries, id)), acked := h.acked + {id})
      case AppendOp(r, bytes, now, d) =>
        var (j, result) := Appended(h.journal, max, r, bytes, now, d);
        h.(journal := j,
           stored := if result == Stored then h.stored + [r] else h.stored,
           refused := if result == Full then h.refused + 1 else h.refused)
  }

  /** Records whose identifiers are not among the acknowledged. */
  function Waiting(stored: seq<Record>, acked: set<string>): seq<Record> {
    Sorting.Filter((r: Record) => r.id !in acked, stored)
  }

  lemma UnacknowledgedSnoc(entries: seq<Entry>, e: Entry)
    ensures Records(Unacknowledged(entries + [e]))
      == Records(Unacknowledged(entries)) + if e.acknowledged then [] else [e.record]
  {
    assert (entries + [e])[..|entries|] == entries;
    var before := Unacknowledged(entries);
    assert before + [] == before;
    assert Records(before + [e]) == Records(before) + [e.record];
  }

  lemma AppendedUnacknowledged(j: Journal, max: nat, r: Record, bytes: nat, now: int, d: Disk)
    ensures var (j', result) := Appended(j, max, r, bytes, now, d);
      Records(Unacknowledged(j'.entries)) ==
        Records(Unacknowledged(j.entries)) + if result == Stored then [r] else []
  {
    var (j', result) := Appended(j, max, r, bytes, now, d);
    var collected := Collected(j.entries, now);
    CollectingSparesUnacknowledged(j.entries, now);
    assert Records(Unacknowledged(j.entries)) + [] == Records(Unacknowledged(j.entries));
    if result == Stored {
      UnacknowledgedSnoc(collected, j'.entries[|collected|]);
    }
  }

  lemma FilterSnoc<T>(keep: T -> bool, s: seq<T>, x: T)
    ensures Sorting.Filter(keep, s + [x]) == Sorting.Filter(keep, s) + if keep(x) then [x] else []
  {
    assert (s + [x])[..|s|] == s;
  }

  lemma {:induction false} FilterTwice<T>(one: T -> bool, two: T -> bool, both: T -> bool, s: seq<T>)
    requires forall x :: both(x) <==> one(x) && two(x)
    ensures Sorting.Filter(one, Sorting.Filter(two, s)) == Sorting.Filter(both, s)
  {
    if s != [] {
      var n := |s| - 1;
      FilterTwice(one, two, both, s[..n]);
      if two(s[n]) {
        FilterSnoc(one, Sorting.Filter(two, s[..n]), s[n]);
      } else {
        assert Sorting.Filter(two, s) == Sorting.Filter(two, s[..n]);
      }
    }
  }

  lemma AcknowledgeSnoc(front: seq<Entry>, e: Entry, id: string)
    ensures Acknowledge(front + [e], id) == Acknowledge(front, id) + [Acked(e, id)]
  {
  }

  lemma AcknowledgedSnoc(front: seq<Entry>, e: Entry, id: string)
    requires Records(Unacknowledged(Acknowledge(front, id))) == Sorting.Filter((r: Record) => r.id != id, Records(Unacknowledged(front)))
    ensures Records(Unacknowledged(Acknowledge(front + [e], id)))
      == Sorting.Filter((r: Record) => r.id != id, Records(Unacknowledged(front + [e])))
  {
    var waiting := Records(Unacknowledged(front));
    AcknowledgeSnoc(front, e, id);
    UnacknowledgedSnoc(front, e);
    UnacknowledgedSnoc(Acknowledge(front, id), Acked(e, id));
    FilterSnoc((r: Record) => r.id != id, waiting, e.record);
    assert waiting + [] == waiting;
  }

  lemma {:induction false} AcknowledgedWaiting(entries: seq<Entry>, id: string)
    ensures Records(Unacknowledged(Acknowledge(entries, id)))
      == Sorting.Filter((r: Record) => r.id != id, Records(Unacknowledged(entries)))
  {
    if entries != [] {
      var n := |entries| - 1;
      AcknowledgedWaiting(entries[..n], id);
      AcknowledgedSnoc(entries[..n], entries[n], id);
      assert entries == entries[..n] + [entries[n]];
    }
  }

  /** Fresh identifiers: no identifier is appended twice, nor acknowledged before it was appended. */
  ghost predicate FreshIdentifiers(max: nat, ops: seq<Op>) {
    forall i :: 0 <= i < |ops| && ops[i].AppendOp? ==> ops[i].r.id !in Run(max, ops[..i]).acked
  }

  /** After any run, whatever its identifiers, the stored bytes are within the bound and the order of the entries is that of their numbers. */
  lemma {:induction false} BoundsAlwaysHold(max: nat, ops: seq<Op>)
    ensures Inv(Run(max, ops).journal, max)
  {
    if ops != [] {
      var n := |ops| - 1;
      var j := Run(max, ops[..n]).journal;
      BoundsAlwaysHold(max, ops[..n]);
      match ops[n]
      case AckOp(id) => AckKeeps(j, max, id);
      case AppendOp(r, bytes, now, d) => AppendKeeps(j, max, r, bytes, now, d);
    }
  }

  /**
   * After any run the unacknowledged records are exactly the stored and never acknowledged ones, in
   * append order: none is ever deleted.
   */
  lemma {:induction false} NothingUnacknowledgedIsLost(max: nat, ops: seq<Op>)
    requires FreshIdentifiers(max, ops)
    ensures var h := Run(max, ops);
      Records(Unacknowledged(h.journal.entries)) == Waiting(h.stored, h.acked)
  {
    if ops != [] {
      var n := |ops| - 1;
      var h := Run(max, ops[..n]);
      FreshBefore(max, ops);
      NothingUnacknowledgedIsLost(max, ops[..n]);
      match ops[n]
      case AckOp(id) => AckWaiting(h, id);
      case AppendOp(r, bytes, now, d) =>
        assert r.id !in h.acked;
        AppendWaiting(h, max, r, bytes, now, d);
    }
  }

  lemma FreshBefore(max: nat, ops: seq<Op>)
    requires ops != [] && FreshIdentifiers(max, ops)
    ensures FreshIdentifiers(max, ops[..|ops| - 1])
  {
    var front := ops[..|ops| - 1];
    forall i | 0 <= i < |front| && front[i].AppendOp? ensures front[i].r.id !in Run(max, front[..i]).acked {
      assert front[..i] == ops[..i];
    }
  }

  lemma AckWaiting(h: History, id: string)
    requires Records(Unacknowledged(h.journal.entries)) == Waiting(h.stored, h.acked)
    ensures Records(Unacknowledged(Acknowledge(h.journal.entries, id))) == Waiting(h.stored, h.acked + {id})
  {
    AcknowledgedWaiting(h.journal.entries, id);
    FilterTwice((r: Record) => r.id != id, (r: Record) => r.id !in h.acked, (r: Record) => r.id !in h.acked + {id}, h.stored);
  }

  lemma AppendWaiting(h: History, max: nat, r: Record, bytes: nat, now: int, d: Disk)
    requires Records(Unacknowledged(h.journal.entries)) == Waiting(h.stored, h.acked) && r.id !in h.acked
    ensures var (j, result) := Appended(h.journal, max, r, bytes, now, d);
      Records(Unacknowledged(j.entries)) == Waiting(if result == Stored then h.stored + [r] else h.stored, h.acked)
  {
    var (j, result) := Appended(h.journal, max, r, bytes, now, d);
    AppendedUnacknowledged(h.journal, max, r, bytes, now, d);
    FilterSnoc((x: Record) => x.id !in h.acked, h.stored, r);
    assert Waiting(h.stored, h.acked) + [] == Waiting(h.stored, h.acked);
  }

  /** What `pending` returns after any run: the oldest unacknowledged records, in append order. */
  lemma PendingAfterAnyRun(max: nat, ops: seq<Op>, limit: nat)
    requires FreshIdentifiers(max, ops)
    ensures var h := Run(max, ops);
      Pending(h.journal.entries, limit) == Take(Waiting(h.stored, h.acked), limit)
  {
    NothingUnacknowledgedIsLost(max, ops);
    BoundsAlwaysHold(max, ops);
    PendingIsAppendOrder(Run(max, ops).journal, max, limit);
  }

  /** A sequence number freed by collection is given out again. */
  lemma SequenceNumbersAreReused(max: nat, a: Record, b: Record)
    requires max >= 1 && a.id != b.id
    ensures var disk := Disk(false, false);
      var h := Run(max, [AppendOp(a, 1, 0, disk), AckOp(a.id), AppendOp(b, 1, WEEK + 1, disk)]);
      h.journal.entries == [Entry(b, 1, false, WEEK + 1, 1)] && h.stored == [a, b]
  {
    var disk := Disk(false, false);
    var ops := [AppendOp(a, 1, 0, disk), AckOp(a.id), AppendOp(b, 1, WEEK + 1, disk)];
    assert ops[..2] == [ops[0], ops[1]] && ops[..2][..1] == [ops[0]] && ops[..1][..0] == [];
    var e := Entry(a, 1, false, 0, 1);
    assert Run(max, []) == History(Journal([], 0, None), [], {}, 0);
    assert Collected([], 0) == [] && BytesOf([]) == 0;
    assert Run(max, [ops[0]]).journal.entries == [e];
    assert Acknowledge([e], a.id) == [e.(acknowledged := true)];
    assert Run(max, ops[..2]).journal.entries == [e.(acknowledged := true)];
    var aged := [e.(acknowledged := true)];
    assert aged[..0] == [];
    assert Sorting.Filter((x: Entry) => !(x.acknowledged && x.createdAt < WEEK + 1 - WEEK), []) == [];
    assert Collected(aged, WEEK + 1) == [];
  }

  // ---------------------------------------------------------------- counting refusals

  /** What one operation does to the drop count: nothing, a store that removes the marker, a refusal that both counters or only the marker counts. */
  datatype Effect = Neutral | Stores | Counted | OnlyMarked

  function EffectOf(j: Journal, max: nat, op: Op): Effect {
    match op
    case AckOp(_) => Neutral
    case AppendOp(r, bytes, now, d) =>
      match Appended(j, max, r, bytes, now, d).1
      case Stored => Stores
      case AlreadyStored => Neutral
      case Full => if d.rejectsCounter then OnlyMarked else Counted
  }

  function Effects(max: nat, ops: seq<Op>): (effects: seq<Effect>)
    ensures |effects| == |ops|
  {
    if ops == [] then []
    else Effects(max, ops[..|ops| - 1]) + [EffectOf(Run(max, ops[..|ops| - 1]).journal, max, ops[|ops| - 1])]
  }

  /** The last refusal is counted by the marker alone, and the marker still stands. */
  ghost predicate MarkerAlone(effects: seq<Effect>) {
    exists j: nat :: j < |effects| && effects[j] == OnlyMarked && QuietAfter(effects, j)
  }

  ghost predicate QuietAfter(effects: seq<Effect>, j: nat) {
    forall k :: j < k < |effects| ==> effects[k] in {Neutral, OnlyMarked}
  }

  /** No store ever removed a marker that alone knew the count. */
  ghost predicate NoCountLost(effects: seq<Effect>) {
    forall i :: 0 <= i < |effects| && effects[i] == Stores ==> !MarkerAlone(effects[..i])
  }

  lemma MarkerAloneSnoc(effects: seq<Effect>, e: Effect)
    ensures MarkerAlone(effects + [e]) <==> e == OnlyMarked || (e == Neutral && MarkerAlone(effects))
  {
    var longer, n := effects + [e], |effects|;
    if e == OnlyMarked {
      assert longer[n] == OnlyMarked && QuietAfter(longer, n);
    }
    if e == Neutral && MarkerAlone(effects) {
      var j: nat :| j < n && effects[j] == OnlyMarked && QuietAfter(effects, j);
      assert longer[j] == OnlyMarked && QuietAfter(longer, j);
    }
    if j: nat :| j < n && longer[j] == OnlyMarked && QuietAfter(longer, j) {
      assert longer[n] == e;
      assert effects[j] == OnlyMarked && QuietAfter(effects, j) by {
        assert forall k :: 0 <= k < n ==> effects[k] == longer[k];
      }
    }
  }

  lemma NoCountLostSnoc(effects: seq<Effect>, e: Effect)
    ensures NoCountLost(effects + [e]) <==> NoCountLost(effects) && (e == Stores ==> !MarkerAlone(effects))
  {
    var longer, n := effects + [e], |effects|;
    assert longer[n] == e && longer[..n] == effects;
    assert forall i :: 0 <= i < n ==> longer[i] == effects[i] && longer[..i] == effects[..i];
  }

  function Reported(j: Journal): nat {
    Larger(j.dropped, j.marker)
  }

  /** How one operation moves both counts. */
  lemma CountStep(max: nat, ops: seq<Op>)
    requires ops != []
    ensures var h, h' := Run(max, ops[..|ops| - 1]), Run(max, ops);
      match EffectOf(h.journal, max, ops[|ops| - 1])
      case Neutral => (h'.journal.dropped, Reported(h'.journal), h'.refused) == (h.journal.dropped, Reported(h.journal), h.refused)
      case Stores => (h'.journal.dropped, Reported(h'.journal), h'.refused) == (h.journal.dropped, h.journal.dropped, h.refused)
      case Counted => h'.journal.dropped == Reported(h'.journal) == Reported(h.journal) + 1 && h'.refused == h.refused + 1
      case OnlyMarked =>
        && h'.journal.dropped == h.journal.dropped && Reported(h'.journal) == Reported(h.journal) + 1
        && h'.refused == h.refused + 1
  {
  }

  /**
   * Over every run the reported number of dropped records is never more than the number of refusals,
   * and equal to it exactly if no record was stored while the marker alone knew of a refusal.
   */
  lemma {:induction false} DroppedCountsRefusals(max: nat, ops: seq<Op>)
    ensures var h, effects := Run(max, ops), Effects(max, ops);
      && (Reported(h.journal) > h.journal.dropped <==> MarkerAlone(effects))
      && Reported(h.journal) <= h.refused
      && (Reported(h.journal) == h.refused <==> NoCountLost(effects))
  {
    if ops != [] {
      var n := |ops| - 1;
      DroppedCountsRefusals(max, ops[..n]);
      var effects := Effects(max, ops[..n]);
      var e := EffectOf(Run(max, ops[..n]).journal, max, ops[n]);
      MarkerAloneSnoc(effects, e);
      NoCountLostSnoc(effects, e);
      CountStep(max, ops);
    }
  }

  /** A refusal that only the marker counts is forgotten with the next stored record. */
  lemma CountIsLost(max: nat, a: Record, b: Record)
    requires max >= 1
    ensures var h := Run(max, [AppendOp(a, 1, 0, Disk(true, true)), AppendOp(b, 1, 0, Disk(false, false))]);
      h.refused == 1 && Reported(h.journal) == 0 && h.stored == [b]
  {
    var ops := [AppendOp(a, 1, 0, Disk(true, true)), AppendOp(b, 1, 0, Disk(false, false))];
    assert ops[..1] == [ops[0]] && ops[..1][..0] == [];
    assert Run(max, []) == History(Journal([], 0, None), [], {}, 0);
    assert Collected([], 0) == [] && BytesOf([]) == 0;
    assert Run(max, ops[..1]) == History(Journal([], 0, Some(1)), [], {}, 1);
  }

  // ---------------------------------------------------------------- the full marker

  predicate IsRefusal(e: Effect) {
    e == Counted || e == OnlyMarked
  }

  /** A record was refused, and none has been stored since. */
  ghost predicate RefusedSince(effects: seq<Effect>) {
    exists j: nat :: j < |effects| && IsRefusal(effects[j]) && NoneStoredAfter(effects, j)
  }

  ghost predicate NoneStoredAfter(effects: seq<Effect>, j: nat) {
    forall k :: j < k < |effects| ==> effects[k] != Stores
  }

  lemma RefusedSinceSnoc(effects: seq<Effect>, e: Effect)
    ensures RefusedSince(effects + [e]) <==> IsRefusal(e) || (e == Neutral && RefusedSince(effects))
  {
    var longer, n := effects + [e], |effects|;
    assert forall k :: 0 <= k < n ==> longer[k] == effects[k];
    if IsRefusal(e) {
      assert IsRefusal(longer[n]) && NoneStoredAfter(longer, n);
    }
    if e == Neutral && RefusedSince(effects) {
      var j: nat :| j < n && IsRefusal(effects[j]) && NoneStoredAfter(effects, j);
      assert IsRefusal(longer[j]) && NoneStoredAfter(longer, j);
    }
    if j: nat :| j < n && IsRefusal(longer[j]) && NoneStoredAfter(longer, j) {
      assert longer[n] == e && IsRefusal(effects[j]) && NoneStoredAfter(effects, j);
    }
  }

  lemma MarkerStep(max: nat, ops: seq<Op>)
    requires ops != []
    ensures var h, h' := Run(max, ops[..|ops| - 1]), Run(max, ops);
      match EffectOf(h.journal, max, ops[|ops| - 1])
      case Neutral => h'.journal.marker == h.journal.marker
      case Stores => h'.journal.marker == None
      case _ => h'.journal.marker.Some?
  {
  }

  /** Over every run the journal is reported as full exactly if it has refused a record and stored none since. */
  lemma {:induction false} FullExactly(max: nat, ops: seq<Op>)
    ensures Run(max, ops).journal.marker.Some? <==> RefusedSince(Effects(max, ops))
  {
    if ops != [] {
      var n := |ops| - 1;
      FullExactly(max, ops[..n]);
      RefusedSinceSnoc(Effects(max, ops[..n]), EffectOf(Run(max, ops[..n]).journal, max, ops[n]));
      MarkerStep(max, ops);
    }
  }
}
