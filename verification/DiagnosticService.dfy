/**
 * The diagnostics worker and its publisher over one journal: rounds of probing, saving and publishing,
 * with refusals, deaths and interruptions anywhere; and which published incidents are open.
 */
module DiagnosticService {
  import opened Options
  import opened DiagnosticRules
  import J = DiagnosticJournal
  import W = DiagnosticWorker
  import P = DiagnosticPublisher

  // ---------------------------------------------------------------- rounds

  /** One cycle of the worker and the publication after it, interrupted after so many transactions. */
  datatype Round = Round(attempts: seq<W.Attempt>, saves: bool, commits: nat, tornLast: bool)

  function Ids(records: seq<J.Record>): (ids: seq<string>)
    ensures |ids| == |records|
  {
    seq(|records|, i requires 0 <= i < |records| => records[i].id)
  }

  /** The worker's cycle acknowledges what the publication acknowledges. */
  function CycleOf(max: nat, w: W.World, round: Round): W.Cycle {
    var m := W.AttemptAll(max, W.Awake(w), round.attempts);
    W.Cycle(round.attempts, round.saves, Ids(P.AcknowledgedIn(m.journal.entries, round.commits, round.tornLast)))
  }

  function WorldAfter(max: nat, rounds: seq<Round>): W.World {
    if rounds == [] then W.Run(max, [])
    else
      var w := WorldAfter(max, rounds[..|rounds| - 1]);
      W.After(max, w, CycleOf(max, w, rounds[|rounds| - 1]))
  }

  /** The appends of one turn, as the publisher sees them. */
  function ArrivalsOf(max: nat, m: W.Memory, a: W.Attempt): seq<P.Doing> {
    if !m.alive then []
    else
      var (row, incident) := Observed(RowOf(m.rules, a.probe.resource), a.probe);
      var observation := W.ObservationRecord(a, row, incident);
      var observed := [P.Append(observation, a.observation.bytes, a.observation.now, a.observation.disk)];
      if incident == None || a.dies || W.Appended(m.journal, max, observation, a.observation).1 == J.Full then observed
      else observed + [P.Append(W.NoteRecord(a, incident.value), a.note.bytes, a.note.now, a.note.disk)]
  }

  function Arrivals(max: nat, w: W.World, attempts: seq<W.Attempt>): seq<P.Doing> {
    if attempts == [] then []
    else
      var n := |attempts| - 1;
      Arrivals(max, w, attempts[..n]) + ArrivalsOf(max, W.AttemptAll(max, W.Awake(w), attempts[..n]), attempts[n])
  }

  function Publication(max: nat, w: W.World, round: Round): seq<P.Doing> {
    if W.Saves(max, w, CycleOf(max, w, round)) then [P.Cycle(round.commits, round.tornLast)] else []
  }

  function DoingsOf(max: nat, rounds: seq<Round>): seq<P.Doing> {
    if rounds == [] then []
    else
      var n := |rounds| - 1;
      var w := WorldAfter(max, rounds[..n]);
      DoingsOf(max, rounds[..n]) + Arrivals(max, w, rounds[n].attempts) + Publication(max, w, rounds[n])
  }

  function CyclesOf(max: nat, rounds: seq<Round>): seq<W.Cycle> {
    if rounds == [] then []
    else
      var n := |rounds| - 1;
      CyclesOf(max, rounds[..n]) + [CycleOf(max, WorldAfter(max, rounds[..n]), rounds[n])]
  }

  /** The rounds are a run of the worker. */
  lemma {:induction false} RoundsAreCycles(max: nat, rounds: seq<Round>)
    ensures W.Run(max, CyclesOf(max, rounds)) == WorldAfter(max, rounds)
  {
    if rounds != [] {
      var n := |rounds| - 1;
      var front, last := CyclesOf(max, rounds[..n]), CycleOf(max, WorldAfter(max, rounds[..n]), rounds[n]);
      RoundsAreCycles(max, rounds[..n]);
      assert (front + [last])[..|front|] == front;
    }
  }

  // ---------------------------------------------------------------- fresh identifiers

  /** The identifiers that a turn draws are in no stored record. */
  ghost predicate Unused(stored: seq<J.Record>, a: W.Attempt) {
    && !P.UsedIdentifier(stored, a.observation.id) && !P.UsedIdentifier(stored, a.note.id)
    && a.observation.id != a.note.id && a.probe.drawn != ""
    && forall i :: 0 <= i < |stored| ==> !P.Belongs(stored[i], a.probe.drawn)
  }

  ghost predicate FreshAttempts(max: nat, w: W.World, doings: seq<P.Doing>, attempts: seq<W.Attempt>) {
    forall n: nat :: n < |attempts| ==> Unused(ArrivedBefore(max, w, doings, attempts, n).stored, attempts[n])
  }

  /** Every round probes each resource once and draws identifiers that were not used before. */
  ghost predicate FreshRounds(max: nat, rounds: seq<Round>) {
    rounds != [] ==>
      var front, last := rounds[..|rounds| - 1], rounds[|rounds| - 1];
      && FreshRounds(max, front)
      && W.Proper(CycleOf(max, WorldAfter(max, front), last))
      && FreshAttempts(max, WorldAfter(max, front), DoingsOf(max, front), last.attempts)
  }

  /** In every round whatever is announced is journalled if and only if the rules are saved. */
  ghost predicate RoundsKeepUp(max: nat, rounds: seq<Round>) {
    rounds != [] ==>
      var front, last := rounds[..|rounds| - 1], rounds[|rounds| - 1];
      RoundsKeepUp(max, front) && W.KeepsUp(max, WorldAfter(max, front), CycleOf(max, WorldAfter(max, front), last))
  }

  // ---------------------------------------------------------------- one journal

  /** The records one turn stores: its observation, and its note. */
  function StoredBy(max: nat, m: W.Memory, a: W.Attempt): seq<J.Record> {
    if !m.alive then []
    else
      var (row, incident) := Observed(RowOf(m.rules, a.probe.resource), a.probe);
      var observation := W.ObservationRecord(a, row, incident);
      (if W.Appended(m.journal, max, observation, a.observation).1 == J.Stored then [observation] else [])
      + NoteBy(max, m, a)
  }

  function NoteBy(max: nat, m: W.Memory, a: W.Attempt): seq<J.Record> {
    var (row, incident) := Observed(RowOf(m.rules, a.probe.resource), a.probe);
    var note := W.Journalled(max, m.journal, a, row, incident).1;
    if m.alive && note.Some? then [W.NoteRecord(a, note.value)] else []
  }

  function Arrived(max: nat, w: P.World, r: J.Record, write: W.Write): P.World {
    P.Next(max, w, P.Arrive(r, write.bytes, write.now, write.disk))
  }

  function DoingOf(r: J.Record, write: W.Write): P.Doing {
    P.Append(r, write.bytes, write.now, write.disk)
  }

  lemma OneArrival(max: nat, doings: seq<P.Doing>, r: J.Record, write: W.Write)
    ensures P.Worked(max, doings + [DoingOf(r, write)]) == Arrived(max, P.Worked(max, doings), r, write)
  {
    assert (doings + [DoingOf(r, write)])[..|doings|] == doings;
  }

  lemma UnusedStays(stored: seq<J.Record>, r: J.Record, id: string)
    requires !P.UsedIdentifier(stored, id) && r.id != id
    ensures !P.UsedIdentifier(stored + [r], id)
  {
  }

  /** A fresh record arrives as it is appended. */
  lemma FreshArrives(max: nat, w: P.World, r: J.Record, write: W.Write)
    requires !P.UsedIdentifier(w.stored, r.id)
    ensures var (j, result) := W.Appended(w.journal, max, r, write);
      Arrived(max, w, r, write) == P.World(j, w.db, if result == J.Stored then w.stored + [r] else w.stored)
  {
  }

  predicate NotesToo(max: nat, m: W.Memory, a: W.Attempt) {
    var (row, incident) := Observed(RowOf(m.rules, a.probe.resource), a.probe);
    incident.Some? && !a.dies && W.Appended(m.journal, max, W.ObservationRecord(a, row, incident), a.observation).1 != J.Full
  }

  /** What the publisher's world becomes by one turn. */
  function TakenIn(max: nat, w: P.World, m: W.Memory, a: W.Attempt): P.World {
    if !m.alive then w
    else
      var (row, incident) := Observed(RowOf(m.rules, a.probe.resource), a.probe);
      var observed := Arrived(max, w, W.ObservationRecord(a, row, incident), a.observation);
      if !NotesToo(max, m, a) then observed else Arrived(max, observed, W.NoteRecord(a, incident.value), a.note)
  }

  lemma TwoArrivals(max: nat, doings: seq<P.Doing>, r: J.Record, write: W.Write, q: J.Record, other: W.Write)
    ensures P.Worked(max, doings + ([DoingOf(r, write)] + [DoingOf(q, other)]))
      == Arrived(max, Arrived(max, P.Worked(max, doings), r, write), q, other)
  {
    OneArrival(max, doings, r, write);
    OneArrival(max, doings + [DoingOf(r, write)], q, other);
    assert doings + ([DoingOf(r, write)] + [DoingOf(q, other)]) == doings + [DoingOf(r, write)] + [DoingOf(q, other)];
  }

  /** The appends of a turn: none, the observation's, or the note's behind it. */
  lemma ArrivalsShape(max: nat, m: W.Memory, a: W.Attempt)
    requires m.alive
    ensures var (row, incident) := Observed(RowOf(m.rules, a.probe.resource), a.probe);
      var first := DoingOf(W.ObservationRecord(a, row, incident), a.observation);
      ArrivalsOf(max, m, a) ==
        if NotesToo(max, m, a) then [first] + [DoingOf(W.NoteRecord(a, incident.value), a.note)] else [first]
  {
  }

  lemma TurnIsTakenIn(max: nat, doings: seq<P.Doing>, m: W.Memory, a: W.Attempt)
    ensures P.Worked(max, doings + ArrivalsOf(max, m, a)) == TakenIn(max, P.Worked(max, doings), m, a)
  {
    if !m.alive {
      assert doings + [] == doings;
    } else {
      var (row, incident) := Observed(RowOf(m.rules, a.probe.resource), a.probe);
      ArrivalsShape(max, m, a);
      if NotesToo(max, m, a) {
        TwoArrivals(max, doings, W.ObservationRecord(a, row, incident), a.observation, W.NoteRecord(a, incident.value), a.note);
      } else {
        OneArrival(max, doings, W.ObservationRecord(a, row, incident), a.observation);
      }
    }
  }

  /** The publisher's journal takes in one turn as the worker's does. */
  lemma TurnArrives(max: nat, w: P.World, m: W.Memory, a: W.Attempt)
    requires m.journal == w.journal && Unused(w.stored, a)
    ensures var after := TakenIn(max, w, m, a);
      && after.journal == W.Attempted(max, m, a).journal && after.db == w.db && after.stored == w.stored + StoredBy(max, m, a)
  {
    assert w.stored + [] == w.stored;
    if m.alive {
      var (row, incident) := Observed(RowOf(m.rules, a.probe.resource), a.probe);
      var observation := W.ObservationRecord(a, row, incident);
      var observed := Arrived(max, w, observation, a.observation);
      FreshArrives(max, w, observation, a.observation);
      if NotesToo(max, m, a) {
        UnusedStays(w.stored, observation, a.note.id);
        FreshArrives(max, observed, W.NoteRecord(a, incident.value), a.note);
      }
      assert observed.stored + NoteBy(max, m, a) == w.stored + StoredBy(max, m, a);
    }
  }

  /** The worker's memory after the first `n` turns. */
  function MemoryAfter(max: nat, w: W.World, attempts: seq<W.Attempt>, n: nat): W.Memory
    requires n <= |attempts|
  {
    W.AttemptAll(max, W.Awake(w), attempts[..n])
  }

  function ArrivedBefore(max: nat, w: W.World, doings: seq<P.Doing>, attempts: seq<W.Attempt>, n: nat): P.World
    requires n <= |attempts|
  {
    P.Worked(max, doings + Arrivals(max, w, attempts[..n]))
  }

  lemma NextTurn(max: nat, w: W.World, doings: seq<P.Doing>, attempts: seq<W.Attempt>, n: nat)
    requires n < |attempts|
    ensures MemoryAfter(max, w, attempts, n + 1) == W.Attempted(max, MemoryAfter(max, w, attempts, n), attempts[n])
    ensures ArrivedBefore(max, w, doings, attempts, n + 1)
      == TakenIn(max, ArrivedBefore(max, w, doings, attempts, n), MemoryAfter(max, w, attempts, n), attempts[n])
  {
    var m := MemoryAfter(max, w, attempts, n);
    var before := doings + Arrivals(max, w, attempts[..n]);
    assert attempts[..n + 1][..n] == attempts[..n];
    assert doings + Arrivals(max, w, attempts[..n + 1]) == before + ArrivalsOf(max, m, attempts[n]);
    TurnIsTakenIn(max, before, m, attempts[n]);
  }

  /** After `n` turns both have the same journal, and nothing has been published. */
  lemma {:induction false} TurnsArrive(max: nat, w: W.World, doings: seq<P.Doing>, attempts: seq<W.Attempt>, n: nat)
    requires w.journal == P.Worked(max, doings).journal && FreshAttempts(max, w, doings, attempts) && n <= |attempts|
    ensures ArrivedBefore(max, w, doings, attempts, n).journal == MemoryAfter(max, w, attempts, n).journal
    ensures ArrivedBefore(max, w, doings, attempts, n).db == P.Worked(max, doings).db
    decreases n
  {
    if n == 0 {
      assert doings + [] == doings;
    } else {
      TurnsArrive(max, w, doings, attempts, n - 1);
      NextTurn(max, w, doings, attempts, n - 1);
      TurnArrives(max, ArrivedBefore(max, w, doings, attempts, n - 1), MemoryAfter(max, w, attempts, n - 1), attempts[n - 1]);
    }
  }

  /** What the next turn stores. */
  lemma NextStored(max: nat, w: W.World, doings: seq<P.Doing>, attempts: seq<W.Attempt>, n: nat)
    requires w.journal == P.Worked(max, doings).journal && FreshAttempts(max, w, doings, attempts) && n < |attempts|
    ensures ArrivedBefore(max, w, doings, attempts, n + 1).stored
      == ArrivedBefore(max, w, doings, attempts, n).stored + StoredBy(max, MemoryAfter(max, w, attempts, n), attempts[n])
  {
    TurnsArrive(max, w, doings, attempts, n);
    NextTurn(max, w, doings, attempts, n);
    TurnArrives(max, ArrivedBefore(max, w, doings, attempts, n), MemoryAfter(max, w, attempts, n), attempts[n]);
  }

  lemma {:induction false} SameAcknowledgements(j: J.Journal, records: seq<J.Record>)
    ensures W.AcknowledgeIds(j, Ids(records)) == j.(entries := P.AcknowledgeAll(j.entries, records))
  {
    if records != [] {
      var n := |records| - 1;
      SameAcknowledgements(j, records[..n]);
      assert Ids(records)[..n] == Ids(records[..n]);
    }
  }

  lemma PublicationArrives(max: nat, doings: seq<P.Doing>, commits: nat, tornLast: bool)
    ensures var w := P.Worked(max, doings);
      P.Worked(max, doings + [P.Cycle(commits, tornLast)]) ==
        P.World(P.Cycled(w.journal, w.db, commits, tornLast).0, P.Cycled(w.journal, w.db, commits, tornLast).1, w.stored)
  {
    var d := P.Cycle(commits, tornLast);
    assert (doings + [d])[..|doings|] == doings;
  }

  /** One round does to the publisher's journal what it does to the worker's. */
  lemma RoundArrives(max: nat, w: W.World, doings: seq<P.Doing>, round: Round)
    requires w.journal == P.Worked(max, doings).journal && FreshAttempts(max, w, doings, round.attempts)
    ensures var after := P.Worked(max, doings + Arrivals(max, w, round.attempts) + Publication(max, w, round));
      && after.journal == W.After(max, w, CycleOf(max, w, round)).journal
      && after.stored == ArrivedBefore(max, w, doings, round.attempts, |round.attempts|).stored
  {
    var arrived := doings + Arrivals(max, w, round.attempts);
    var journal := W.AttemptAll(max, W.Awake(w), round.attempts).journal;
    assert round.attempts[..|round.attempts|] == round.attempts;
    TurnsArrive(max, w, doings, round.attempts, |round.attempts|);
    if W.Saves(max, w, CycleOf(max, w, round)) {
      PublicationArrives(max, arrived, round.commits, round.tornLast);
      SameAcknowledgements(journal, P.AcknowledgedIn(journal.entries, round.commits, round.tornLast));
    } else {
      assert arrived + [] == arrived;
    }
  }

  /** After any rounds the worker and the publisher have the same journal. */
  lemma {:induction false} OneJournal(max: nat, rounds: seq<Round>)
    requires FreshRounds(max, rounds)
    ensures WorldAfter(max, rounds).journal == P.Worked(max, DoingsOf(max, rounds)).journal
  {
    if rounds != [] {
      var n := |rounds| - 1;
      OneJournal(max, rounds[..n]);
      RoundArrives(max, WorldAfter(max, rounds[..n]), DoingsOf(max, rounds[..n]), rounds[n]);
    }
  }

  // ---------------------------------------------------------------- open episodes

  /** Some resource's row is open with this episode. */
  ghost predicate IsOpen(rules: Rules, episode: string) {
    exists resource :: RowOf(rules, resource).open && RowOf(rules, resource).episode == Some(episode)
  }

  predicate NotedOpen(stored: seq<J.Record>, episode: string) {
    P.LastNote(stored, episode).Some? && P.StateOf(P.LastNote(stored, episode)) == "open"
  }

  /** A row names an episode exactly while it is open. */
  ghost predicate EpisodesNamed(rules: Rules) {
    forall resource ::
      if RowOf(rules, resource).open then RowOf(rules, resource).episode.Some? && RowOf(rules, resource).episode.value != ""
      else RowOf(rules, resource).episode == None
  }

  ghost predicate EpisodesApart(rules: Rules) {
    forall r, q :: RowOf(rules, r).open && RowOf(rules, q).open && r != q ==> RowOf(rules, r).episode != RowOf(rules, q).episode
  }

  /** The rows that are open are those whose episode's last stored note says so. */
  ghost predicate Tracks(rules: Rules, stored: seq<J.Record>) {
    EpisodesNamed(rules) && EpisodesApart(rules) && forall e :: NotedOpen(stored, e) <==> IsOpen(rules, e)
  }

  lemma ObservationTellsNothing(stored: seq<J.Record>, r: J.Record, episode: string)
    requires r.kind.Observation?
    ensures P.LastNote(stored + [r], episode) == P.LastNote(stored, episode)
  {
    P.LastNoteSnoc(stored, r, episode);
  }

  lemma NoteTells(stored: seq<J.Record>, r: J.Record, episode: string)
    requires r.kind.IncidentNote?
    ensures P.LastNote(stored + [r], episode) == if r.episode == Some(episode) then Some(r) else P.LastNote(stored, episode)
  {
    P.LastNoteSnoc(stored, r, episode);
  }

  /** What a turn stores besides its note does not matter. */
  lemma StoredByTells(max: nat, m: W.Memory, a: W.Attempt, stored: seq<J.Record>, episode: string)
    ensures P.LastNote(stored + StoredBy(max, m, a), episode) == P.LastNote(stored + NoteBy(max, m, a), episode)
  {
    var noted := NoteBy(max, m, a);
    assert stored + [] == stored;
    if m.alive {
      var (row, incident) := Observed(RowOf(m.rules, a.probe.resource), a.probe);
      var observation := W.ObservationRecord(a, row, incident);
      var observed := stored + [observation];
      ObservationTellsNothing(stored, observation, episode);
      if W.Appended(m.journal, max, observation, a.observation).1 == J.Stored {
        if noted == [] {
          assert stored + StoredBy(max, m, a) == observed;
        } else {
          assert stored + StoredBy(max, m, a) == observed + [noted[0]] && stored + noted == stored + [noted[0]];
          NoteTells(observed, noted[0], episode);
          NoteTells(stored, noted[0], episode);
        }
      } else {
        assert StoredBy(max, m, a) == noted;
      }
    }
  }

  /** A turn with nothing to announce, or one that did not run. */
  lemma QuietTurnTracks(rules: Rules, stored: seq<J.Record>, p: Probe)
    requires Tracks(rules, stored) && Observed(RowOf(rules, p.resource), p).1 == None
    ensures Tracks(rules[p.resource := Observed(RowOf(rules, p.resource), p).0], stored)
  {
    var rules' := rules[p.resource := Observed(RowOf(rules, p.resource), p).0];
    forall resource
      ensures RowOf(rules', resource).open == RowOf(rules, resource).open
      ensures RowOf(rules', resource).episode == RowOf(rules, resource).episode {
    }
    forall e ensures IsOpen(rules', e) <==> IsOpen(rules, e) {
      if IsOpen(rules, e) {
        var resource :| RowOf(rules, resource).open && RowOf(rules, resource).episode == Some(e);
        assert RowOf(rules', resource).open && RowOf(rules', resource).episode == Some(e);
      }
    }
  }

  /** An opening that is noted: the new row is the only one open with the drawn identifier. */
  lemma OpeningTracks(rules: Rules, stored: seq<J.Record>, p: Probe, note: J.Record)
    requires Tracks(rules, stored) && p.drawn != "" && P.LastNote(stored, p.drawn) == None
    requires Observed(RowOf(rules, p.resource), p).1 == Some(Incident(p.resource, Opened, p.drawn, p.now))
    requires note.kind == J.IncidentNote("open") && note.episode == Some(p.drawn)
    ensures Tracks(rules[p.resource := Observed(RowOf(rules, p.resource), p).0], stored + [note])
  {
    var rules' := rules[p.resource := Observed(RowOf(rules, p.resource), p).0];
    assert !NotedOpen(stored, p.drawn);
    assert !IsOpen(rules, p.drawn);
    assert RowOf(rules', p.resource).open && RowOf(rules', p.resource).episode == Some(p.drawn);
    assert !RowOf(rules, p.resource).open;
    forall other | other != p.resource
      ensures RowOf(rules', other) == RowOf(rules, other)
      ensures RowOf(rules, other).open ==> RowOf(rules, other).episode != Some(p.drawn) {
    }
    assert EpisodesNamed(rules') && EpisodesApart(rules');
    forall e ensures NotedOpen(stored + [note], e) <==> IsOpen(rules', e) {
      NoteTells(stored, note, e);
      assert NotedOpen(stored, e) <==> IsOpen(rules, e);
      if e != p.drawn {
        SameOpenElsewhere(rules, rules', p.resource, e);
      }
    }
  }

  /** Only one row has changed, and neither before nor after is it open with this episode. */
  lemma SameOpenElsewhere(rules: Rules, rules': Rules, resource: string, e: string)
    requires forall other :: other != resource ==> RowOf(rules', other) == RowOf(rules, other)
    requires !(RowOf(rules, resource).open && RowOf(rules, resource).episode == Some(e))
    requires !(RowOf(rules', resource).open && RowOf(rules', resource).episode == Some(e))
    ensures IsOpen(rules', e) <==> IsOpen(rules, e)
  {
    if IsOpen(rules, e) {
      var other :| RowOf(rules, other).open && RowOf(rules, other).episode == Some(e);
      assert RowOf(rules', other).open && RowOf(rules', other).episode == Some(e);
    }
  }

  /** A recovery that is noted: nobody else was open with its episode. */
  lemma RecoveryTracks(rules: Rules, stored: seq<J.Record>, p: Probe, note: J.Record)
    requires Tracks(rules, stored) && RowOf(rules, p.resource).open
    requires Observed(RowOf(rules, p.resource), p).1.Some?
    requires note.kind == J.IncidentNote("recovered")
    requires note.episode == RowOf(rules, p.resource).episode
    ensures Tracks(rules[p.resource := Observed(RowOf(rules, p.resource), p).0], stored + [note])
  {
    var rules' := rules[p.resource := Observed(RowOf(rules, p.resource), p).0];
    var closed := RowOf(rules, p.resource).episode.value;
    assert !RowOf(rules', p.resource).open;
    assert forall other :: other != p.resource ==> RowOf(rules', other) == RowOf(rules, other);
    assert EpisodesNamed(rules') && EpisodesApart(rules');
    forall e ensures NotedOpen(stored + [note], e) <==> IsOpen(rules', e) {
      NoteTells(stored, note, e);
      assert NotedOpen(stored, e) <==> IsOpen(rules, e);
      if e == closed {
        assert !IsOpen(rules', e) by {
          forall other ensures !(RowOf(rules', other).open && RowOf(rules', other).episode == Some(e)) {}
        }
      } else {
        SameOpenElsewhere(rules, rules', p.resource, e);
      }
    }
  }

  lemma NoneBelong(stored: seq<J.Record>, episode: string)
    requires forall i :: 0 <= i < |stored| ==> !P.Belongs(stored[i], episode)
    ensures P.LastNote(stored, episode) == None
  {
    var i := P.LastNoteIsLast(stored, episode);
  }

  /** One turn whose announcement, if any, is stored. */
  lemma TurnTracks(max: nat, m: W.Memory, a: W.Attempt, stored: seq<J.Record>)
    requires m.alive && Tracks(m.rules, stored) && Unused(stored, a)
    requires Observed(RowOf(m.rules, a.probe.resource), a.probe).1.Some? ==> NoteBy(max, m, a) != []
    ensures Tracks(W.Attempted(max, m, a).rules, stored + StoredBy(max, m, a))
  {
    var (row, incident) := Observed(RowOf(m.rules, a.probe.resource), a.probe);
    var rules', noted := m.rules[a.probe.resource := row], NoteBy(max, m, a);
    W.JournalledIncident(max, m.journal, a, row, incident);
    if incident == None {
      QuietTurnTracks(m.rules, stored, a.probe);
      assert noted == [] && stored + noted == stored;
    } else {
      assert noted == [W.NoteRecord(a, incident.value)];
      if incident.value.transition == Opened {
        NoneBelong(stored, a.probe.drawn);
        OpeningTracks(m.rules, stored, a.probe, noted[0]);
      } else {
        RecoveryTracks(m.rules, stored, a.probe, noted[0]);
      }
    }
    SameNotes(rules', stored + noted, stored + StoredBy(max, m, a)) by {
      forall e ensures P.LastNote(stored + StoredBy(max, m, a), e) == P.LastNote(stored + noted, e) {
        StoredByTells(max, m, a, stored, e);
      }
    }
  }

  lemma SameNotes(rules: Rules, stored: seq<J.Record>, more: seq<J.Record>)
    requires Tracks(rules, stored) && forall e :: P.LastNote(more, e) == P.LastNote(stored, e)
    ensures Tracks(rules, more)
  {
    forall e ensures NotedOpen(more, e) <==> IsOpen(rules, e) {
      assert NotedOpen(more, e) <==> NotedOpen(stored, e);
    }
  }

  /** Who is alive at the end was alive before every turn. */
  lemma {:induction false} AliveBefore(max: nat, w: W.World, attempts: seq<W.Attempt>, n: nat)
    requires n <= |attempts| && W.AttemptAll(max, W.Awake(w), attempts).alive
    ensures MemoryAfter(max, w, attempts, n).alive
    decreases |attempts| - n
  {
    if n == |attempts| {
      assert attempts[..n] == attempts;
    } else {
      AliveBefore(max, w, attempts, n + 1);
      NextTurn(max, w, [], attempts, n);
    }
  }

  /** In a round that keeps up a turn notes all it announces if the rules are saved, and nothing otherwise. */
  lemma NotedIfSaved(max: nat, w: W.World, cycle: W.Cycle, n: nat)
    requires W.Proper(cycle) && W.KeepsUp(max, w, cycle) && n < |cycle.attempts|
    ensures var m, a := MemoryAfter(max, w, cycle.attempts, n), cycle.attempts[n];
      if W.Saves(max, w, cycle) then m.alive && (Observed(RowOf(m.rules, a.probe.resource), a.probe).1.Some? ==> NoteBy(max, m, a) != [])
      else NoteBy(max, m, a) == []
  {
    var m, a := MemoryAfter(max, w, cycle.attempts, n), cycle.attempts[n];
    W.OtherAttempts(max, W.Awake(w), cycle.attempts[..n], a.probe.resource);
    var (row, incident) := Observed(RowOf(w.rules, a.probe.resource), a.probe);
    W.JournalledIncident(max, m.journal, a, row, incident);
    assert W.Announced(w, cycle, n) == incident;
    if W.Saves(max, w, cycle) {
      AliveBefore(max, w, cycle.attempts, n);
    }
  }

  lemma {:induction false} SavedTurnsTrack(max: nat, w: W.World, doings: seq<P.Doing>, cycle: W.Cycle, n: nat)
    requires w.journal == P.Worked(max, doings).journal && FreshAttempts(max, w, doings, cycle.attempts)
    requires W.Proper(cycle) && W.KeepsUp(max, w, cycle) && W.Saves(max, w, cycle)
    requires Tracks(w.rules, P.Worked(max, doings).stored) && n <= |cycle.attempts|
    ensures Tracks(MemoryAfter(max, w, cycle.attempts, n).rules, ArrivedBefore(max, w, doings, cycle.attempts, n).stored)
    decreases n
  {
    if n == 0 {
      assert doings + [] == doings;
    } else {
      var m := MemoryAfter(max, w, cycle.attempts, n - 1);
      SavedTurnsTrack(max, w, doings, cycle, n - 1);
      NotedIfSaved(max, w, cycle, n - 1);
      TurnTracks(max, m, cycle.attempts[n - 1], ArrivedBefore(max, w, doings, cycle.attempts, n - 1).stored);
      NextTurn(max, w, doings, cycle.attempts, n - 1);
      NextStored(max, w, doings, cycle.attempts, n - 1);
    }
  }

  lemma UnnotedTurnTells(max: nat, m: W.Memory, a: W.Attempt, stored: seq<J.Record>, episode: string)
    requires NoteBy(max, m, a) == []
    ensures P.LastNote(stored + StoredBy(max, m, a), episode) == P.LastNote(stored, episode)
  {
    StoredByTells(max, m, a, stored, episode);
    assert stored + [] == stored;
  }

  /** Turn `n`, counted from one, of a round that keeps up and does not save. */
  lemma UnsavedTurnTells(
    max: nat, w: W.World, doings: seq<P.Doing>, cycle: W.Cycle, n: nat, episode: string, last: Option<J.Record>)
    requires w.journal == P.Worked(max, doings).journal && FreshAttempts(max, w, doings, cycle.attempts)
    requires W.Proper(cycle) && W.KeepsUp(max, w, cycle) && !W.Saves(max, w, cycle) && 0 < n <= |cycle.attempts|
    requires P.LastNote(ArrivedBefore(max, w, doings, cycle.attempts, n - 1).stored, episode) == last
    ensures P.LastNote(ArrivedBefore(max, w, doings, cycle.attempts, n).stored, episode) == last
  {
    NotedIfSaved(max, w, cycle, n - 1);
    NextStored(max, w, doings, cycle.attempts, n - 1);
    UnnotedTurnTells(max, MemoryAfter(max, w, cycle.attempts, n - 1), cycle.attempts[n - 1],
      ArrivedBefore(max, w, doings, cycle.attempts, n - 1).stored, episode);
  }

  lemma {:induction false} UnsavedTurnsTell(
    max: nat, w: W.World, doings: seq<P.Doing>, cycle: W.Cycle, n: nat, episode: string, last: Option<J.Record>)
    requires w.journal == P.Worked(max, doings).journal && FreshAttempts(max, w, doings, cycle.attempts)
    requires W.Proper(cycle) && W.KeepsUp(max, w, cycle) && !W.Saves(max, w, cycle) && n <= |cycle.attempts|
    requires P.LastNote(P.Worked(max, doings).stored, episode) == last
    ensures P.LastNote(ArrivedBefore(max, w, doings, cycle.attempts, n).stored, episode) == last
    decreases n
  {
    if n == 0 {
      assert doings + [] == doings;
    } else {
      UnsavedTurnsTell(max, w, doings, cycle, n - 1, episode, last);
      UnsavedTurnTells(max, w, doings, cycle, n, episode, last);
    }
  }

  /** A round that keeps up keeps the saved rows and the stored notes together. */
  lemma RoundTracks(max: nat, w: W.World, doings: seq<P.Doing>, round: Round)
    requires w.journal == P.Worked(max, doings).journal && FreshAttempts(max, w, doings, round.attempts)
    requires W.Proper(CycleOf(max, w, round)) && W.KeepsUp(max, w, CycleOf(max, w, round))
    requires Tracks(w.rules, P.Worked(max, doings).stored)
    ensures Tracks(W.After(max, w, CycleOf(max, w, round)).rules,
      P.Worked(max, doings + Arrivals(max, w, round.attempts) + Publication(max, w, round)).stored)
  {
    var cycle, n := CycleOf(max, w, round), |round.attempts|;
    assert round.attempts[..n] == round.attempts;
    RoundArrives(max, w, doings, round);
    if W.Saves(max, w, cycle) {
      SavedTurnsTrack(max, w, doings, cycle, n);
    } else {
      SameNotes(w.rules, P.Worked(max, doings).stored, ArrivedBefore(max, w, doings, round.attempts, n).stored) by {
        forall e ensures P.LastNote(ArrivedBefore(max, w, doings, round.attempts, n).stored, e) == P.LastNote(P.Worked(max, doings).stored, e) {
          UnsavedTurnsTell(max, w, doings, cycle, n, e, P.LastNote(P.Worked(max, doings).stored, e));
        }
      }
    }
  }

  lemma {:induction false} RoundsTrack(max: nat, rounds: seq<Round>)
    requires FreshRounds(max, rounds) && RoundsKeepUp(max, rounds)
    ensures Tracks(WorldAfter(max, rounds).rules, P.Worked(max, DoingsOf(max, rounds)).stored)
  {
    if rounds != [] {
      var n := |rounds| - 1;
      RoundsTrack(max, rounds[..n]);
      OneJournal(max, rounds[..n]);
      RoundTracks(max, WorldAfter(max, rounds[..n]), DoingsOf(max, rounds[..n]), rounds[n]);
    }
  }

  // ---------------------------------------------------------------- published incidents

  /** The journal holds records of the episode, and no note of it. */
  predicate Unannounced(stored: seq<J.Record>, episode: string) {
    P.LastNote(stored, episode) == None && P.FirstRecord(stored, episode).Some?
  }

  predicate PublishedOpen(db: P.Published, episode: string) {
    episode in db.incidents && db.incidents[episode].state == "open"
  }

  /**
   * After any rounds that keep up, with refusals, deaths and interruptions, once nothing is pending: an
   * incident is published as open exactly if some saved row is open with its episode, or the journal has
   * stored an observation of it and never a note.
   */
  lemma OpenIncidentsExactly(max: nat, rounds: seq<Round>, episode: string)
    requires FreshRounds(max, rounds) && RoundsKeepUp(max, rounds) && episode != ""
    requires J.Pending(WorldAfter(max, rounds).journal.entries, P.BATCH) == []
    ensures var w := P.Worked(max, DoingsOf(max, rounds));
      PublishedOpen(w.db, episode) <==> (IsOpen(WorldAfter(max, rounds).rules, episode) || Unannounced(w.stored, episode))
  {
    var w := P.Worked(max, DoingsOf(max, rounds));
    OneJournal(max, rounds);
    RoundsTrack(max, rounds);
    P.CyclesConverge(max, DoingsOf(max, rounds));
    P.IncidentsEndExactly(w.stored, episode);
    if P.FirstRecord(w.stored, episode) == None {
      P.NoFirstNoOther(w.stored, episode);
    }
    assert NotedOpen(w.stored, episode) <==> IsOpen(WorldAfter(max, rounds).rules, episode);
  }

  lemma OneMoreRound(max: nat, rounds: seq<Round>, round: Round)
    ensures var all, w, doings := rounds + [round], WorldAfter(max, rounds), DoingsOf(max, rounds);
      && WorldAfter(max, all) == W.After(max, w, CycleOf(max, w, round))
      && DoingsOf(max, all) == doings + Arrivals(max, w, round.attempts) + Publication(max, w, round)
      && (FreshRounds(max, all) <==>
            (FreshRounds(max, rounds) && W.Proper(CycleOf(max, w, round)) && FreshAttempts(max, w, doings, round.attempts)))
      && (RoundsKeepUp(max, all) <==> (RoundsKeepUp(max, rounds) && W.KeepsUp(max, w, CycleOf(max, w, round))))
  {
    assert (rounds + [round])[..|rounds|] == rounds;
  }

  /** The single turn of the dying worker. */
  lemma OrphanRound(max: nat, w: W.World, a: W.Attempt, round: Round)
    requires round.attempts == [a] && a.dies && a.probe.drawn != ""
    ensures var cycle := CycleOf(max, w, round);
      && W.Proper(cycle) && !W.Saves(max, w, cycle) && W.KeepsUp(max, w, cycle) && W.After(max, w, cycle).rules == w.rules
  {
    W.SingleTurn(max, w, a, round.saves, CycleOf(max, w, round).acked);
    assert [a][..0] == [];
  }

  lemma OrphanStored(max: nat, w: W.World, doings: seq<P.Doing>, a: W.Attempt, round: Round, observation: J.Record)
    requires round.attempts == [a] && w.journal == P.Worked(max, doings).journal && Unused(P.Worked(max, doings).stored, a)
    requires StoredBy(max, W.Awake(w), a) == [observation]
    ensures FreshAttempts(max, w, doings, round.attempts)
    ensures P.Worked(max, doings + Arrivals(max, w, round.attempts) + Publication(max, w, round)).stored
      == P.Worked(max, doings).stored + [observation]
  {
    assert doings + [] == doings && [a][..0] == [];
    assert ArrivedBefore(max, w, doings, round.attempts, 0) == P.Worked(max, doings);
    NextStored(max, w, doings, round.attempts, 0);
    RoundArrives(max, w, doings, round);
  }

  lemma ObservedUnannounced(stored: seq<J.Record>, observation: J.Record, episode: string)
    requires observation.kind.Observation? && observation.episode == Some(episode)
    requires forall i :: 0 <= i < |stored| ==> !P.Belongs(stored[i], episode)
    ensures Unannounced(stored + [observation], episode)
  {
    NoneBelong(stored, episode);
    ObservationTellsNothing(stored, observation, episode);
    assert (stored + [observation])[..|stored|] == stored;
  }

  /**
   * That happens: a worker that dies between the observation and the note of an opening keeps up, for it
   * saves nothing either, and leaves an episode that no row is open with.
   */
  lemma OrphanHappens(max: nat, rounds: seq<Round>, a: W.Attempt, round: Round)
    requires FreshRounds(max, rounds) && RoundsKeepUp(max, rounds) && round.attempts == [a] && a.dies
    requires Unused(P.Worked(max, DoingsOf(max, rounds)).stored, a)
    requires var w := WorldAfter(max, rounds);
      var (row, incident) := Observed(RowOf(w.rules, a.probe.resource), a.probe);
      && incident.Some? && incident.value.transition == Opened
      && W.Appended(w.journal, max, W.ObservationRecord(a, row, incident), a.observation).1 == J.Stored
    ensures var all := rounds + [round];
      && FreshRounds(max, all) && RoundsKeepUp(max, all)
      && Unannounced(P.Worked(max, DoingsOf(max, all)).stored, a.probe.drawn)
      && !IsOpen(WorldAfter(max, all).rules, a.probe.drawn)
  {
    var w, doings := WorldAfter(max, rounds), DoingsOf(max, rounds);
    var stored := P.Worked(max, doings).stored;
    var (row, incident) := Observed(RowOf(w.rules, a.probe.resource), a.probe);
    var observation := W.ObservationRecord(a, row, incident);
    OneJournal(max, rounds);
    RoundsTrack(max, rounds);
    OneMoreRound(max, rounds, round);
    OrphanRound(max, w, a, round);
    OrphanStored(max, w, doings, a, round, observation);
    ObservedUnannounced(stored, observation, a.probe.drawn);
    NoneBelong(stored, a.probe.drawn);
    assert !NotedOpen(stored, a.probe.drawn);
  }

  // ---------------------------------------------------------------- what is unannounced stays so

  lemma {:induction false} FirstStays(stored: seq<J.Record>, more: seq<J.Record>, episode: string)
    requires P.FirstRecord(stored, episode).Some?
    ensures P.FirstRecord(stored + more, episode) == P.FirstRecord(stored, episode)
  {
    if more == [] {
      assert stored + more == stored;
    } else {
      var all := stored + more;
      FirstStays(stored, more[..|more| - 1], episode);
      assert all[..|all| - 1] == stored + more[..|more| - 1];
    }
  }

  /** A turn never notes an episode that is unannounced: it is not drawn again, and no row is open with it. */
  lemma TurnLeavesUnannounced(max: nat, m: W.Memory, a: W.Attempt, stored: seq<J.Record>, episode: string)
    requires !IsOpen(m.rules, episode) && Unused(stored, a) && Unannounced(stored, episode)
    ensures Unannounced(stored + StoredBy(max, m, a), episode)
  {
    var noted := NoteBy(max, m, a);
    FirstStays(stored, StoredBy(max, m, a), episode);
    StoredByTells(max, m, a, stored, episode);
    if noted == [] {
      assert stored + noted == stored;
    } else {
      var (row, incident) := Observed(RowOf(m.rules, a.probe.resource), a.probe);
      W.JournalledIncident(max, m.journal, a, row, incident);
      var i := P.FirstRecordIsFirst(stored, episode);
      if incident.value.transition == Recovered {
        assert RowOf(m.rules, a.probe.resource).open;
      }
      NoteTells(stored, noted[0], episode);
      assert stored + noted == stored + [noted[0]];
    }
  }

  /** Turn `n`, counted from one, of a round that keeps up and saves. */
  lemma SavedTurnLeavesUnannounced(max: nat, w: W.World, doings: seq<P.Doing>, cycle: W.Cycle, n: nat, episode: string)
    requires w.journal == P.Worked(max, doings).journal && FreshAttempts(max, w, doings, cycle.attempts) && 0 < n <= |cycle.attempts|
    requires !IsOpen(MemoryAfter(max, w, cycle.attempts, n - 1).rules, episode)
    requires Unannounced(ArrivedBefore(max, w, doings, cycle.attempts, n - 1).stored, episode)
    ensures Unannounced(ArrivedBefore(max, w, doings, cycle.attempts, n).stored, episode)
  {
    NextStored(max, w, doings, cycle.attempts, n - 1);
    TurnLeavesUnannounced(max, MemoryAfter(max, w, cycle.attempts, n - 1), cycle.attempts[n - 1],
      ArrivedBefore(max, w, doings, cycle.attempts, n - 1).stored, episode);
  }

  lemma UnannouncedIsNotOpen(max: nat, w: W.World, doings: seq<P.Doing>, cycle: W.Cycle, n: nat, episode: string)
    requires w.journal == P.Worked(max, doings).journal && FreshAttempts(max, w, doings, cycle.attempts)
    requires W.Proper(cycle) && W.KeepsUp(max, w, cycle) && W.Saves(max, w, cycle) && n <= |cycle.attempts|
    requires Tracks(w.rules, P.Worked(max, doings).stored)
    requires Unannounced(ArrivedBefore(max, w, doings, cycle.attempts, n).stored, episode)
    ensures !IsOpen(MemoryAfter(max, w, cycle.attempts, n).rules, episode)
  {
    SavedTurnsTrack(max, w, doings, cycle, n);
    assert !NotedOpen(ArrivedBefore(max, w, doings, cycle.attempts, n).stored, episode);
  }

  lemma {:induction false} TurnsLeaveUnannounced(
    max: nat, w: W.World, doings: seq<P.Doing>, cycle: W.Cycle, n: nat, episode: string)
    requires w.journal == P.Worked(max, doings).journal && FreshAttempts(max, w, doings, cycle.attempts)
    requires W.Proper(cycle) && W.KeepsUp(max, w, cycle) && W.Saves(max, w, cycle) && n <= |cycle.attempts|
    requires Tracks(w.rules, P.Worked(max, doings).stored) && Unannounced(P.Worked(max, doings).stored, episode)
    ensures Unannounced(ArrivedBefore(max, w, doings, cycle.attempts, n).stored, episode)
    decreases n
  {
    if n == 0 {
      assert doings + [] == doings;
    } else {
      TurnsLeaveUnannounced(max, w, doings, cycle, n - 1, episode);
      UnannouncedIsNotOpen(max, w, doings, cycle, n - 1, episode);
      SavedTurnLeavesUnannounced(max, w, doings, cycle, n, episode);
    }
  }

  lemma {:induction false} UnsavedTurnsKeepFirst(max: nat, w: W.World, doings: seq<P.Doing>, attempts: seq<W.Attempt>, n: nat, episode: string)
    requires w.journal == P.Worked(max, doings).journal && FreshAttempts(max, w, doings, attempts) && n <= |attempts|
    requires P.FirstRecord(P.Worked(max, doings).stored, episode).Some?
    ensures P.FirstRecord(ArrivedBefore(max, w, doings, attempts, n).stored, episode).Some?
    decreases n
  {
    if n == 0 {
      assert doings + [] == doings;
    } else {
      UnsavedTurnsKeepFirst(max, w, doings, attempts, n - 1, episode);
      NextStored(max, w, doings, attempts, n - 1);
      FirstStays(ArrivedBefore(max, w, doings, attempts, n - 1).stored,
        StoredBy(max, MemoryAfter(max, w, attempts, n - 1), attempts[n - 1]), episode);
    }
  }

  lemma RoundLeavesUnannounced(max: nat, w: W.World, doings: seq<P.Doing>, round: Round, episode: string)
    requires w.journal == P.Worked(max, doings).journal && FreshAttempts(max, w, doings, round.attempts)
    requires W.Proper(CycleOf(max, w, round)) && W.KeepsUp(max, w, CycleOf(max, w, round))
    requires Tracks(w.rules, P.Worked(max, doings).stored) && Unannounced(P.Worked(max, doings).stored, episode)
    ensures Unannounced(P.Worked(max, doings + Arrivals(max, w, round.attempts) + Publication(max, w, round)).stored, episode)
  {
    var cycle, n := CycleOf(max, w, round), |round.attempts|;
    RoundArrives(max, w, doings, round);
    if W.Saves(max, w, cycle) {
      TurnsLeaveUnannounced(max, w, doings, cycle, n, episode);
    } else {
      UnsavedTurnsTell(max, w, doings, cycle, n, episode, None);
      UnsavedTurnsKeepFirst(max, w, doings, round.attempts, n, episode);
    }
  }

  lemma LastRoundLeavesUnannounced(max: nat, rounds: seq<Round>, episode: string)
    requires rounds != [] && FreshRounds(max, rounds) && RoundsKeepUp(max, rounds)
    requires Unannounced(P.Worked(max, DoingsOf(max, rounds[..|rounds| - 1])).stored, episode)
    ensures Unannounced(P.Worked(max, DoingsOf(max, rounds)).stored, episode)
  {
    var front := rounds[..|rounds| - 1];
    OneJournal(max, front);
    RoundsTrack(max, front);
    RoundLeavesUnannounced(max, WorldAfter(max, front), DoingsOf(max, front), rounds[|rounds| - 1], episode);
  }

  lemma {:induction false} OrphansStay(max: nat, first: seq<Round>, rounds: seq<Round>, episode: string)
    requires first <= rounds && FreshRounds(max, rounds) && RoundsKeepUp(max, rounds)
    requires Unannounced(P.Worked(max, DoingsOf(max, first)).stored, episode)
    ensures Unannounced(P.Worked(max, DoingsOf(max, rounds)).stored, episode)
    decreases |rounds|
  {
    if |first| == |rounds| {
      assert first == rounds;
    } else {
      OrphansStay(max, first, rounds[..|rounds| - 1], episode);
      LastRoundLeavesUnannounced(max, rounds, episode);
    }
  }

  /**
   * If after the first rounds an observation of an episode is stored and no note, it stays so through
   * every further run that keeps up: whenever nothing is pending its incident is published as open.
   */
  lemma OrphansStayOpen(max: nat, first: seq<Round>, rounds: seq<Round>, episode: string)
    requires first <= rounds && FreshRounds(max, rounds) && RoundsKeepUp(max, rounds) && episode != ""
    requires Unannounced(P.Worked(max, DoingsOf(max, first)).stored, episode)
    ensures Unannounced(P.Worked(max, DoingsOf(max, rounds)).stored, episode)
    ensures J.Pending(WorldAfter(max, rounds).journal.entries, P.BATCH) == [] ==>
      PublishedOpen(P.Worked(max, DoingsOf(max, rounds)).db, episode)
  {
    OrphansStay(max, first, rounds, episode);
    if J.Pending(WorldAfter(max, rounds).journal.entries, P.BATCH) == [] {
      OpenIncidentsExactly(max, rounds, episode);
    }
  }

  // ---------------------------------------------------------------- what an incident is about

  /** All stored records of the episode are about this resource. */
  ghost predicate AtHome(stored: seq<J.Record>, episode: string, resource: string) {
    forall i :: 0 <= i < |stored| && P.Belongs(stored[i], episode) ==> stored[i].resource == resource
  }

  predicate SameEpisode(a: J.Record, b: J.Record) {
    a.episode.Some? && a.episode == b.episode
  }

  /** Each episode is about one resource. */
  ghost predicate OneHome(stored: seq<J.Record>) {
    forall i, j :: 0 <= i < |stored| && 0 <= j < |stored| && SameEpisode(stored[i], stored[j]) ==>
      stored[i].resource == stored[j].resource
  }

  ghost predicate OwnHome(rules: Rules, stored: seq<J.Record>, resource: string) {
    var row := RowOf(rules, resource);
    row.open && row.episode.Some? ==> AtHome(stored, row.episode.value, resource)
  }

  /** Each episode is about one resource, and that of an open row about the row's. */
  ghost predicate Homes(rules: Rules, stored: seq<J.Record>) {
    OneHome(stored) && forall resource :: OwnHome(rules, stored, resource)
  }

  /** A record of this resource, of the episode its row is open with, of the drawn one, or of none. */
  predicate FromTurn(row: RuleRow, a: W.Attempt, r: J.Record) {
    && r.resource == a.probe.resource && r.rule == a.rule && r.observedAt == a.probe.now
    && (r.episode.Some? ==> r.episode.value == a.probe.drawn || (row.open && row.episode == r.episode))
  }

  /** What a turn stores is about its own resource and rule, at its own time. */
  lemma StoredFromTurn(max: nat, m: W.Memory, a: W.Attempt, i: nat)
    requires RowOf(m.rules, a.probe.resource).open || RowOf(m.rules, a.probe.resource).episode == None
    requires i < |StoredBy(max, m, a)|
    ensures FromTurn(RowOf(m.rules, a.probe.resource), a, StoredBy(max, m, a)[i])
  {
    var (row, incident) := Observed(RowOf(m.rules, a.probe.resource), a.probe);
    W.JournalledIncident(max, m.journal, a, row, incident);
  }

  /** All of it is. */
  ghost predicate AllFromTurn(row: RuleRow, a: W.Attempt, records: seq<J.Record>) {
    forall i :: 0 <= i < |records| ==> FromTurn(row, a, records[i])
  }

  lemma HomeGrows(stored: seq<J.Record>, more: seq<J.Record>, episode: string, resource: string)
    requires AtHome(stored, episode, resource)
    requires forall i :: 0 <= i < |more| && P.Belongs(more[i], episode) ==> more[i].resource == resource
    ensures AtHome(stored + more, episode, resource)
  {
    var all := stored + more;
    forall i | 0 <= i < |all| && P.Belongs(all[i], episode) ensures all[i].resource == resource {
      assert all[i] == if i < |stored| then stored[i] else more[i - |stored|];
    }
  }

  /** The drawn identifier is in no stored record, and no row is open with it. */
  ghost predicate FreshlyDrawn(rules: Rules, stored: seq<J.Record>, drawn: string) {
    && (forall i :: 0 <= i < |stored| ==> !P.Belongs(stored[i], drawn))
    && forall resource :: RowOf(rules, resource).open ==> RowOf(rules, resource).episode != Some(drawn)
  }

  /** What one turn stores keeps every episode about one resource. */
  lemma StoredStaysOne(row: RuleRow, stored: seq<J.Record>, more: seq<J.Record>, a: W.Attempt)
    requires OneHome(stored) && (row.open && row.episode.Some? ==> AtHome(stored, row.episode.value, a.probe.resource))
    requires forall i :: 0 <= i < |stored| ==> !P.Belongs(stored[i], a.probe.drawn)
    requires AllFromTurn(row, a, more)
    ensures OneHome(stored + more)
  {
    var all := stored + more;
    forall i, j | 0 <= i < |all| && 0 <= j < |all| && SameEpisode(all[i], all[j]) ensures all[i].resource == all[j].resource {
      AlsoAtHome(row, stored, more, a, i, j);
      AlsoAtHome(row, stored, more, a, j, i);
    }
  }

  lemma AlsoAtHome(row: RuleRow, stored: seq<J.Record>, more: seq<J.Record>, a: W.Attempt, i: nat, j: nat)
    requires OneHome(stored) && (row.open && row.episode.Some? ==> AtHome(stored, row.episode.value, a.probe.resource))
    requires forall k :: 0 <= k < |stored| ==> !P.Belongs(stored[k], a.probe.drawn)
    requires AllFromTurn(row, a, more)
    requires i < |stored + more| && j < |stored + more| && SameEpisode((stored + more)[i], (stored + more)[j])
    ensures i >= |stored| ==> (stored + more)[j].resource == (stored + more)[i].resource
    ensures i < |stored| && j < |stored| ==> (stored + more)[j].resource == (stored + more)[i].resource
  {
    if i >= |stored| {
      var x := more[i - |stored|];
      assert FromTurn(row, a, x);
      if j < |stored| {
        assert stored[j].episode == x.episode;
      } else {
        assert FromTurn(row, a, more[j - |stored|]);
      }
    }
  }

  /** One row's episode stays at home: its own turn's records are its resource's, and others' are of other episodes. */
  lemma RowStaysHome(rules: Rules, stored: seq<J.Record>, more: seq<J.Record>, a: W.Attempt, resource: string)
    requires OwnHome(rules, stored, resource) && EpisodesApart(rules) && FreshlyDrawn(rules, stored, a.probe.drawn)
    requires AllFromTurn(RowOf(rules, a.probe.resource), a, more)
    ensures OwnHome(rules, stored + more, resource)
  {
    var row := RowOf(rules, resource);
    if row.open && row.episode.Some? {
      HomeGrows(stored, more, row.episode.value, resource);
    }
  }

  /** What one turn stores keeps every episode at home, for rows that are as the turn found its own. */
  lemma StoredStaysHome(rules: Rules, stored: seq<J.Record>, more: seq<J.Record>, a: W.Attempt)
    requires Homes(rules, stored) && EpisodesApart(rules) && FreshlyDrawn(rules, stored, a.probe.drawn)
    requires AllFromTurn(RowOf(rules, a.probe.resource), a, more)
    ensures Homes(rules, stored + more)
  {
    assert OwnHome(rules, stored, a.probe.resource);
    StoredStaysOne(RowOf(rules, a.probe.resource), stored, more, a);
    forall resource ensures OwnHome(rules, stored + more, resource) {
      assert OwnHome(rules, stored, resource);
      RowStaysHome(rules, stored, more, a, resource);
    }
  }

  /** A drawn identifier is at home where it is drawn. */
  lemma DrawnIsAtHome(row: RuleRow, stored: seq<J.Record>, more: seq<J.Record>, a: W.Attempt)
    requires forall i :: 0 <= i < |stored| ==> !P.Belongs(stored[i], a.probe.drawn)
    requires AllFromTurn(row, a, more)
    ensures AtHome(stored + more, a.probe.drawn, a.probe.resource)
  {
    HomeGrows(stored, more, a.probe.drawn, a.probe.resource);
  }

  /** The row of the turn's resource after it is closed, as before, or open with the drawn identifier. */
  lemma ObservedStaysHome(rules: Rules, stored: seq<J.Record>, p: Probe)
    requires Homes(rules, stored) && AtHome(stored, p.drawn, p.resource)
    ensures Homes(rules[p.resource := Observed(RowOf(rules, p.resource), p).0], stored)
  {
    var rules' := rules[p.resource := Observed(RowOf(rules, p.resource), p).0];
    forall resource ensures OwnHome(rules', stored, resource) {
      assert OwnHome(rules, stored, resource);
      assert resource != p.resource ==> RowOf(rules', resource) == RowOf(rules, resource);
    }
  }

  lemma UnusedIsFresh(rules: Rules, before: seq<J.Record>, stored: seq<J.Record>, a: W.Attempt)
    requires Tracks(rules, before) && before <= stored && Unused(stored, a)
    ensures FreshlyDrawn(rules, stored, a.probe.drawn)
  {
    forall i | 0 <= i < |before| ensures !P.Belongs(before[i], a.probe.drawn) {
      assert stored[i] == before[i];
    }
    NoneBelong(before, a.probe.drawn);
    assert !NotedOpen(before, a.probe.drawn);
  }

  /** Turn `n`, counted from one, of a round that keeps up and saves. */
  lemma SavedTurnStaysHome(max: nat, w: W.World, doings: seq<P.Doing>, cycle: W.Cycle, n: nat)
    requires w.journal == P.Worked(max, doings).journal && FreshAttempts(max, w, doings, cycle.attempts)
    requires W.Proper(cycle) && W.KeepsUp(max, w, cycle) && W.Saves(max, w, cycle) && 0 < n <= |cycle.attempts|
    requires Tracks(w.rules, P.Worked(max, doings).stored)
    requires Homes(MemoryAfter(max, w, cycle.attempts, n - 1).rules, ArrivedBefore(max, w, doings, cycle.attempts, n - 1).stored)
    ensures Homes(MemoryAfter(max, w, cycle.attempts, n).rules, ArrivedBefore(max, w, doings, cycle.attempts, n).stored)
  {
    var m, a := MemoryAfter(max, w, cycle.attempts, n - 1), cycle.attempts[n - 1];
    var stored := ArrivedBefore(max, w, doings, cycle.attempts, n - 1).stored;
    SavedTurnsTrack(max, w, doings, cycle, n - 1);
    AliveBefore(max, w, cycle.attempts, n - 1);
    UnusedIsFresh(m.rules, stored, stored, a);
    AllStoredFromTurn(max, m, a);
    StoredStaysHome(m.rules, stored, StoredBy(max, m, a), a);
    DrawnIsAtHome(RowOf(m.rules, a.probe.resource), stored, StoredBy(max, m, a), a);
    ObservedStaysHome(m.rules, stored + StoredBy(max, m, a), a.probe);
    NextTurn(max, w, doings, cycle.attempts, n - 1);
    NextStored(max, w, doings, cycle.attempts, n - 1);
  }

  lemma {:induction false} SavedTurnsStayHome(max: nat, w: W.World, doings: seq<P.Doing>, cycle: W.Cycle, n: nat)
    requires w.journal == P.Worked(max, doings).journal && FreshAttempts(max, w, doings, cycle.attempts)
    requires W.Proper(cycle) && W.KeepsUp(max, w, cycle) && W.Saves(max, w, cycle) && n <= |cycle.attempts|
    requires Tracks(w.rules, P.Worked(max, doings).stored) && Homes(w.rules, P.Worked(max, doings).stored)
    ensures Homes(MemoryAfter(max, w, cycle.attempts, n).rules, ArrivedBefore(max, w, doings, cycle.attempts, n).stored)
    decreases n
  {
    if n == 0 {
      assert doings + [] == doings;
    } else {
      SavedTurnsStayHome(max, w, doings, cycle, n - 1);
      SavedTurnStaysHome(max, w, doings, cycle, n);
    }
  }

  lemma AllStoredFromTurn(max: nat, m: W.Memory, a: W.Attempt)
    requires RowOf(m.rules, a.probe.resource).open || RowOf(m.rules, a.probe.resource).episode == None
    ensures AllFromTurn(RowOf(m.rules, a.probe.resource), a, StoredBy(max, m, a))
  {
    forall i | 0 <= i < |StoredBy(max, m, a)| ensures FromTurn(RowOf(m.rules, a.probe.resource), a, StoredBy(max, m, a)[i]) {
      StoredFromTurn(max, m, a, i);
    }
  }

  lemma LongerStill(first: seq<J.Record>, middle: seq<J.Record>, last: seq<J.Record>, more: seq<J.Record>)
    requires first <= middle && last == middle + more
    ensures first <= last
  {
  }

  lemma {:induction false} StoredStays(max: nat, w: W.World, doings: seq<P.Doing>, attempts: seq<W.Attempt>, n: nat)
    requires w.journal == P.Worked(max, doings).journal && FreshAttempts(max, w, doings, attempts) && n <= |attempts|
    ensures P.Worked(max, doings).stored <= ArrivedBefore(max, w, doings, attempts, n).stored
    decreases n
  {
    if n == 0 {
      assert doings + [] == doings;
    } else {
      StoredStays(max, w, doings, attempts, n - 1);
      NextStored(max, w, doings, attempts, n - 1);
      LongerStill(P.Worked(max, doings).stored, ArrivedBefore(max, w, doings, attempts, n - 1).stored,
        ArrivedBefore(max, w, doings, attempts, n).stored, StoredBy(max, MemoryAfter(max, w, attempts, n - 1), attempts[n - 1]));
    }
  }

  /** Nobody has touched the row of a turn's resource before in its cycle. */
  lemma OwnRowIsSaved(max: nat, w: W.World, cycle: W.Cycle, n: nat)
    requires W.Proper(cycle) && n < |cycle.attempts|
    ensures var resource := cycle.attempts[n].probe.resource;
      RowOf(MemoryAfter(max, w, cycle.attempts, n).rules, resource) == RowOf(w.rules, resource)
  {
    W.OtherAttempts(max, W.Awake(w), cycle.attempts[..n], cycle.attempts[n].probe.resource);
  }

  lemma UnsavedTurnIsFresh(max: nat, w: W.World, doings: seq<P.Doing>, cycle: W.Cycle, n: nat)
    requires w.journal == P.Worked(max, doings).journal && FreshAttempts(max, w, doings, cycle.attempts)
    requires n < |cycle.attempts| && Tracks(w.rules, P.Worked(max, doings).stored)
    ensures FreshlyDrawn(w.rules, ArrivedBefore(max, w, doings, cycle.attempts, n).stored, cycle.attempts[n].probe.drawn)
  {
    StoredStays(max, w, doings, cycle.attempts, n);
    UnusedIsFresh(w.rules, P.Worked(max, doings).stored, ArrivedBefore(max, w, doings, cycle.attempts, n).stored, cycle.attempts[n]);
  }

  /** Turn `n`, counted from one, of a round that does not save, against the rows saved before. */
  lemma UnsavedTurnStaysHome(max: nat, w: W.World, doings: seq<P.Doing>, cycle: W.Cycle, n: nat)
    requires w.journal == P.Worked(max, doings).journal && FreshAttempts(max, w, doings, cycle.attempts)
    requires W.Proper(cycle) && 0 < n <= |cycle.attempts| && Tracks(w.rules, P.Worked(max, doings).stored)
    requires Homes(w.rules, ArrivedBefore(max, w, doings, cycle.attempts, n - 1).stored)
    ensures Homes(w.rules, ArrivedBefore(max, w, doings, cycle.attempts, n).stored)
  {
    var m, a := MemoryAfter(max, w, cycle.attempts, n - 1), cycle.attempts[n - 1];
    OwnRowIsSaved(max, w, cycle, n - 1);
    assert RowOf(w.rules, a.probe.resource).open || RowOf(w.rules, a.probe.resource).episode == None;
    AllStoredFromTurn(max, m, a);
    UnsavedTurnIsFresh(max, w, doings, cycle, n - 1);
    StoredStaysHome(w.rules, ArrivedBefore(max, w, doings, cycle.attempts, n - 1).stored, StoredBy(max, m, a), a);
    NextStored(max, w, doings, cycle.attempts, n - 1);
  }

  lemma {:induction false} UnsavedTurnsStayHome(max: nat, w: W.World, doings: seq<P.Doing>, cycle: W.Cycle, n: nat)
    requires w.journal == P.Worked(max, doings).journal && FreshAttempts(max, w, doings, cycle.attempts)
    requires W.Proper(cycle) && n <= |cycle.attempts|
    requires Tracks(w.rules, P.Worked(max, doings).stored) && Homes(w.rules, P.Worked(max, doings).stored)
    ensures Homes(w.rules, ArrivedBefore(max, w, doings, cycle.attempts, n).stored)
    decreases n
  {
    if n == 0 {
      assert doings + [] == doings;
    } else {
      UnsavedTurnsStayHome(max, w, doings, cycle, n - 1);
      UnsavedTurnStaysHome(max, w, doings, cycle, n);
    }
  }

  lemma RoundStaysHome(max: nat, w: W.World, doings: seq<P.Doing>, round: Round)
    requires w.journal == P.Worked(max, doings).journal && FreshAttempts(max, w, doings, round.attempts)
    requires W.Proper(CycleOf(max, w, round)) && W.KeepsUp(max, w, CycleOf(max, w, round))
    requires Tracks(w.rules, P.Worked(max, doings).stored) && Homes(w.rules, P.Worked(max, doings).stored)
    ensures Homes(W.After(max, w, CycleOf(max, w, round)).rules,
      P.Worked(max, doings + Arrivals(max, w, round.attempts) + Publication(max, w, round)).stored)
  {
    var cycle, n := CycleOf(max, w, round), |round.attempts|;
    assert round.attempts[..n] == round.attempts;
    RoundArrives(max, w, doings, round);
    if W.Saves(max, w, cycle) {
      SavedTurnsStayHome(max, w, doings, cycle, n);
    } else {
      UnsavedTurnsStayHome(max, w, doings, cycle, n);
    }
  }

  lemma {:induction false} RoundsStayHome(max: nat, rounds: seq<Round>)
    requires FreshRounds(max, rounds) && RoundsKeepUp(max, rounds)
    ensures Homes(WorldAfter(max, rounds).rules, P.Worked(max, DoingsOf(max, rounds)).stored)
  {
    if rounds != [] {
      var n := |rounds| - 1;
      RoundsStayHome(max, rounds[..n]);
      OneJournal(max, rounds[..n]);
      RoundsTrack(max, rounds[..n]);
      RoundStaysHome(max, WorldAfter(max, rounds[..n]), DoingsOf(max, rounds[..n]), rounds[n]);
    }
  }

  lemma FirstAtHome(stored: seq<J.Record>, episode: string)
    requires OneHome(stored) && P.FirstRecord(stored, episode).Some?
    ensures AtHome(stored, episode, P.FirstRecord(stored, episode).value.resource)
  {
    var i := P.FirstRecordIsFirst(stored, episode);
    forall j | 0 <= j < |stored| && P.Belongs(stored[j], episode) ensures stored[j].resource == stored[i].resource {
      assert SameEpisode(stored[j], stored[i]);
    }
  }

  /** After any rounds that keep up, once nothing is pending, all stored records of an incident are about its resource. */
  lemma IncidentsHaveOneResource(max: nat, rounds: seq<Round>, episode: string)
    requires FreshRounds(max, rounds) && RoundsKeepUp(max, rounds) && episode != ""
    requires J.Pending(WorldAfter(max, rounds).journal.entries, P.BATCH) == []
    ensures var w := P.Worked(max, DoingsOf(max, rounds));
      episode in w.db.incidents ==> AtHome(w.stored, episode, w.db.incidents[episode].resource)
  {
    var w := P.Worked(max, DoingsOf(max, rounds));
    OneJournal(max, rounds);
    RoundsStayHome(max, rounds);
    P.CyclesConverge(max, DoingsOf(max, rounds));
    P.IncidentsEndExactly(w.stored, episode);
    if episode in w.db.incidents {
      FirstAtHome(w.stored, episode);
    }
  }

  /** While a saved row is open, the incident of its episode is published, open, and about the resource of that row. */
  lemma IncidentsAreAboutTheirRows(max: nat, rounds: seq<Round>, resource: string)
    requires FreshRounds(max, rounds) && RoundsKeepUp(max, rounds) && RowOf(WorldAfter(max, rounds).rules, resource).open
    requires J.Pending(WorldAfter(max, rounds).journal.entries, P.BATCH) == []
    ensures var db, row := P.Worked(max, DoingsOf(max, rounds)).db, RowOf(WorldAfter(max, rounds).rules, resource);
      row.episode.Some? && PublishedOpen(db, row.episode.value) && db.incidents[row.episode.value].resource == resource
  {
    var w, rules := P.Worked(max, DoingsOf(max, rounds)), WorldAfter(max, rounds).rules;
    OneJournal(max, rounds);
    RoundsTrack(max, rounds);
    RoundsStayHome(max, rounds);
    var episode := RowOf(rules, resource).episode.value;
    assert IsOpen(rules, episode);
    OpenIncidentsExactly(max, rounds, episode);
    assert OwnHome(rules, w.stored, resource);
    P.CyclesConverge(max, DoingsOf(max, rounds));
    P.IncidentsEndExactly(w.stored, episode);
    var i := P.FirstRecordIsFirst(w.stored, episode);
  }
}
