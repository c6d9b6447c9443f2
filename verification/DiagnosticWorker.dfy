/**
 * The cycles of the diagnostics worker: probe every resource, journal each observation and the note
 * of an opened or recovered episode, save the rules, and acknowledge what was published. The journal may
 * refuse a record, and the process may die anywhere; it then restarts from the rules saved last.
 */
module DiagnosticWorker {
  import opened Options
  import opened DiagnosticRules
  import J = DiagnosticJournal

  // ---------------------------------------------------------------- one resource

  /** What the outside contributes to one append: identifier, size, clock and disk. */
  datatype Write = Write(id: string, bytes: nat, now: int, disk: J.Disk)

  /** The turn of one resource; `dies` if the process dies before it appends the note. */
  datatype Attempt = Attempt(probe: Probe, rule: string, observation: Write, note: Write, dies: bool)

  /** The rules in memory, the journal, and the notes it has stored so far, in order. */
  datatype Memory = Memory(rules: Rules, journal: J.Journal, notes: seq<Incident>, alive: bool)

  function StateName(transition: Transition): string {
    match transition case Opened => "open" case Recovered => "recovered"
  }

  /** The episode an observation belongs to: the open one, or the one its own incident names. */
  function EpisodeOf(row: RuleRow, incident: Option<Incident>): Option<string> {
    if row.episode.Some? && row.episode.value != "" then row.episode
    else if incident.Some? && incident.value.episode != "" then Some(incident.value.episode)
    else None
  }

  function ObservationRecord(a: Attempt, row: RuleRow, incident: Option<Incident>): J.Record {
    J.Record(a.observation.id, J.Observation, a.probe.resource, a.rule, a.probe.now, EpisodeOf(row, incident))
  }

  function NoteRecord(a: Attempt, incident: Incident): J.Record {
    J.Record(a.note.id, J.IncidentNote(StateName(incident.transition)), a.probe.resource, a.rule, a.probe.now, Some(incident.episode))
  }

  function Appended(j: J.Journal, max: nat, r: J.Record, w: Write): (J.Journal, J.AppendResult) {
    J.Appended(j, max, r, w.bytes, w.now, w.disk)
  }

  /** The journal after one turn, and the incident whose note it stored. */
  function Journalled(max: nat, j: J.Journal, a: Attempt, row: RuleRow, incident: Option<Incident>): (J.Journal, Option<Incident>) {
    var (observed, result) := Appended(j, max, ObservationRecord(a, row, incident), a.observation);
    if incident == None || result == J.Full || a.dies then (observed, None)
    else
      var (noted, result) := Appended(observed, max, NoteRecord(a, incident.value), a.note);
      (noted, if result == J.Stored then incident else None)
  }

  function Attempted(max: nat, m: Memory, a: Attempt): Memory {
    if !m.alive then m
    else
      var (row, incident) := Observed(RowOf(m.rules, a.probe.resource), a.probe);
      var (journal, note) := Journalled(max, m.journal, a, row, incident);
      Memory(m.rules[a.probe.resource := row], journal, Noted(m.notes, note), !a.dies)
  }

  function AttemptAll(max: nat, m: Memory, attempts: seq<Attempt>): Memory {
    if attempts == [] then m
    else Attempted(max, AttemptAll(max, m, attempts[..|attempts| - 1]), attempts[|attempts| - 1])
  }

  /**
   * From a row that names an episode exactly while it is open, an observation belongs to the episode that
   * is open after it, or that it has closed, and to none otherwise.
   */
  lemma ObservationsNameTheirEpisode(a: Attempt, row: RuleRow)
    requires (if row.open then row.episode.Some? && row.episode.value != "" else row.episode == None) && a.probe.drawn != ""
    ensures var (row', incident) := Observed(row, a.probe);
      ObservationRecord(a, row', incident).episode ==
        if row'.open then row'.episode else if row.open then row.episode else None
    ensures var (row', _) := Observed(row, a.probe);
      row'.open ==> row'.episode == if row.open then row.episode else Some(a.probe.drawn)
  {
  }

  // ---------------------------------------------------------------- cycles

  /**
   * One cycle; `saves` unless the process dies after the last turn and before the rules are saved.
   * What is published after the save is acknowledged: these identifiers, in this order.
   */
  datatype Cycle = Cycle(attempts: seq<Attempt>, saves: bool, acked: seq<string>)

  /** What is left between two cycles: the saved rules, the journal and its notes. */
  datatype World = World(rules: Rules, journal: J.Journal, notes: seq<Incident>)

  function Awake(w: World): Memory {
    Memory(w.rules, w.journal, w.notes, true)
  }

  predicate Saves(max: nat, w: World, cycle: Cycle) {
    AttemptAll(max, Awake(w), cycle.attempts).alive && cycle.saves
  }

  function After(max: nat, w: World, cycle: Cycle): World {
    var m := AttemptAll(max, Awake(w), cycle.attempts);
    if m.alive && cycle.saves then World(m.rules, AcknowledgeIds(m.journal, cycle.acked), m.notes)
    else World(w.rules, m.journal, m.notes)
  }

  function AcknowledgeIds(j: J.Journal, ids: seq<string>): J.Journal {
    if ids == [] then j
    else
      var before := AcknowledgeIds(j, ids[..|ids| - 1]);
      before.(entries := J.Acknowledge(before.entries, ids[|ids| - 1]))
  }

  function Run(max: nat, cycles: seq<Cycle>): World {
    if cycles == [] then World(map[], J.Journal([], 0, None), [])
    else After(max, Run(max, cycles[..|cycles| - 1]), cycles[|cycles| - 1])
  }

  /** The worker process, with the rules it saves in the journal's metadata. */
  class Worker {
    const spool: J.DiagnosticSpool
    const rules: DiagnosticRuleSet
    var saved: Rules
    ghost var notes: seq<Incident>

    ghost function View(): World
      reads this, spool
    {
      World(saved, spool.View(), notes)
    }

    constructor (spool: J.DiagnosticSpool, saved: Rules, ghost notes: seq<Incident>)
      ensures this.spool == spool && this.saved == saved && this.notes == notes
      ensures fresh(rules) && rules.states == saved
    {
      this.spool, this.saved, this.notes := spool, saved, notes;
      rules := new DiagnosticRuleSet(saved);
    }

    method AttemptOne(a: Attempt)
      modifies this`notes, spool, rules
      ensures Memory(rules.states, spool.View(), notes, !a.dies)
        == Attempted(spool.max, old(Memory(rules.states, spool.View(), notes, true)), a)
    {
      var incident := rules.Observe(a.probe);
      var row := rules.states[a.probe.resource];
      var active := row.episode.Some? && row.episode.value != "";
      var named := incident.Some? && incident.value.episode != "";
      var episode := if active then row.episode else if named then Some(incident.value.episode) else None;
      var observation := J.Record(a.observation.id, J.Observation, a.probe.resource, a.rule, a.probe.now, episode);
      var result := spool.Append(observation, a.observation.bytes, a.observation.now, a.observation.disk);
      if result == J.Full || incident == None || a.dies {
        assert notes + [] == notes;
        return;
      }
      var note := NoteRecord(a, incident.value);
      result := spool.Append(note, a.note.bytes, a.note.now, a.note.disk);
      if result == J.Stored {
        notes := notes + [incident.value];
      } else {
        assert notes + [] == notes;
      }
    }

    /** One cycle, and the restart if the process dies in it. */
    method RunCycle(cycle: Cycle)
      requires rules.states == saved
      modifies this, spool, rules
      ensures View() == After(spool.max, old(View()), cycle)
      ensures rules.states == saved
    {
      var alive := true;
      for i := 0 to |cycle.attempts|
        invariant saved == old(saved)
        invariant Memory(rules.states, spool.View(), notes, alive)
          == AttemptAll(spool.max, Awake(old(View())), cycle.attempts[..i])
      {
        assert cycle.attempts[..i + 1][..i] == cycle.attempts[..i];
        if alive {
          AttemptOne(cycle.attempts[i]);
          alive := !cycle.attempts[i].dies;
        }
      }
      assert cycle.attempts[..|cycle.attempts|] == cycle.attempts;
      if !alive || !cycle.saves {
        rules.states := saved;
        return;
      }
      saved := rules.states;
      AckEach(cycle.acked);
    }

    method AckEach(acked: seq<string>)
      modifies spool
      ensures spool.View() == AcknowledgeIds(old(spool.View()), acked)
    {
      assert acked[..0] == [];
      for i := 0 to |acked|
        invariant spool.View() == AcknowledgeIds(old(spool.View()), acked[..i])
      {
        assert acked[..i + 1][..i] == acked[..i];
        spool.Ack(acked[i]);
      }
      assert acked[..|acked|] == acked;
    }
  }

  // ---------------------------------------------------------------- when episodes stay paired

  /** Each resource's saved row agrees with the notes the journal has stored about it. */
  ghost predicate Paired(w: World, resource: string) {
    EpisodeSound(RowOf(w.rules, resource), IncidentsOf(w.notes, resource))
  }

  ghost predicate AllPaired(w: World) {
    forall resource :: Paired(w, resource)
  }

  /** A cycle probes each resource once, and draws an identifier that is not empty. */
  ghost predicate Proper(cycle: Cycle) {
    && (forall i, j :: 0 <= i < j < |cycle.attempts| ==> cycle.attempts[i].probe.resource != cycle.attempts[j].probe.resource)
    && (forall i :: 0 <= i < |cycle.attempts| ==> cycle.attempts[i].probe.drawn != "")
  }

  /** What attempt `i` has to announce: its resource is untouched by the attempts before it. */
  function Announced(w: World, cycle: Cycle, i: nat): Option<Incident>
    requires i < |cycle.attempts|
  {
    Observed(RowOf(w.rules, cycle.attempts[i].probe.resource), cycle.attempts[i].probe).1
  }

  /** The journal stored the note of attempt `i`: nothing before it killed the process and no append was refused. */
  predicate NoteStored(max: nat, w: World, cycle: Cycle, i: nat)
    requires i < |cycle.attempts|
  {
    var m := AttemptAll(max, Awake(w), cycle.attempts[..i]);
    var (row, incident) := Observed(RowOf(w.rules, cycle.attempts[i].probe.resource), cycle.attempts[i].probe);
    m.alive && Journalled(max, m.journal, cycle.attempts[i], row, incident).1.Some?
  }

  /** Whatever the cycle announces is in the journal exactly if the rules that announced it are saved. */
  ghost predicate KeepsUp(max: nat, w: World, cycle: Cycle) {
    forall i :: 0 <= i < |cycle.attempts| && Announced(w, cycle, i).Some? ==>
      (NoteStored(max, w, cycle, i) <==> Saves(max, w, cycle))
  }

  /** One turn: the pairing survives exactly if there was nothing to announce, or note and rules were kept or lost together. */
  lemma TurnKeepsPairing(row: RuleRow, notes: seq<Incident>, p: Probe, stored: bool, saved: bool)
    requires EpisodeSound(row, notes) && p.drawn != ""
    ensures var (row', incident) := Observed(row, p);
      var kept := if saved then row' else row;
      var noted := if stored then Noted(notes, incident) else notes;
      EpisodeSound(kept, noted) <==> incident == None || (stored <==> saved)
  {
    var (row', incident) := Observed(row, p);
    ObservedKeepsEpisodes(row, notes, p);
    assert Noted(notes, None) == notes;
    if incident.Some? {
      assert row'.open != row.open && |Noted(notes, incident)| == |notes| + 1;
    }
  }

  lemma JournalledIncident(max: nat, j: J.Journal, a: Attempt, row: RuleRow, incident: Option<Incident>)
    ensures Journalled(max, j, a, row, incident).1 in {None, incident}
  {
  }

  lemma ObservedResource(row: RuleRow, p: Probe)
    ensures Observed(row, p).1.Some? ==> Observed(row, p).1.value.resource == p.resource
  {
  }

  lemma OwnAttempt(max: nat, m: Memory, a: Attempt)
    requires m.alive
    ensures var resource := a.probe.resource;
      var (row, incident) := Observed(RowOf(m.rules, resource), a.probe);
      && RowOf(Attempted(max, m, a).rules, resource) == row
      && IncidentsOf(Attempted(max, m, a).notes, resource)
           == Noted(IncidentsOf(m.notes, resource), Journalled(max, m.journal, a, row, incident).1)
  {
    var resource := a.probe.resource;
    var (row, incident) := Observed(RowOf(m.rules, resource), a.probe);
    var note := Journalled(max, m.journal, a, row, incident).1;
    JournalledIncident(max, m.journal, a, row, incident);
    ObservedResource(RowOf(m.rules, resource), a.probe);
    IncidentsOfNoted(m.notes, note, resource);
    assert Noted(IncidentsOf(m.notes, resource), None) == IncidentsOf(m.notes, resource);
  }

  lemma OtherAttempt(max: nat, m: Memory, a: Attempt, resource: string)
    requires a.probe.resource != resource
    ensures RowOf(Attempted(max, m, a).rules, resource) == RowOf(m.rules, resource)
    ensures IncidentsOf(Attempted(max, m, a).notes, resource) == IncidentsOf(m.notes, resource)
  {
    if m.alive {
      var (row, incident) := Observed(RowOf(m.rules, a.probe.resource), a.probe);
      var note := Journalled(max, m.journal, a, row, incident).1;
      JournalledIncident(max, m.journal, a, row, incident);
      ObservedResource(RowOf(m.rules, a.probe.resource), a.probe);
      IncidentsOfNoted(m.notes, note, resource);
    }
  }

  /** Attempts at other resources leave a resource alone. */
  lemma {:induction false} OtherAttempts(max: nat, m: Memory, attempts: seq<Attempt>, resource: string)
    requires forall i :: 0 <= i < |attempts| ==> attempts[i].probe.resource != resource
    ensures var m' := AttemptAll(max, m, attempts);
      RowOf(m'.rules, resource) == RowOf(m.rules, resource) && IncidentsOf(m'.notes, resource) == IncidentsOf(m.notes, resource)
  {
    if attempts != [] {
      var n := |attempts| - 1;
      OtherAttempts(max, m, attempts[..n], resource);
      OtherAttempt(max, AttemptAll(max, m, attempts[..n]), attempts[n], resource);
    }
  }

  /** What the first `n` attempts, attempt `i` among them, do to the resource of attempt `i`. */
  ghost predicate Handled(max: nat, w: World, cycle: Cycle, i: nat, n: nat)
    requires i < n <= |cycle.attempts|
  {
    var resource := cycle.attempts[i].probe.resource;
    var m := AttemptAll(max, Awake(w), cycle.attempts[..n]);
    && (m.alive ==> RowOf(m.rules, resource) == Observed(RowOf(w.rules, resource), cycle.attempts[i].probe).0)
    && IncidentsOf(m.notes, resource)
         == Noted(IncidentsOf(w.notes, resource), if NoteStored(max, w, cycle, i) then Announced(w, cycle, i) else None)
  }

  lemma HandledAtOnce(max: nat, w: World, cycle: Cycle, i: nat)
    requires Proper(cycle) && i < |cycle.attempts|
    ensures Handled(max, w, cycle, i, i + 1)
  {
    var a := cycle.attempts[i];
    var resource := a.probe.resource;
    var before := AttemptAll(max, Awake(w), cycle.attempts[..i]);
    OtherAttempts(max, Awake(w), cycle.attempts[..i], resource);
    assert cycle.attempts[..i + 1][..i] == cycle.attempts[..i];
    assert Noted(IncidentsOf(w.notes, resource), None) == IncidentsOf(w.notes, resource);
    if before.alive {
      OwnAttempt(max, before, a);
      var (row, incident) := Observed(RowOf(w.rules, resource), a.probe);
      JournalledIncident(max, before.journal, a, row, incident);
    }
  }

  lemma HandledStays(max: nat, w: World, cycle: Cycle, i: nat, n: nat)
    requires Proper(cycle) && i + 1 < n <= |cycle.attempts| && Handled(max, w, cycle, i, n - 1)
    ensures Handled(max, w, cycle, i, n)
  {
    var resource, a := cycle.attempts[i].probe.resource, cycle.attempts[n - 1];
    var m := AttemptAll(max, Awake(w), cycle.attempts[..n - 1]);
    assert cycle.attempts[..n][..n - 1] == cycle.attempts[..n - 1];
    OtherAttempt(max, m, a, resource);
    assert AttemptAll(max, Awake(w), cycle.attempts[..n]) == Attempted(max, m, a);
    assert Attempted(max, m, a).alive ==> m.alive;
  }

  lemma {:induction false} HandledUpTo(max: nat, w: World, cycle: Cycle, i: nat, n: nat)
    requires Proper(cycle) && i < n <= |cycle.attempts|
    ensures Handled(max, w, cycle, i, n)
    decreases n
  {
    if i + 1 < n {
      HandledUpTo(max, w, cycle, i, n - 1);
      HandledStays(max, w, cycle, i, n);
    } else {
      HandledAtOnce(max, w, cycle, i);
    }
  }

  /** What a cycle does to the resource of attempt `i`. */
  lemma AttemptedResource(max: nat, w: World, cycle: Cycle, i: nat)
    requires Proper(cycle) && i < |cycle.attempts|
    ensures var resource := cycle.attempts[i].probe.resource;
      && (Saves(max, w, cycle) ==>
            RowOf(After(max, w, cycle).rules, resource) == Observed(RowOf(w.rules, resource), cycle.attempts[i].probe).0)
      && (!Saves(max, w, cycle) ==> After(max, w, cycle).rules == w.rules)
      && IncidentsOf(After(max, w, cycle).notes, resource)
           == Noted(IncidentsOf(w.notes, resource), if NoteStored(max, w, cycle, i) then Announced(w, cycle, i) else None)
  {
    HandledUpTo(max, w, cycle, i, |cycle.attempts|);
    assert cycle.attempts[..|cycle.attempts|] == cycle.attempts;
  }

  /** The resource of attempt `i` stays paired exactly if its note and the rules are kept or lost together. */
  lemma AttemptedStaysPaired(max: nat, w: World, cycle: Cycle, i: nat)
    requires Proper(cycle) && i < |cycle.attempts| && Paired(w, cycle.attempts[i].probe.resource)
    ensures Paired(After(max, w, cycle), cycle.attempts[i].probe.resource)
      <==> Announced(w, cycle, i) == None || (NoteStored(max, w, cycle, i) <==> Saves(max, w, cycle))
  {
    var resource := cycle.attempts[i].probe.resource;
    AttemptedResource(max, w, cycle, i);
    assert Noted(IncidentsOf(w.notes, resource), None) == IncidentsOf(w.notes, resource);
    TurnKeepsPairing(RowOf(w.rules, resource), IncidentsOf(w.notes, resource), cycle.attempts[i].probe,
      NoteStored(max, w, cycle, i), Saves(max, w, cycle));
  }

  lemma OthersStayPaired(max: nat, w: World, cycle: Cycle, resource: string)
    requires Paired(w, resource)
    requires forall i :: 0 <= i < |cycle.attempts| ==> cycle.attempts[i].probe.resource != resource
    ensures Paired(After(max, w, cycle), resource)
  {
    OtherAttempts(max, Awake(w), cycle.attempts, resource);
  }

  /** One cycle keeps every resource paired exactly if it keeps up. */
  lemma CycleKeepsPairing(max: nat, w: World, cycle: Cycle)
    requires Proper(cycle) && AllPaired(w)
    ensures AllPaired(After(max, w, cycle)) <==> KeepsUp(max, w, cycle)
  {
    forall i | 0 <= i < |cycle.attempts|
      ensures Paired(After(max, w, cycle), cycle.attempts[i].probe.resource)
        <==> Announced(w, cycle, i) == None || (NoteStored(max, w, cycle, i) <==> Saves(max, w, cycle))
    {
      AttemptedStaysPaired(max, w, cycle, i);
    }
    if KeepsUp(max, w, cycle) {
      forall resource ensures Paired(After(max, w, cycle), resource) {
        if forall i :: 0 <= i < |cycle.attempts| ==> cycle.attempts[i].probe.resource != resource {
          OthersStayPaired(max, w, cycle, resource);
        }
      }
    }
  }

  ghost predicate PairedAfter(max: nat, cycles: seq<Cycle>, k: nat)
    requires k <= |cycles|
  {
    AllPaired(Run(max, cycles[..k]))
  }

  ghost predicate KeepsUpAt(max: nat, cycles: seq<Cycle>, k: nat)
    requires k < |cycles|
  {
    KeepsUp(max, Run(max, cycles[..k]), cycles[k])
  }

  lemma NextCycle(max: nat, cycles: seq<Cycle>, k: nat)
    requires k < |cycles| && Proper(cycles[k]) && PairedAfter(max, cycles, k)
    ensures PairedAfter(max, cycles, k + 1) <==> KeepsUpAt(max, cycles, k)
  {
    assert cycles[..k + 1][..k] == cycles[..k];
    CycleKeepsPairing(max, Run(max, cycles[..k]), cycles[k]);
  }

  /** What holds at first and survives each step exactly if the step is good holds always exactly if every step is good. */
  lemma {:induction false} AlwaysMeansEveryStep(holds: nat -> bool, good: nat -> bool, n: nat)
    requires holds(0) && forall k: nat :: k < n && holds(k) ==> (holds(k + 1) <==> good(k))
    ensures (forall k: nat :: k <= n ==> holds(k)) <==> (forall k: nat :: k < n ==> good(k))
  {
    if n > 0 {
      AlwaysMeansEveryStep(holds, good, n - 1);
      assert holds(n - 1) ==> (holds(n - 1 + 1) <==> good(n - 1));
    }
  }

  /**
   * Over every run of cycles, with refusals and deaths anywhere: the notes of every resource open and
   * recover in turn and match its saved row after every cycle, exactly if every cycle keeps up.
   */
  lemma EpisodesStayPaired(max: nat, cycles: seq<Cycle>)
    requires forall k :: 0 <= k < |cycles| ==> Proper(cycles[k])
    ensures (forall k: nat :: k <= |cycles| ==> PairedAfter(max, cycles, k))
      <==> (forall k: nat :: k < |cycles| ==> KeepsUpAt(max, cycles, k))
  {
    ghost var holds := (k: nat) => k <= |cycles| && PairedAfter(max, cycles, k);
    ghost var good := (k: nat) => k < |cycles| && KeepsUpAt(max, cycles, k);
    assert PairedAfter(max, cycles, 0) by {
      assert cycles[..0] == [];
    }
    forall k: nat | k < |cycles| && holds(k) ensures holds(k + 1) <==> good(k) {
      NextCycle(max, cycles, k);
    }
    AlwaysMeansEveryStep(holds, good, |cycles|);
    assert forall k: nat :: k <= |cycles| ==> (holds(k) <==> PairedAfter(max, cycles, k));
    assert forall k: nat :: k < |cycles| ==> (good(k) <==> KeepsUpAt(max, cycles, k));
  }

  // ---------------------------------------------------------------- the two ways to fall behind

  lemma OpensAgain(row: RuleRow, p: Probe, q: Probe)
    requires Observed(row, p).1.Some? && Observed(row, p).1.value.transition == Opened
    requires q.health == Unhealthy && q.resource == p.resource
    ensures Observed(row, p).1 == Some(Incident(p.resource, Opened, p.drawn, p.now))
    ensures Observed(row, q).1 == Some(Incident(q.resource, Opened, q.drawn, q.now))
  {
  }

  lemma TwoSuccessesRecover(row: RuleRow, p: Probe, q: Probe, r: Probe)
    requires Observed(row, p).1.Some? && Observed(row, p).1.value.transition == Opened && p.drawn != ""
    requires q.health == r.health == Healthy
    ensures var raised := Observed(row, p).0;
      && Observed(raised, q).1 == None
      && Observed(Observed(raised, q).0, r).1 == Some(Incident(r.resource, Recovered, p.drawn, r.now))
  {
  }

  lemma UnpairedRecovery(notes: seq<Incident>, recovery: Incident)
    requires |notes| % 2 == 0 && recovery.transition == Recovered
    ensures !Alternate(Noted(notes, Some(recovery)))
  {
    assert Noted(notes, Some(recovery))[|notes|] == recovery;
  }

  lemma TwiceOpened(notes: seq<Incident>, first: Incident, second: Incident)
    requires first.transition == second.transition == Opened
    ensures !Alternate(Noted(Noted(notes, Some(first)), Some(second)))
  {
    var all := Noted(Noted(notes, Some(first)), Some(second));
    assert all[|notes|] == first && all[|notes| + 1] == second;
  }

  /** A note is stored but the rules that announced it are not: the restarted rules announce the outage again, under another episode. */
  lemma LostSaveReopens(max: nat, w: World, cycle: Cycle, i: nat, next: Cycle, j: nat)
    requires Proper(cycle) && Proper(next) && i < |cycle.attempts| && j < |next.attempts|
    requires next.attempts[j].probe.resource == cycle.attempts[i].probe.resource && next.attempts[j].probe.health == Unhealthy
    requires Announced(w, cycle, i).Some? && Announced(w, cycle, i).value.transition == Opened
    requires NoteStored(max, w, cycle, i) && !Saves(max, w, cycle)
    requires NoteStored(max, After(max, w, cycle), next, j)
    ensures var resource := cycle.attempts[i].probe.resource;
      var notes := IncidentsOf(w.notes, resource);
      var notes' := IncidentsOf(After(max, After(max, w, cycle), next).notes, resource);
      && |notes'| == |notes| + 2
      && notes'[|notes|].transition == notes'[|notes| + 1].transition == Opened
      && notes'[|notes|].episode == cycle.attempts[i].probe.drawn && notes'[|notes| + 1].episode == next.attempts[j].probe.drawn
      && !Alternate(notes')
  {
    var w1 := After(max, w, cycle);
    OpensAgain(RowOf(w.rules, cycle.attempts[i].probe.resource), cycle.attempts[i].probe, next.attempts[j].probe);
    AttemptedResource(max, w, cycle, i);
    AttemptedResource(max, w1, next, j);
    TwiceOpened(IncidentsOf(w.notes, cycle.attempts[i].probe.resource), Announced(w, cycle, i).value, Announced(w1, next, j).value);
  }

  /** The rules of an opening are saved but its note was refused: the recovery is announced of an episode nobody saw open. */
  lemma RefusedNoteRecovers(max: nat, w: World, cycle: Cycle, i: nat, next: Cycle, j: nat, last: Cycle, k: nat)
    requires Proper(cycle) && Proper(next) && Proper(last)
    requires i < |cycle.attempts| && j < |next.attempts| && k < |last.attempts|
    requires next.attempts[j].probe.resource == last.attempts[k].probe.resource == cycle.attempts[i].probe.resource
    requires next.attempts[j].probe.health == last.attempts[k].probe.health == Healthy
    requires Announced(w, cycle, i).Some? && Announced(w, cycle, i).value.transition == Opened
    requires !NoteStored(max, w, cycle, i) && Saves(max, w, cycle)
    requires Saves(max, After(max, w, cycle), next)
    requires NoteStored(max, After(max, After(max, w, cycle), next), last, k)
    requires Paired(w, cycle.attempts[i].probe.resource)
    ensures var resource := cycle.attempts[i].probe.resource;
      var notes := IncidentsOf(w.notes, resource);
      var notes' := IncidentsOf(After(max, After(max, After(max, w, cycle), next), last).notes, resource);
      && |notes'| == |notes| + 1 && notes'[|notes|].transition == Recovered
      && notes'[|notes|].episode == cycle.attempts[i].probe.drawn
      && !Alternate(notes')
  {
    var resource := cycle.attempts[i].probe.resource;
    var w1 := After(max, w, cycle);
    var w2 := After(max, w1, next);
    TwoSuccessesRecover(RowOf(w.rules, resource), cycle.attempts[i].probe, next.attempts[j].probe, last.attempts[k].probe);
    AttemptedResource(max, w, cycle, i);
    AttemptedResource(max, w1, next, j);
    AttemptedResource(max, w2, last, k);
    assert Noted(IncidentsOf(w.notes, resource), None) == IncidentsOf(w.notes, resource);
    UnpairedRecovery(IncidentsOf(w.notes, resource), Announced(w2, last, k).value);
  }

  // ---------------------------------------------------------------- both happen

  ghost predicate IdsWithin(j: J.Journal, ids: set<string>) {
    forall i :: 0 <= i < |j.entries| ==> j.entries[i].record.id in ids
  }

  /** With room in the journal a fresh record is stored, and a refused one adds nothing. */
  lemma AppendWithRoom(j: J.Journal, max: nat, r: J.Record, w: Write, ids: set<string>)
    requires IdsWithin(j, ids) && r.id !in ids && J.BytesOf(j.entries) + w.bytes <= max
    ensures var (j', result) := Appended(j, max, r, w);
      && result == (if w.disk.rejectsRow then J.Full else J.Stored)
      && IdsWithin(j', ids + {r.id}) && J.BytesOf(j'.entries) <= J.BytesOf(j.entries) + w.bytes
  {
    var collected := J.Collected(j.entries, w.now);
    J.FilterKeepsBytes((e: J.Entry) => !(e.acknowledged && e.createdAt < w.now - J.WEEK), j.entries);
    forall i | 0 <= i < |collected| ensures collected[i].record.id in ids {
      J.FilterMembers((e: J.Entry) => !(e.acknowledged && e.createdAt < w.now - J.WEEK), j.entries, collected[i]);
    }
    var j' := Appended(j, max, r, w).0;
    if !w.disk.rejectsRow {
      assert j'.entries[..|collected|] == collected;
    }
  }

  /** A turn with fresh identifiers in a journal with room for both of its records; the disk may refuse the note. */
  ghost predicate HasRoom(max: nat, j: J.Journal, ids: set<string>, a: Attempt) {
    && IdsWithin(j, ids) && J.BytesOf(j.entries) + a.observation.bytes + a.note.bytes <= max
    && a.observation.id !in ids && a.note.id !in ids && a.observation.id != a.note.id
    && !a.observation.disk.rejectsRow && !a.dies
  }

  function IdsOf(a: Attempt): set<string> {
    {a.observation.id, a.note.id}
  }

  lemma JournalledWithRoom(max: nat, j: J.Journal, a: Attempt, row: RuleRow, incident: Option<Incident>, ids: set<string>)
    requires HasRoom(max, j, ids, a)
    ensures var (j', note) := Journalled(max, j, a, row, incident);
      && note == (if a.note.disk.rejectsRow then None else incident)
      && IdsWithin(j', ids + IdsOf(a))
      && J.BytesOf(j'.entries) <= J.BytesOf(j.entries) + a.observation.bytes + a.note.bytes
  {
    var observation := ObservationRecord(a, row, incident);
    AppendWithRoom(j, max, observation, a.observation, ids);
    if incident.Some? {
      var observed := Appended(j, max, observation, a.observation).0;
      AppendWithRoom(observed, max, NoteRecord(a, incident.value), a.note, ids + {a.observation.id});
      assert ids + {a.observation.id} + {a.note.id} == ids + IdsOf(a);
    }
  }

  lemma {:induction false} AcknowledgingKeepsRoom(j: J.Journal, acked: seq<string>, ids: set<string>)
    requires IdsWithin(j, ids)
    ensures var j' := AcknowledgeIds(j, acked);
      IdsWithin(j', ids) && J.BytesOf(j'.entries) == J.BytesOf(j.entries)
  {
    if acked != [] {
      var before := AcknowledgeIds(j, acked[..|acked| - 1]);
      AcknowledgingKeepsRoom(j, acked[..|acked| - 1], ids);
      J.AcknowledgeKeepsBytes(before.entries, acked[|acked| - 1]);
    }
  }

  /** A cycle of one turn. */
  lemma SingleTurn(max: nat, w: World, a: Attempt, saves: bool, acked: seq<string>)
    ensures var cycle := Cycle([a], saves, acked);
      var m := Attempted(max, Awake(w), a);
      && AttemptAll(max, Awake(w), cycle.attempts) == m
      && After(max, w, cycle) ==
           if m.alive && saves then World(m.rules, AcknowledgeIds(m.journal, acked), m.notes) else World(w.rules, m.journal, m.notes)
  {
    assert [a][..0] == [];
  }

  /** Whether the single turn's note is stored and its rules are saved. */
  lemma SingleNote(max: nat, w: World, a: Attempt, saves: bool, acked: seq<string>, ids: set<string>)
    requires HasRoom(max, w.journal, ids, a)
    ensures var cycle := Cycle([a], saves, acked);
      && Saves(max, w, cycle) == saves
      && Announced(w, cycle, 0) == Observed(RowOf(w.rules, a.probe.resource), a.probe).1
      && (Announced(w, cycle, 0).Some? ==> NoteStored(max, w, cycle, 0) == !a.note.disk.rejectsRow)
  {
    var (row, incident) := Observed(RowOf(w.rules, a.probe.resource), a.probe);
    JournalledWithRoom(max, w.journal, a, row, incident, ids);
    SingleTurn(max, w, a, saves, acked);
    assert Cycle([a], saves, acked).attempts[..0] == [];
  }

  lemma SingleRow(max: nat, w: World, a: Attempt, saves: bool, acked: seq<string>)
    requires !a.dies
    ensures RowOf(After(max, w, Cycle([a], saves, acked)).rules, a.probe.resource) ==
      if saves then Observed(RowOf(w.rules, a.probe.resource), a.probe).0 else RowOf(w.rules, a.probe.resource)
  {
    SingleTurn(max, w, a, saves, acked);
  }

  /** What a turn leaves room for. */
  lemma RoomAfterTurn(max: nat, w: World, a: Attempt, saves: bool, acked: seq<string>, ids: set<string>, total: nat)
    requires HasRoom(max, w.journal, ids, a) && J.BytesOf(w.journal.entries) <= total
    ensures var j := After(max, w, Cycle([a], saves, acked)).journal;
      IdsWithin(j, ids + IdsOf(a)) && J.BytesOf(j.entries) <= total + a.observation.bytes + a.note.bytes
  {
    var (row, incident) := Observed(RowOf(w.rules, a.probe.resource), a.probe);
    JournalledWithRoom(max, w.journal, a, row, incident, ids);
    SingleTurn(max, w, a, saves, acked);
    AcknowledgingKeepsRoom(Attempted(max, Awake(w), a).journal, acked, ids + IdsOf(a));
  }

  /** The identifiers are the turn's own, and neither its observation is refused nor does it die. */
  ghost predicate Undisturbed(a: Attempt, ids: set<string>) {
    IdsOf(a) !! ids && a.observation.id != a.note.id && !a.observation.disk.rejectsRow && !a.dies && a.probe.drawn != ""
  }

  function Size(a: Attempt): nat {
    a.observation.bytes + a.note.bytes
  }

  lemma RoomForUndisturbed(max: nat, j: J.Journal, ids: set<string>, a: Attempt)
    requires IdsWithin(j, ids) && Undisturbed(a, ids) && J.BytesOf(j.entries) + Size(a) <= max
    ensures HasRoom(max, j, ids, a)
  {
    assert a.observation.id in IdsOf(a) && a.note.id in IdsOf(a);
  }

  /**
   * In every world with room in the journal: if a failure opens an episode and the process dies
   * before it saves the rules, the next failure opens a second one.
   */
  lemma LostSaveHappens(max: nat, w: World, a: Attempt, b: Attempt, acked: seq<string>, ids: set<string>)
    requires Observed(RowOf(w.rules, a.probe.resource), a.probe).1.Some? && !RowOf(w.rules, a.probe.resource).open
    requires b.probe.resource == a.probe.resource && b.probe.health == Unhealthy
    requires IdsWithin(w.journal, ids) && Undisturbed(a, ids) && Undisturbed(b, ids + IdsOf(a))
    requires J.BytesOf(w.journal.entries) + Size(a) + Size(b) <= max
    requires !a.note.disk.rejectsRow && !b.note.disk.rejectsRow
    ensures var died, next := Cycle([a], false, []), Cycle([b], true, acked);
      && !KeepsUp(max, w, died)
      && !Alternate(IncidentsOf(After(max, After(max, w, died), next).notes, a.probe.resource))
  {
    var died, next := Cycle([a], false, []), Cycle([b], true, acked);
    var w1 := After(max, w, died);
    RoomForUndisturbed(max, w.journal, ids, a);
    SingleNote(max, w, a, false, [], ids);
    OpensAgain(RowOf(w.rules, a.probe.resource), a.probe, b.probe);
    RoomAfterTurn(max, w, a, false, [], ids, J.BytesOf(w.journal.entries));
    RoomForUndisturbed(max, w1.journal, ids + IdsOf(a), b);
    SecondOpening(max, w, a, died, w1, b, next, ids + IdsOf(a));
  }

  /** A failure after a lost save is announced as an opening, as if there had been none. */
  lemma AnnouncesAgain(max: nat, w: World, a: Attempt, b: Attempt)
    requires Observed(RowOf(w.rules, a.probe.resource), a.probe).1.Some?
    requires Observed(RowOf(w.rules, a.probe.resource), a.probe).1.value.transition == Opened
    requires b.probe.resource == a.probe.resource && b.probe.health == Unhealthy && !a.dies
    ensures Observed(RowOf(After(max, w, Cycle([a], false, [])).rules, b.probe.resource), b.probe).1.Some?
  {
    SingleRow(max, w, a, false, []);
    OpensAgain(RowOf(w.rules, a.probe.resource), a.probe, b.probe);
  }

  /** `w1` is what the lost save left behind. */
  lemma SecondOpening(max: nat, w: World, a: Attempt, died: Cycle, w1: World, b: Attempt, next: Cycle, ids: set<string>)
    requires died == Cycle([a], false, []) && w1 == After(max, w, died) && next.attempts == [b] && next.saves
    requires Announced(w, died, 0).Some? && Announced(w, died, 0).value.transition == Opened
    requires NoteStored(max, w, died, 0) && !Saves(max, w, died) && !a.dies
    requires b.probe.resource == a.probe.resource && b.probe.health == Unhealthy && a.probe.drawn != "" && b.probe.drawn != ""
    requires !b.note.disk.rejectsRow && HasRoom(max, w1.journal, ids, b)
    ensures !Alternate(IncidentsOf(After(max, w1, next).notes, a.probe.resource))
  {
    AnnouncesAgain(max, w, a, b);
    SingleNote(max, w1, b, true, next.acked, ids);
    LostSaveReopens(max, w, died, 0, next, 0);
  }

  /**
   * In every world with room in the journal: if the disk refuses the note of an opening, the next
   * two successes announce the recovery of an episode of which no opening was noted, whatever is
   * published and acknowledged meanwhile.
   */
  lemma RefusedNoteHappens(
    max: nat, w: World, a: Attempt, b: Attempt, c: Attempt, acked: seq<string>, more: seq<string>, last: seq<string>, ids: set<string>)
    requires Observed(RowOf(w.rules, a.probe.resource), a.probe).1.Some? && !RowOf(w.rules, a.probe.resource).open
    requires Paired(w, a.probe.resource)
    requires b.probe.resource == c.probe.resource == a.probe.resource && b.probe.health == c.probe.health == Healthy
    requires IdsWithin(w.journal, ids)
    requires Undisturbed(a, ids) && Undisturbed(b, ids + IdsOf(a)) && Undisturbed(c, ids + IdsOf(a) + IdsOf(b))
    requires J.BytesOf(w.journal.entries) + Size(a) + Size(b) + Size(c) <= max
    requires a.note.disk.rejectsRow && !c.note.disk.rejectsRow
    ensures var w1 := After(max, w, Cycle([a], true, acked));
      var w2 := After(max, w1, Cycle([b], true, more));
      && !KeepsUp(max, w, Cycle([a], true, acked))
      && !Alternate(IncidentsOf(After(max, w2, Cycle([c], true, last)).notes, a.probe.resource))
  {
    var w1 := After(max, w, Cycle([a], true, acked));
    var w2 := After(max, w1, Cycle([b], true, more));
    RoomForUndisturbed(max, w.journal, ids, a);
    SingleNote(max, w, a, true, acked, ids);
    RoomAfterTurn(max, w, a, true, acked, ids, J.BytesOf(w.journal.entries));
    RoomForUndisturbed(max, w1.journal, ids + IdsOf(a), b);
    RoomAfterTurn(max, w1, b, true, more, ids + IdsOf(a), J.BytesOf(w.journal.entries) + Size(a));
    RoomForUndisturbed(max, w2.journal, ids + IdsOf(a) + IdsOf(b), c);
    UnnoticedOpening(max, w, a, b, c, acked, more, last, ids);
  }

  lemma UnnoticedOpening(
    max: nat, w: World, a: Attempt, b: Attempt, c: Attempt, acked: seq<string>, more: seq<string>, last: seq<string>, ids: set<string>)
    requires Observed(RowOf(w.rules, a.probe.resource), a.probe).1.Some? && !RowOf(w.rules, a.probe.resource).open
    requires Paired(w, a.probe.resource)
    requires b.probe.resource == c.probe.resource == a.probe.resource && b.probe.health == c.probe.health == Healthy
    requires a.probe.drawn != "" && b.probe.drawn != "" && c.probe.drawn != ""
    requires a.note.disk.rejectsRow && !c.note.disk.rejectsRow && HasRoom(max, w.journal, ids, a)
    requires var w1 := After(max, w, Cycle([a], true, acked));
      && HasRoom(max, w1.journal, ids + IdsOf(a), b)
      && HasRoom(max, After(max, w1, Cycle([b], true, more)).journal, ids + IdsOf(a) + IdsOf(b), c)
    ensures var w1 := After(max, w, Cycle([a], true, acked));
      var w2 := After(max, w1, Cycle([b], true, more));
      !Alternate(IncidentsOf(After(max, w2, Cycle([c], true, last)).notes, a.probe.resource))
  {
    var w1 := After(max, w, Cycle([a], true, acked));
    var w2 := After(max, w1, Cycle([b], true, more));
    SingleNote(max, w, a, true, acked, ids);
    SingleRow(max, w, a, true, acked);
    SingleNote(max, w1, b, true, more, ids + IdsOf(a));
    SingleRow(max, w1, b, true, more);
    SingleNote(max, w2, c, true, last, ids + IdsOf(a) + IdsOf(b));
    TwoSuccessesRecover(RowOf(w.rules, a.probe.resource), a.probe, b.probe, c.probe);
    RefusedNoteRecovers(max, w, Cycle([a], true, acked), 0, Cycle([b], true, more), 0, Cycle([c], true, last), 0);
  }
}
