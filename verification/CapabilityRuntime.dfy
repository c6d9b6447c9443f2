/**
 * Durable at-most-once execution of capabilities: a call authorizes, claims its idempotency key by
 * inserting a row under a unique index, runs the adapter outside any transaction, and records what
 * happened. Any number of calls interleave between transactions, and any of them may crash there.
 */
module CapabilityRuntime {
  import opened Options
  import opened CapabilityPolicy
  import Providers

  type CapabilityResult = Providers.CapabilityResult

  // ---------------------------------------------------------------- the invocation table

  datatype Status = Authorized | Denied | Succeeded | Failed | Uncertain

  datatype ErrorNote = NoError | PolicyNote(denial: Denial) | EconomicNote | ExecutionNote | ResultNote(detail: string)

  datatype Row = Row(
    mission: string, intent: Intent, status: Status, result: Option<CapabilityResult>, error: ErrorNote, completed: bool)

  /** The partial unique index: keys that are not null occur once, whatever the status or class of the row. */
  ghost predicate UniqueKeys(rows: seq<Row>) {
    forall i, j :: 0 <= i < j < |rows| && rows[i].intent.key.Some? ==> rows[i].intent.key != rows[j].intent.key
  }

  function FindByKey(rows: seq<Row>, key: Option<string>): (found: Option<nat>)
    ensures found.Some? ==> found.value < |rows| && rows[found.value].intent.key == key
    ensures found == None ==> forall i :: 0 <= i < |rows| ==> rows[i].intent.key != key
  {
    if rows == [] then None
    else if rows[|rows| - 1].intent.key == key then Some(|rows| - 1)
    else FindByKey(rows[..|rows| - 1], key)
  }

  predicate Conflicts(rows: seq<Row>, intent: Intent) {
    intent.key.Some? && FindByKey(rows, intent.key).Some?
  }

  /** An insert conflicts exactly with a row of the same key that is not null. */
  lemma ConflictsExactly(rows: seq<Row>, intent: Intent)
    ensures Conflicts(rows, intent) <==> intent.key.Some? && exists i :: 0 <= i < |rows| && rows[i].intent.key == intent.key
  {
  }

  class InvocationTable {
    var rows: seq<Row>

    constructor ()
      ensures rows == []
    {
      rows := [];
    }

    method Select(key: Option<string>) returns (found: Option<nat>)
      ensures found == FindByKey(rows, key)
    {
      var i := |rows|;
      assert rows[..i] == rows;
      while i > 0
        invariant i <= |rows| && FindByKey(rows, key) == FindByKey(rows[..i], key)
      {
        if rows[i - 1].intent.key == key {
          return Some(i - 1);
        }
        assert rows[..i][..i - 1] == rows[..i - 1];
        i := i - 1;
      }
      found := None;
    }

    /** Inserts and commits, unless the unique index is violated. */
    method Insert(row: Row) returns (id: Option<nat>)
      modifies this
      ensures id == if Conflicts(old(rows), row.intent) then None else Some(|old(rows)|)
      ensures rows == if id == None then old(rows) else old(rows) + [row]
    {
      if row.intent.key.Some? {
        var existing := Select(row.intent.key);
        if existing.Some? {
          return None;
        }
      }
      id := Some(|rows|);
      rows := rows + [row];
    }

    method Finish(id: nat, status: Status, result: Option<CapabilityResult>, error: ErrorNote)
      requires id < |rows|
      modifies this
      ensures rows == old(rows)[id := Finished(old(rows)[id], status, result, error)]
    {
      rows := rows[id := rows[id].(status := status, result := result, error := error, completed := true)];
    }
  }

  function Finished(row: Row, status: Status, result: Option<CapabilityResult>, error: ErrorNote): Row {
    row.(status := status, result := result, error := error, completed := true)
  }

  // ---------------------------------------------------------------- one call

  datatype Request = Request(mission: string, intent: Intent, authorization: Authorization)

  datatype Reason =
    | PolicyDenied(denial: Denial)
    | KeyConflict
    | ReconciliationRequired
    | AlreadyClaimed(status: Status)
    | EconomicRefusal
    | ExecutionFailed
    | SettlementFailed

  /** A returned result remembers the row it stands in. */
  datatype Verdict = Result(result: CapabilityResult, row: nat) | Raised(reason: Reason)

  /** How an adapter ends: with a result, or with any exception. */
  datatype AdapterEnd = Answers(result: CapabilityResult) | Raises

  /** How the gateway ends: as the adapter it called, or with its own exception, before it called one. */
  datatype Attempt = Answered(result: CapabilityResult) | Exception | NotRun

  /** Where a call stands between two transactions. */
  datatype Phase =
    | Start
    | Claiming
    | Conflicted
    | Claimed(row: nat)
    | Refused(row: nat)
    | Ready(row: nat)
    | Ran(row: nat, attempt: Attempt)
    | Done(verdict: Verdict)
    | Crashed

  /** What the outside decides when a call moves on: the clock, the economic gate, the adapter, the settlement. */
  datatype Choice = Crash | Proceed(now: int, economicOk: bool, adapter: AdapterEnd, settled: bool)

  type Registry = map<string, Declaration>

  function Declared(registry: Registry, intent: Intent): Declaration {
    if intent.capability in registry then registry[intent.capability] else UNDECLARED
  }

  /** The adapters by name; a name is registered once, and its declaration then stands. */
  class CapabilityGateway {
    var adapters: Registry

    constructor ()
      ensures adapters == map[]
    {
      adapters := map[];
    }

    method Register(name: string, declaration: Declaration) returns (ok: bool)
      modifies this
      ensures ok <==> name !in old(adapters)
      ensures adapters == if ok then old(adapters)[name := declaration] else old(adapters)
    {
      ok := name !in adapters;
      if ok {
        adapters := adapters[name := declaration];
      }
    }
  }

  /** An adapter is judged by its own declaration, and a name without one as an external effect that happens at most once. */
  lemma DeclaredExactly(registry: Registry, intent: Intent)
    ensures intent.capability in registry ==> Declared(registry, intent) == registry[intent.capability]
    ensures intent.capability !in registry ==> Declared(registry, intent) == Declaration(true, AtMostOnce)
  {
  }

  /** However many adapters are registered, an authorized request stays authorized: while unknown, each was the hardest case. */
  lemma RegisteringOnlyRelaxes(registry: Registry, later: Registry, intent: Intent, authorization: Authorization, now: int)
    requires forall name :: name in registry ==> name in later && later[name] == registry[name]
    requires Authorize(intent, authorization, Declared(registry, intent), now) == None
    ensures Authorize(intent, authorization, Declared(later, intent), now) == None
  {
    if intent.capability !in registry && intent.capability in later {
      AuthorizationIsMonotone(intent, authorization, UNDECLARED, later[intent.capability], now, now);
    }
  }

  predicate AtMostOnceCall(registry: Registry, intent: Intent) {
    EffectiveClass(intent, Declared(registry, intent)) == AtMostOnce
  }

  /** The gateway authorizes again, at its own time, before it looks for the adapter. */
  function GatewayExecute(registry: Registry, r: Request, now: int, adapter: AdapterEnd): Attempt {
    if Authorize(r.intent, r.authorization, Declared(registry, r.intent), now).Some? then NotRun
    else if r.intent.capability !in registry then NotRun
    else AttemptOf(adapter)
  }

  function AttemptOf(adapter: AdapterEnd): Attempt {
    match adapter case Answers(result) => Answered(result) case Raises => Exception
  }

  function Resolve(rows: seq<Row>, id: nat): Verdict
    requires id < |rows|
  {
    var row := rows[id];
    if row.status == Uncertain then Raised(ReconciliationRequired)
    else if (row.status == Succeeded || row.status == Failed) && row.result.Some? then Result(row.result.value, id)
    else Raised(AlreadyClaimed(row.status))
  }

  datatype Moved = Moved(rows: seq<Row>, phase: Phase, entered: bool)

  function Opening(r: Request, status: Status, error: ErrorNote): Row {
    Row(r.mission, r.intent, status, None, error, error != NoError)
  }

  /** The next transaction of one call; a row it names that is not there is an error the caller raises. */
  function Move(registry: Registry, rows: seq<Row>, r: Request, phase: Phase, c: Choice): Moved {
    if phase.Done? || phase.Crashed? then Moved(rows, phase, false)
    else if c.Crash? then Moved(rows, Crashed, false)
    else match phase
      case Start =>
        var denial := Authorize(r.intent, r.authorization, Declared(registry, r.intent), c.now);
        if denial.Some? then
          if Conflicts(rows, r.intent) then Moved(rows, Done(Raised(KeyConflict)), false)
          else Moved(rows + [Opening(r, Denied, PolicyNote(denial.value))], Done(Raised(PolicyDenied(denial.value))), false)
        else if AtMostOnceCall(registry, r.intent) && FindByKey(rows, r.intent.key).Some? then
          Moved(rows, Done(Resolve(rows, FindByKey(rows, r.intent.key).value)), false)
        else Moved(rows, Claiming, false)
      case Claiming =>
        if !Conflicts(rows, r.intent) then Moved(rows + [Opening(r, Authorized, NoError)], Claimed(|rows|), false)
        else if AtMostOnceCall(registry, r.intent) && HasKey(r.intent) then Moved(rows, Conflicted, false)
        else Moved(rows, Done(Raised(KeyConflict)), false)
      case Conflicted =>
        var existing := FindByKey(rows, r.intent.key);
        Moved(rows, Done(if existing.Some? then Resolve(rows, existing.value) else Raised(KeyConflict)), false)
      case Claimed(id) => Moved(rows, if c.economicOk then Ready(id) else Refused(id), false)
      case Refused(id) =>
        Moved(if id < |rows| then rows[id := Finished(rows[id], Denied, rows[id].result, EconomicNote)] else rows,
          Done(Raised(EconomicRefusal)), false)
      case Ready(id) => Moved(rows, Ran(id, GatewayExecute(registry, r, c.now, c.adapter)), true)
      case Ran(id, attempt) =>
        if !c.settled || id >= |rows| then Moved(rows, Done(Raised(SettlementFailed)), false)
        else match attempt
          case Answered(result) =>
            Moved(
              rows[id := Finished(rows[id], if result.ok then Succeeded else Failed, Some(result),
                if result.ok then NoError else ResultNote(result.error))],
              Done(Result(result, id)), false)
          case _ =>
            var status := if AtMostOnceCall(registry, r.intent) then Uncertain else Failed;
            Moved(rows[id := Finished(rows[id], status, rows[id].result, ExecutionNote)], Done(Raised(ExecutionFailed)), false)
  }

  /** A step enters the gateway exactly if the call is ready and does not crash; then it ran. */
  lemma EntersExactly(registry: Registry, rows: seq<Row>, r: Request, phase: Phase, c: Choice)
    ensures var m := Move(registry, rows, r, phase, c);
      (m.entered <==> phase.Ready? && c.Proceed?) && (m.entered ==> m.phase.Ran? && m.phase.row == phase.row && m.rows == rows)
  {
  }

  /** One call in flight, resumed by `Advance` up to its next suspension between transactions. */
  class Call {
    const registry: Registry
    const request: Request
    const table: InvocationTable
    var phase: Phase

    constructor (registry: Registry, request: Request, table: InvocationTable)
      ensures this.registry == registry && this.request == request && this.table == table && phase == Start
    {
      this.registry, this.request, this.table, phase := registry, request, table, Start;
    }

    method Advance(c: Choice) returns (entered: bool)
      requires match phase
        case Refused(id) => id < |table.rows|
        case Ran(id, _) => id < |table.rows|
        case _ => true
      modifies this, table
      ensures Moved(table.rows, phase, entered) == Move(registry, old(table.rows), request, old(phase), c)
    {
      entered := false;
      if phase.Done? || phase.Crashed? {
        return;
      }
      if c.Crash? {
        phase := Crashed;
        return;
      }
      var intent := request.intent;
      var atMostOnce := AtMostOnceCall(registry, intent);
      match phase
      case Start =>
        var denial := Authorize(intent, request.authorization, Declared(registry, intent), c.now);
        if denial.Some? {
          var id := table.Insert(Opening(request, Denied, PolicyNote(denial.value)));
          phase := Done(Raised(if id.Some? then PolicyDenied(denial.value) else KeyConflict));
          return;
        }
        if atMostOnce {
          var existing := table.Select(intent.key);
          if existing.Some? {
            phase := Done(Resolve(table.rows, existing.value));
            return;
          }
        }
        phase := Claiming;
      case Claiming =>
        var id := table.Insert(Opening(request, Authorized, NoError));
        phase := if id.Some? then Claimed(id.value)
          else if atMostOnce && HasKey(intent) then Conflicted
          else Done(Raised(KeyConflict));
      case Conflicted =>
        var existing := table.Select(intent.key);
        phase := Done(if existing.Some? then Resolve(table.rows, existing.value) else Raised(KeyConflict));
      case Claimed(id) =>
        phase := if c.economicOk then Ready(id) else Refused(id);
      case Refused(id) =>
        table.Finish(id, Denied, table.rows[id].result, EconomicNote);
        phase := Done(Raised(EconomicRefusal));
      case Ready(id) =>
        entered := true;
        phase := Ran(id, GatewayExecute(registry, request, c.now, c.adapter));
      case Ran(id, attempt) =>
        if !c.settled {
          phase := Done(Raised(SettlementFailed));
          return;
        }
        match attempt {
          case Answered(result) =>
            table.Finish(id, if result.ok then Succeeded else Failed, Some(result),
              if result.ok then NoError else ResultNote(result.error));
            phase := Done(Result(result, id));
          case _ =>
            table.Finish(id, if atMostOnce then Uncertain else Failed, table.rows[id].result, ExecutionNote);
            phase := Done(Raised(ExecutionFailed));
        }
    }
  }

  // ---------------------------------------------------------------- many calls

  datatype Caller = Caller(request: Request, phase: Phase)

  /** One entry into the gateway: which call, for which row, and how it ended. */
  datatype Entry = Entry(caller: nat, row: nat, attempt: Attempt)

  datatype State = State(rows: seq<Row>, callers: seq<Caller>, entries: seq<Entry>)

  function Initial(requests: seq<Request>): State {
    State([], seq(|requests|, i requires 0 <= i < |requests| => Caller(requests[i], Start)), [])
  }

  function Step(registry: Registry, s: State, p: nat, c: Choice): State {
    if p >= |s.callers| then s
    else
      var caller := s.callers[p];
      var m := Move(registry, s.rows, caller.request, caller.phase, c);
      State(m.rows, s.callers[p := caller.(phase := m.phase)],
        s.entries + if m.entered && m.phase.Ran? then [Entry(p, m.phase.row, m.phase.attempt)] else [])
  }

  datatype Turn = Turn(caller: nat, choice: Choice)

  function Run(registry: Registry, s: State, turns: seq<Turn>): State
    decreases |turns|
  {
    if turns == [] then s else Run(registry, Step(registry, s, turns[0].caller, turns[0].choice), turns[1..])
  }

  // ---------------------------------------------------------------- what every step keeps

  function Held(phase: Phase): Option<nat> {
    match phase
    case Claimed(id) => Some(id)
    case Refused(id) => Some(id)
    case Ready(id) => Some(id)
    case Ran(id, _) => Some(id)
    case _ => None
  }

  /** A call in flight is the only one that holds its row, and the row is still open. */
  ghost predicate Ownership(s: State) {
    && (forall p :: 0 <= p < |s.callers| && Held(s.callers[p].phase).Some? ==>
        var id := Held(s.callers[p].phase).value;
        && id < |s.rows| && s.rows[id].status == Authorized
        && s.rows[id].intent == s.callers[p].request.intent)
    && (forall p, q :: 0 <= p < q < |s.callers| && Held(s.callers[p].phase).Some? ==>
        Held(s.callers[p].phase) != Held(s.callers[q].phase))
  }

  /** Entries name rows of their own callers, no row twice; a held row has an entry only once it ran. */
  ghost predicate EntriesSound(s: State) {
    && (forall k :: 0 <= k < |s.entries| ==> s.entries[k].row < |s.rows|)
    && (forall k, l :: 0 <= k < l < |s.entries| ==> s.entries[k].row != s.entries[l].row)
    && (forall p, k :: 0 <= p < |s.callers| && 0 <= k < |s.entries| && Held(s.callers[p].phase) == Some(s.entries[k].row) ==>
        s.callers[p].phase == Ran(s.entries[k].row, s.entries[k].attempt))
    && (forall p :: 0 <= p < |s.callers| && s.callers[p].phase.Ran? ==>
        Entry(p, s.callers[p].phase.row, s.callers[p].phase.attempt) in s.entries)
  }

  ghost predicate EnteredWith(entries: seq<Entry>, id: nat, attempt: Attempt) {
    exists k :: 0 <= k < |entries| && entries[k].row == id && entries[k].attempt == attempt
  }

  /** The one entry for the row ended in an exception, the adapter's or the gateway's own. */
  ghost predicate EnteredInVain(entries: seq<Entry>, id: nat) {
    EnteredWith(entries, id, Exception) || EnteredWith(entries, id, NotRun)
  }

  ghost predicate NeverEntered(entries: seq<Entry>, id: nat) {
    forall k :: 0 <= k < |entries| ==> entries[k].row != id
  }

  /** What each status says about the one entry into the gateway, if there was one. */
  ghost predicate Explained(registry: Registry, row: Row, entries: seq<Entry>, id: nat) {
    match row.status
    case Authorized => row.result == None
    case Denied => row.result == None && NeverEntered(entries, id)
    case Succeeded => row.result.Some? && row.result.value.ok && EnteredWith(entries, id, Answered(row.result.value))
    case Failed =>
      if row.result.Some? then !row.result.value.ok && EnteredWith(entries, id, Answered(row.result.value))
      else !AtMostOnceCall(registry, row.intent) && EnteredInVain(entries, id)
    case Uncertain => row.result == None && AtMostOnceCall(registry, row.intent) && EnteredInVain(entries, id)
  }

  ghost predicate RowsExplained(registry: Registry, s: State) {
    forall id :: 0 <= id < |s.rows| ==> Explained(registry, s.rows[id], s.entries, id)
  }

  /** A returned result is the one recorded in a finished row that carries the caller's key. */
  ghost predicate VerdictsSound(s: State) {
    forall p :: 0 <= p < |s.callers| && s.callers[p].phase.Done? && s.callers[p].phase.verdict.Result? ==>
      var v := s.callers[p].phase.verdict;
      && v.row < |s.rows| && s.rows[v.row].result == Some(v.result)
      && s.rows[v.row].status in {Succeeded, Failed}
      && s.rows[v.row].intent.key == s.callers[p].request.intent.key
  }

  ghost predicate Inv(registry: Registry, s: State) {
    && UniqueKeys(s.rows) && Ownership(s) && EntriesSound(s) && RowsExplained(registry, s) && VerdictsSound(s)
  }

  /** A step that only moves the phase of a caller to one that holds what it held before, or nothing. */
  lemma QuietStepKeeps(registry: Registry, s: State, p: nat, phase: Phase)
    requires Inv(registry, s) && p < |s.callers|
    requires Held(phase).Some? ==> Held(phase) == Held(s.callers[p].phase) && !s.callers[p].phase.Ran? && !phase.Ran?
    requires phase.Done? && phase.verdict.Result? ==>
      var v := phase.verdict;
      && v.row < |s.rows| && s.rows[v.row].result == Some(v.result) && s.rows[v.row].status in {Succeeded, Failed}
      && s.rows[v.row].intent.key == s.callers[p].request.intent.key
    ensures Inv(registry, s.(callers := s.callers[p := s.callers[p].(phase := phase)]))
  {
    var s' := s.(callers := s.callers[p := s.callers[p].(phase := phase)]);
    assert Ownership(s');
    assert EntriesSound(s') by {
      forall q, k | 0 <= q < |s'.callers| && 0 <= k < |s.entries| && Held(s'.callers[q].phase) == Some(s.entries[k].row)
        ensures s'.callers[q].phase == Ran(s.entries[k].row, s.entries[k].attempt)
      {
        assert Held(s.callers[q].phase) == Some(s.entries[k].row);
      }
    }
    assert VerdictsSound(s');
  }

  lemma AppendedRowExplained(registry: Registry, s: State, row: Row)
    requires RowsExplained(registry, s) && EntriesSound(s)
    requires row.result == None && row.status in {Authorized, Denied}
    ensures RowsExplained(registry, s.(rows := s.rows + [row]))
  {
    var rows := s.rows + [row];
    forall id | 0 <= id < |rows| ensures Explained(registry, rows[id], s.entries, id) {
      if id < |s.rows| {
        assert Explained(registry, s.rows[id], s.entries, id);
      }
    }
  }

  lemma AppendedKeyIsUnique(rows: seq<Row>, row: Row)
    requires UniqueKeys(rows) && !Conflicts(rows, row.intent)
    ensures UniqueKeys(rows + [row])
  {
  }

  lemma AppendedRowOwned(s: State, p: nat, row: Row, phase: Phase)
    requires Ownership(s) && p < |s.callers| && row.intent == s.callers[p].request.intent
    requires (row.status == Authorized && phase == Claimed(|s.rows|)) || Held(phase) == None
    ensures Ownership(State(s.rows + [row], s.callers[p := s.callers[p].(phase := phase)], s.entries))
  {
  }

  lemma AppendedRowUnentered(s: State, p: nat, row: Row, phase: Phase)
    requires EntriesSound(s) && p < |s.callers| && !phase.Ran? && (Held(phase).Some? ==> Held(phase) == Some(|s.rows|))
    ensures EntriesSound(State(s.rows + [row], s.callers[p := s.callers[p].(phase := phase)], s.entries))
  {
  }

  /** Appending a row under the unique index, open and held by `p` or denied and held by nobody. */
  lemma InsertKeeps(registry: Registry, s: State, p: nat, row: Row, phase: Phase)
    requires Inv(registry, s) && p < |s.callers| && Held(s.callers[p].phase) == None
    requires !Conflicts(s.rows, row.intent) && row.intent == s.callers[p].request.intent && row.result == None
    requires || (row.status == Authorized && phase == Claimed(|s.rows|))
             || (row.status == Denied && phase.Done? && phase.verdict.Raised?)
    ensures Inv(registry, State(s.rows + [row], s.callers[p := s.callers[p].(phase := phase)], s.entries))
  {
    var s' := State(s.rows + [row], s.callers[p := s.callers[p].(phase := phase)], s.entries);
    AppendedKeyIsUnique(s.rows, row);
    AppendedRowExplained(registry, s, row);
    AppendedRowOwned(s, p, row, phase);
    AppendedRowUnentered(s, p, row, phase);
    assert VerdictsSound(s');
  }

  lemma EntryAdded(s: State, p: nat, id: nat, attempt: Attempt)
    requires Ownership(s) && EntriesSound(s) && p < |s.callers| && s.callers[p].phase == Ready(id)
    ensures EntriesSound(
      State(s.rows, s.callers[p := s.callers[p].(phase := Ran(id, attempt))], s.entries + [Entry(p, id, attempt)]))
  {
    var s' := State(s.rows, s.callers[p := s.callers[p].(phase := Ran(id, attempt))], s.entries + [Entry(p, id, attempt)]);
    assert Held(s.callers[p].phase) == Some(id);
    assert NeverEntered(s.entries, id);
    forall q | 0 <= q < |s'.callers| && s'.callers[q].phase.Ran?
      ensures Entry(q, s'.callers[q].phase.row, s'.callers[q].phase.attempt) in s'.entries
    {
      assert q == p || Entry(q, s.callers[q].phase.row, s.callers[q].phase.attempt) in s.entries;
    }
    forall q, k | 0 <= q < |s'.callers| && 0 <= k < |s'.entries| && Held(s'.callers[q].phase) == Some(s'.entries[k].row)
      ensures s'.callers[q].phase == Ran(s'.entries[k].row, s'.entries[k].attempt)
    {
      if q == p {
        assert k == |s.entries|;
      } else {
        assert Held(s.callers[q].phase) != Some(id);
      }
    }
  }

  lemma EnteredStays(entries: seq<Entry>, entry: Entry, id: nat, attempt: Attempt)
    requires EnteredWith(entries, id, attempt)
    ensures EnteredWith(entries + [entry], id, attempt)
  {
    var k :| 0 <= k < |entries| && entries[k].row == id && entries[k].attempt == attempt;
    assert (entries + [entry])[k] == entries[k];
  }

  /** A new entry for an open row takes nothing from what the rows say. */
  lemma EntryExplains(registry: Registry, row: Row, entries: seq<Entry>, entry: Entry, id: nat)
    requires Explained(registry, row, entries, id) && (entry.row == id ==> row.status == Authorized)
    ensures Explained(registry, row, entries + [entry], id)
  {
    forall a | EnteredWith(entries, id, a) ensures EnteredWith(entries + [entry], id, a) {
      EnteredStays(entries, entry, id, a);
    }
  }

  /** Entering the gateway for a held row that has not been entered. */
  lemma EnterKeeps(registry: Registry, s: State, p: nat, id: nat, attempt: Attempt)
    requires Inv(registry, s) && p < |s.callers| && s.callers[p].phase == Ready(id)
    ensures Inv(registry,
      State(s.rows, s.callers[p := s.callers[p].(phase := Ran(id, attempt))], s.entries + [Entry(p, id, attempt)]))
  {
    var s' := State(s.rows, s.callers[p := s.callers[p].(phase := Ran(id, attempt))], s.entries + [Entry(p, id, attempt)]);
    assert Held(s.callers[p].phase) == Some(id);
    assert Ownership(s');
    EntryAdded(s, p, id, attempt);
    forall i | 0 <= i < |s'.rows| ensures Explained(registry, s'.rows[i], s'.entries, i) {
      EntryExplains(registry, s.rows[i], s.entries, Entry(p, id, attempt), i);
    }
    assert VerdictsSound(s');
  }

  lemma FinishedRowReleased(s: State, p: nat, id: nat, row: Row, verdict: Verdict)
    requires Ownership(s) && p < |s.callers| && Held(s.callers[p].phase) == Some(id) && id < |s.rows|
    ensures Ownership(State(s.rows[id := row], s.callers[p := s.callers[p].(phase := Done(verdict))], s.entries))
  {
    forall q | 0 <= q < |s.callers| && q != p ensures Held(s.callers[q].phase) != Some(id) {}
  }

  lemma FinishedEntriesSound(s: State, p: nat, id: nat, row: Row, verdict: Verdict)
    requires EntriesSound(s) && p < |s.callers| && id < |s.rows|
    ensures EntriesSound(State(s.rows[id := row], s.callers[p := s.callers[p].(phase := Done(verdict))], s.entries))
  {
  }

  lemma FinishedVerdictsSound(s: State, p: nat, id: nat, row: Row, verdict: Verdict)
    requires VerdictsSound(s) && p < |s.callers| && id < |s.rows| && s.rows[id].status == Authorized
    requires s.rows[id].intent == s.callers[p].request.intent == row.intent
    requires verdict.Result? ==> verdict.row == id && row.result == Some(verdict.result) && row.status in {Succeeded, Failed}
    ensures VerdictsSound(State(s.rows[id := row], s.callers[p := s.callers[p].(phase := Done(verdict))], s.entries))
  {
  }

  /** Finishing a held row with a status that its entry, or its absence, explains. */
  lemma FinishKeeps(registry: Registry, s: State, p: nat, id: nat, row: Row, verdict: Verdict)
    requires Inv(registry, s) && p < |s.callers| && Held(s.callers[p].phase) == Some(id)
    requires id < |s.rows| && row.intent == s.rows[id].intent && row.status != Authorized
    requires Explained(registry, row, s.entries, id)
    requires verdict.Result? ==> verdict.row == id && row.result == Some(verdict.result) && row.status in {Succeeded, Failed}
    ensures Inv(registry, State(s.rows[id := row], s.callers[p := s.callers[p].(phase := Done(verdict))], s.entries))
  {
    var s' := State(s.rows[id := row], s.callers[p := s.callers[p].(phase := Done(verdict))], s.entries);
    FinishedRowReleased(s, p, id, row, verdict);
    FinishedEntriesSound(s, p, id, row, verdict);
    FinishedVerdictsSound(s, p, id, row, verdict);
    forall i | 0 <= i < |s'.rows| ensures Explained(registry, s'.rows[i], s'.entries, i) {
      assert Explained(registry, s.rows[i], s.entries, i);
    }
  }

  lemma IdleStepKeeps(registry: Registry, s: State, p: nat, c: Choice)
    requires Inv(registry, s) && p < |s.callers|
    requires s.callers[p].phase.Done? || s.callers[p].phase.Crashed? || c.Crash?
    ensures Inv(registry, Step(registry, s, p, c))
  {
    var phase := Move(registry, s.rows, s.callers[p].request, s.callers[p].phase, c).phase;
    assert s.callers[p := s.callers[p]] == s.callers && s.entries + [] == s.entries;
    QuietStepKeeps(registry, s, p, phase);
  }

  /** A resolved row gives a result only when it is finished. */
  lemma ResolvedIsFinished(registry: Registry, s: State, key: Option<string>, id: nat)
    requires RowsExplained(registry, s) && FindByKey(s.rows, key) == Some(id)
    ensures var v := Resolve(s.rows, id);
      v.Result? ==> v.row == id && s.rows[id].result == Some(v.result) && s.rows[id].status in {Succeeded, Failed}
  {
  }

  /** The first transactions of a call insert one row without a result, or insert nothing and hold nothing. */
  lemma OpeningMove(registry: Registry, s: State, p: nat, c: Choice)
    requires Inv(registry, s) && p < |s.callers| && c.Proceed?
    requires s.callers[p].phase in {Start, Claiming, Conflicted}
    ensures var m := Move(registry, s.rows, s.callers[p].request, s.callers[p].phase, c);
      var intent := s.callers[p].request.intent;
      && !m.entered
      && if m.rows == s.rows then
           && Held(m.phase) == None && (m.phase.Done? && m.phase.verdict.Result? ==>
             FindByKey(s.rows, intent.key).Some? && m.phase.verdict == Resolve(s.rows, FindByKey(s.rows, intent.key).value))
         else
           && !Conflicts(s.rows, intent) && |m.rows| == |s.rows| + 1 && m.rows == s.rows + [m.rows[|s.rows|]]
           && m.rows[|s.rows|].intent == intent && m.rows[|s.rows|].result == None
           && ((m.rows[|s.rows|].status == Authorized && m.phase == Claimed(|s.rows|))
              || (m.rows[|s.rows|].status == Denied && m.phase.Done? && m.phase.verdict.Raised?))
  {
  }

  lemma OpeningStepKeeps(registry: Registry, s: State, p: nat, c: Choice)
    requires Inv(registry, s) && p < |s.callers| && c.Proceed?
    requires s.callers[p].phase in {Start, Claiming, Conflicted}
    ensures Inv(registry, Step(registry, s, p, c))
  {
    var m := Move(registry, s.rows, s.callers[p].request, s.callers[p].phase, c);
    assert s.entries + [] == s.entries;
    OpeningMove(registry, s, p, c);
    if m.rows == s.rows {
      if m.phase.Done? && m.phase.verdict.Result? {
        var key := s.callers[p].request.intent.key;
        ResolvedIsFinished(registry, s, key, FindByKey(s.rows, key).value);
      }
      QuietStepKeeps(registry, s, p, m.phase);
    } else {
      InsertKeeps(registry, s, p, m.rows[|s.rows|], m.phase);
    }
  }

  lemma HeldStepKeeps(registry: Registry, s: State, p: nat, c: Choice)
    requires Inv(registry, s) && p < |s.callers| && c.Proceed?
    requires s.callers[p].phase.Claimed? || s.callers[p].phase.Refused? || s.callers[p].phase.Ready?
    ensures Inv(registry, Step(registry, s, p, c))
  {
    var m := Move(registry, s.rows, s.callers[p].request, s.callers[p].phase, c);
    assert s.entries + [] == s.entries;
    match s.callers[p].phase
    case Claimed(_) => QuietStepKeeps(registry, s, p, m.phase);
    case Ready(id) => EnterKeeps(registry, s, p, id, m.phase.attempt);
    case Refused(id) =>
      assert Held(s.callers[p].phase) == Some(id);
      assert Explained(registry, s.rows[id], s.entries, id);
      assert NeverEntered(s.entries, id);
      FinishKeeps(registry, s, p, id, m.rows[id], m.phase.verdict);
  }

  lemma RecordingStepKeeps(registry: Registry, s: State, p: nat, c: Choice)
    requires Inv(registry, s) && p < |s.callers| && c.Proceed? && s.callers[p].phase.Ran?
    ensures Inv(registry, Step(registry, s, p, c))
  {
    var m := Move(registry, s.rows, s.callers[p].request, s.callers[p].phase, c);
    var id, attempt := s.callers[p].phase.row, s.callers[p].phase.attempt;
    assert s.entries + [] == s.entries;
    assert Held(s.callers[p].phase) == Some(id);
    if !c.settled {
      QuietStepKeeps(registry, s, p, m.phase);
    } else {
      assert Explained(registry, s.rows[id], s.entries, id);
      assert Entry(p, id, attempt) in s.entries;
      assert EnteredWith(s.entries, id, attempt);
      FinishKeeps(registry, s, p, id, m.rows[id], m.phase.verdict);
    }
  }

  lemma StepKeeps(registry: Registry, s: State, p: nat, c: Choice)
    requires Inv(registry, s)
    ensures Inv(registry, Step(registry, s, p, c))
  {
    if p < |s.callers| {
      var phase := s.callers[p].phase;
      if phase.Done? || phase.Crashed? || c.Crash? {
        IdleStepKeeps(registry, s, p, c);
      } else if phase.Ran? {
        RecordingStepKeeps(registry, s, p, c);
      } else if Held(phase).Some? {
        HeldStepKeeps(registry, s, p, c);
      } else {
        OpeningStepKeeps(registry, s, p, c);
      }
    }
  }

  lemma {:induction false} RunKeeps(registry: Registry, s: State, turns: seq<Turn>)
    requires Inv(registry, s)
    ensures Inv(registry, Run(registry, s, turns))
    decreases |turns|
  {
    if turns != [] {
      StepKeeps(registry, s, turns[0].caller, turns[0].choice);
      RunKeeps(registry, Step(registry, s, turns[0].caller, turns[0].choice), turns[1..]);
    }
  }

  lemma InitialInv(registry: Registry, requests: seq<Request>)
    ensures Inv(registry, Initial(requests))
  {
  }

  lemma ReachableInv(registry: Registry, requests: seq<Request>, turns: seq<Turn>)
    ensures Inv(registry, Run(registry, Initial(requests), turns))
  {
    InitialInv(registry, requests);
    RunKeeps(registry, Initial(requests), turns);
  }

  // ---------------------------------------------------------------- the guarantees

  /** Entry `k` into the gateway was for a row with this key. */
  predicate EnteredUnder(s: State, k: nat, key: Option<string>)
    requires k < |s.entries|
  {
    s.entries[k].row < |s.rows| && s.rows[s.entries[k].row].intent.key == key
  }

  /** However calls interleave and crash, no idempotency key is taken into the gateway twice. */
  lemma EnteredAtMostOncePerKey(registry: Registry, requests: seq<Request>, turns: seq<Turn>, k: nat, l: nat)
    requires k < l < |Run(registry, Initial(requests), turns).entries|
    ensures var s := Run(registry, Initial(requests), turns);
      && s.entries[k].row < |s.rows| && s.entries[l].row < |s.rows|
      && (s.rows[s.entries[k].row].intent.key.Some? ==>
            s.rows[s.entries[k].row].intent.key != s.rows[s.entries[l].row].intent.key)
  {
    ReachableInv(registry, requests, turns);
  }

  /**
   * Whatever result a call returns, its own or a replayed one, stands in a row with the call's key, and
   * an entry into the gateway for that row produced it; no other entry under the key exists.
   */
  lemma ReplaysReturnTheRecordedResult(registry: Registry, requests: seq<Request>, turns: seq<Turn>, p: nat)
    requires var s := Run(registry, Initial(requests), turns);
      p < |s.callers| && s.callers[p].phase.Done? && s.callers[p].phase.verdict.Result?
    ensures var s := Run(registry, Initial(requests), turns);
      var v, key := s.callers[p].phase.verdict, s.callers[p].request.intent.key;
      && v.row < |s.rows| && s.rows[v.row].result == Some(v.result) && s.rows[v.row].intent.key == key
      && EnteredWith(s.entries, v.row, Answered(v.result))
      && (key.Some? ==> forall k :: 0 <= k < |s.entries| && EnteredUnder(s, k, key) ==>
            s.entries[k].row == v.row && s.entries[k].attempt == Answered(v.result))
  {
    var s := Run(registry, Initial(requests), turns);
    ReachableInv(registry, requests, turns);
    var v := s.callers[p].phase.verdict;
    assert Explained(registry, s.rows[v.row], s.entries, v.row);
  }

  lemma StepKeepsFinished(registry: Registry, s: State, p: nat, c: Choice, id: nat)
    requires Inv(registry, s) && id < |s.rows| && s.rows[id].status != Authorized
    ensures id < |Step(registry, s, p, c).rows| && Step(registry, s, p, c).rows[id] == s.rows[id]
  {
  }

  /** A finished row never changes again. */
  lemma {:induction false} FinishedRowsNeverChange(registry: Registry, s: State, turns: seq<Turn>, id: nat)
    requires Inv(registry, s) && id < |s.rows| && s.rows[id].status != Authorized
    ensures id < |Run(registry, s, turns).rows| && Run(registry, s, turns).rows[id] == s.rows[id]
    decreases |turns|
  {
    if turns != [] {
      StepKeeps(registry, s, turns[0].caller, turns[0].choice);
      StepKeepsFinished(registry, s, turns[0].caller, turns[0].choice, id);
      FinishedRowsNeverChange(registry, Step(registry, s, turns[0].caller, turns[0].choice), turns[1..], id);
    }
  }

  /** The recorded result, a demand for reconciliation after an uncertain effect, or a refusal that names the status. */
  predicate ResolvedBy(row: Row, id: nat, verdict: Verdict) {
    match row.status
    case Uncertain => verdict == Raised(ReconciliationRequired)
    case Succeeded => row.result.Some? && verdict == Result(row.result.value, id)
    case Failed => verdict == if row.result.Some? then Result(row.result.value, id) else Raised(AlreadyClaimed(Failed))
    case status => verdict == Raised(AlreadyClaimed(status))
  }

  /**
   * A later at-most-once call whose key is taken never moves on to claim or enter: it ends at once
   * with the recorded result, a demand for reconciliation after an uncertain effect, or a refusal.
   */
  lemma TakenKeyIsResolved(registry: Registry, s: State, p: nat, c: Choice, id: nat)
    requires Inv(registry, s) && p < |s.callers| && c.Proceed?
    requires s.callers[p].phase == Start || s.callers[p].phase == Conflicted
    requires var i := s.callers[p].request.intent;
      && AtMostOnceCall(registry, i) && i.key.Some? && id < |s.rows| && s.rows[id].intent.key == i.key
    requires s.callers[p].phase == Start ==>
      Authorize(s.callers[p].request.intent, s.callers[p].request.authorization,
        Declared(registry, s.callers[p].request.intent), c.now) == None
    ensures var s' := Step(registry, s, p, c);
      && s'.rows == s.rows && s'.entries == s.entries && s'.callers[p].phase.Done?
      && ResolvedBy(s.rows[id], id, s'.callers[p].phase.verdict)
  {
    assert FindByKey(s.rows, s.callers[p].request.intent.key) == Some(id);
    assert Explained(registry, s.rows[id], s.entries, id);
    assert s.entries + [] == s.entries;
  }

  function Repeated(registry: Registry, s: State, p: nat, c: Choice, times: nat): (s': State)
    ensures |s'.callers| == |s.callers|
    decreases times
  {
    if times == 0 then s else Repeated(registry, Step(registry, s, p, c), p, c, times - 1)
  }

  function Twice(registry: Registry, s: State, p: nat, c: Choice): State {
    Step(registry, Step(registry, s, p, c), p, c)
  }

  lemma UninterruptedClaim(registry: Registry, s: State, p: nat, c: Choice)
    requires p < |s.callers| && s.callers[p].phase == Start && c.Proceed?
    requires var r := s.callers[p].request;
      && Authorize(r.intent, r.authorization, Declared(registry, r.intent), c.now) == None && !Conflicts(s.rows, r.intent)
    requires FindByKey(s.rows, s.callers[p].request.intent.key).Some? ==> !AtMostOnceCall(registry, s.callers[p].request.intent)
    ensures var r, s' := s.callers[p].request, Twice(registry, s, p, c);
      && p < |s'.callers| && s'.callers[p] == Caller(r, Claimed(|s.rows|))
      && s'.rows == s.rows + [Opening(r, Authorized, NoError)] && s'.entries == s.entries
  {
    var s1 := Step(registry, s, p, c);
    assert s1.callers[p].phase == Claiming && s1.rows == s.rows && s1.entries == s.entries;
  }

  lemma UninterruptedEntry(registry: Registry, s: State, p: nat, c: Choice, id: nat)
    requires p < |s.callers| && s.callers[p].phase == Claimed(id) && c.Proceed? && c.economicOk
    ensures var r, s' := s.callers[p].request, Twice(registry, s, p, c);
      var attempt := GatewayExecute(registry, r, c.now, c.adapter);
      && p < |s'.callers| && s'.callers[p] == Caller(r, Ran(id, attempt))
      && s'.rows == s.rows && s'.entries == s.entries + [Entry(p, id, attempt)]
  {
    var s1 := Step(registry, s, p, c);
    assert s1.callers[p].phase == Ready(id) && s1.rows == s.rows && s1.entries == s.entries;
  }

  lemma UninterruptedRecord(registry: Registry, s: State, p: nat, c: Choice, id: nat, result: CapabilityResult)
    requires p < |s.callers| && s.callers[p].phase == Ran(id, Answered(result)) && id < |s.rows| && c.Proceed? && c.settled
    ensures var s' := Step(registry, s, p, c);
      && p < |s'.callers| && s'.callers[p].phase == Done(Result(result, id)) && s'.entries == s.entries
      && s'.rows == s.rows[id := s.rows[id].(
           status := if result.ok then Succeeded else Failed, result := Some(result),
           error := if result.ok then NoError else ResultNote(result.error), completed := true)]
  {
    assert s.entries + [] == s.entries;
  }

  lemma FiveSteps(registry: Registry, s: State, p: nat, c: Choice)
    ensures Repeated(registry, s, p, c, 5) == Step(registry, Twice(registry, Twice(registry, s, p, c), p, c), p, c)
  {
    var s2 := Twice(registry, s, p, c);
    assert Repeated(registry, s2, p, c, 3) == Step(registry, Twice(registry, s2, p, c), p, c);
    assert Repeated(registry, s, p, c, 5) == Repeated(registry, s2, p, c, 3);
  }

  /**
   * A call that nobody interrupts returns the adapter's answer and leaves it in a row of its own, which
   * succeeded exactly if the answer is ok.
   */
  lemma UninterruptedCallRecords(registry: Registry, s: State, p: nat, c: Choice)
    requires p < |s.callers| && s.callers[p].phase == Start
    requires c.Proceed? && c.economicOk && c.settled && c.adapter.Answers?
    requires var r := s.callers[p].request;
      && Authorize(r.intent, r.authorization, Declared(registry, r.intent), c.now) == None
      && r.intent.capability in registry && !Conflicts(s.rows, r.intent)
    ensures var r, s', result := s.callers[p].request, Repeated(registry, s, p, c, 5), c.adapter.result;
      && s'.callers[p].phase == Done(Result(result, |s.rows|))
      && s'.entries == s.entries + [Entry(p, |s.rows|, Answered(result))]
      && s'.rows == s.rows + [Row(r.mission, r.intent, if result.ok then Succeeded else Failed, Some(result),
           if result.ok then NoError else ResultNote(result.error), true)]
  {
    var s2 := Twice(registry, s, p, c);
    UninterruptedClaim(registry, s, p, c);
    UninterruptedEntry(registry, s2, p, c, |s.rows|);
    UninterruptedRecord(registry, Twice(registry, s2, p, c), p, c, |s.rows|, c.adapter.result);
    FiveSteps(registry, s, p, c);
  }

  // ---------------------------------------------------------------- how a call is refused or fails

  /** A row whose call ended without a result. */
  function EndedRow(r: Request, status: Status, error: ErrorNote): Row {
    Row(r.mission, r.intent, status, None, error, true)
  }

  /** The adapter runs exactly if the request is permitted when the gateway is entered and an adapter has the name. */
  lemma AdapterRunsExactly(registry: Registry, r: Request, now: int, adapter: AdapterEnd)
    ensures GatewayExecute(registry, r, now, adapter) != NotRun
      <==> r.intent.capability in registry && Permitted(r.intent, r.authorization, registry[r.intent.capability], now)
    ensures GatewayExecute(registry, r, now, adapter) != NotRun ==>
      GatewayExecute(registry, r, now, adapter) == if adapter.Answers? then Answered(adapter.result) else Exception
  {
    AuthorizedExactly(r.intent, r.authorization, Declared(registry, r.intent), now);
  }

  /** A request that is not permitted leaves a row that says why, unless its key is taken, and never gets further. */
  lemma RefusedAuthorizationDenies(registry: Registry, s: State, p: nat, c: Choice)
    requires p < |s.callers| && s.callers[p].phase == Start && c.Proceed?
    requires var r := s.callers[p].request; !Permitted(r.intent, r.authorization, Declared(registry, r.intent), c.now)
    ensures var r, s' := s.callers[p].request, Step(registry, s, p, c);
      var denial := Authorize(r.intent, r.authorization, Declared(registry, r.intent), c.now);
      && denial.Some? && s'.entries == s.entries
      && if Conflicts(s.rows, r.intent) then s'.rows == s.rows && s'.callers[p].phase == Done(Raised(KeyConflict))
         else
           && s'.rows == s.rows + [EndedRow(r, Denied, PolicyNote(denial.value))]
           && s'.callers[p].phase == Done(Raised(PolicyDenied(denial.value)))
  {
    var r := s.callers[p].request;
    AuthorizedExactly(r.intent, r.authorization, Declared(registry, r.intent), c.now);
    assert s.entries + [] == s.entries;
  }

  /**
   * A claimed call that the economic gate refuses never enters the gateway: two steps later it has
   * raised, and its row is denied for that reason.
   */
  lemma RefusedGateDenies(registry: Registry, s: State, p: nat, c: Choice, d: Choice, id: nat)
    requires p < |s.callers| && s.callers[p].phase == Claimed(id) && id < |s.rows|
    requires c.Proceed? && !c.economicOk && d.Proceed?
    ensures var s' := Step(registry, Step(registry, s, p, c), p, d);
      && s'.entries == s.entries && s'.callers == s.callers[p := s.callers[p].(phase := Done(Raised(EconomicRefusal)))]
      && s'.rows == s.rows[id := s.rows[id].(status := Denied, error := EconomicNote, completed := true)]
  {
    var s1 := Step(registry, s, p, c);
    assert s.entries + [] == s.entries;
    assert s1.callers[p].phase == Refused(id) && s1.rows == s.rows && s1.entries == s.entries;
  }

  /** So does a call from its start. */
  lemma UninterruptedRefusal(registry: Registry, s: State, p: nat, c: Choice)
    requires p < |s.callers| && s.callers[p].phase == Start && c.Proceed? && !c.economicOk
    requires var r := s.callers[p].request;
      && Permitted(r.intent, r.authorization, Declared(registry, r.intent), c.now) && !Conflicts(s.rows, r.intent)
      && (FindByKey(s.rows, r.intent.key).Some? ==> !AtMostOnceCall(registry, r.intent))
    ensures var r, s' := s.callers[p].request, Twice(registry, Twice(registry, s, p, c), p, c);
      && s'.callers[p].phase == Done(Raised(EconomicRefusal)) && s'.entries == s.entries
      && s'.rows == s.rows + [EndedRow(r, Denied, EconomicNote)]
  {
    var r := s.callers[p].request;
    AuthorizedExactly(r.intent, r.authorization, Declared(registry, r.intent), c.now);
    UninterruptedClaim(registry, s, p, c);
    RefusedGateDenies(registry, Twice(registry, s, p, c), p, c, c, |s.rows|);
  }

  /** A call whose adapter raised, or that the gateway itself refused, leaves its row uncertain exactly if the effective class is at most once. */
  lemma FailureIsRecorded(registry: Registry, s: State, p: nat, c: Choice, id: nat)
    requires p < |s.callers| && s.callers[p].phase.Ran? && s.callers[p].phase.row == id && id < |s.rows|
    requires !s.callers[p].phase.attempt.Answered? && c.Proceed? && c.settled
    ensures var s', r := Step(registry, s, p, c), s.callers[p].request;
      && s'.callers[p].phase == Done(Raised(ExecutionFailed)) && s'.entries == s.entries
      && s'.rows == s.rows[id := s.rows[id].(
           status := if EffectiveClass(r.intent, Declared(registry, r.intent)) == AtMostOnce then Uncertain else Failed,
           error := ExecutionNote, completed := true)]
  {
    assert s.entries + [] == s.entries;
  }

  lemma UninterruptedFailure(registry: Registry, s: State, p: nat, c: Choice)
    requires p < |s.callers| && s.callers[p].phase == Start && c.Proceed? && c.economicOk && c.settled
    requires var r := s.callers[p].request;
      && Permitted(r.intent, r.authorization, Declared(registry, r.intent), c.now) && !Conflicts(s.rows, r.intent)
      && (FindByKey(s.rows, r.intent.key).Some? ==> !AtMostOnceCall(registry, r.intent))
      && (r.intent.capability in registry ==> c.adapter.Raises?)
    ensures var r, s' := s.callers[p].request, Repeated(registry, s, p, c, 5);
      && s'.callers[p].phase == Done(Raised(ExecutionFailed))
      && s'.entries == s.entries + [Entry(p, |s.rows|, if r.intent.capability in registry then Exception else NotRun)]
      && s'.rows == s.rows + [EndedRow(r,
           if EffectiveClass(r.intent, Declared(registry, r.intent)) == AtMostOnce then Uncertain else Failed, ExecutionNote)]
  {
    var r, s2 := s.callers[p].request, Twice(registry, s, p, c);
    AuthorizedExactly(r.intent, r.authorization, Declared(registry, r.intent), c.now);
    UninterruptedClaim(registry, s, p, c);
    UninterruptedEntry(registry, s2, p, c, |s.rows|);
    AdapterRunsExactly(registry, r, c.now, c.adapter);
    FailureIsRecorded(registry, Twice(registry, s2, p, c), p, c, |s.rows|);
    FiveSteps(registry, s, p, c);
  }

  /** What cannot be settled is not recorded either: the call raises, and its row stays open. */
  lemma UnsettledStaysOpen(registry: Registry, s: State, p: nat, c: Choice)
    requires p < |s.callers| && s.callers[p].phase.Ran? && c.Proceed? && !c.settled
    ensures var s' := Step(registry, s, p, c);
      s'.rows == s.rows && s'.entries == s.entries && s'.callers[p].phase == Done(Raised(SettlementFailed))
  {
    assert s.entries + [] == s.entries;
  }

  /** A claim whose key was taken in the meantime: at most once it is resolved by the row that took it, otherwise it is a conflict. */
  lemma LostRaceIsResolved(registry: Registry, s: State, p: nat, c: Choice, d: Choice, id: nat)
    requires Inv(registry, s) && p < |s.callers| && s.callers[p].phase == Claiming && c.Proceed? && d.Proceed?
    requires var i := s.callers[p].request.intent; i.key.Some? && id < |s.rows| && s.rows[id].intent.key == i.key
    ensures var s1 := Step(registry, s, p, c);
      var s2 := Step(registry, s1, p, d);
      && s2.rows == s.rows && s2.entries == s.entries && s2.callers[p].phase.Done?
      && if AtMostOnceCall(registry, s.callers[p].request.intent) && s.callers[p].request.intent.key != Some("") then ResolvedBy(s.rows[id], id, s2.callers[p].phase.verdict)
         else s2.callers[p].phase.verdict == Raised(KeyConflict)
  {
    var i, s1 := s.callers[p].request.intent, Step(registry, s, p, c);
    assert s.entries + [] == s.entries;
    assert FindByKey(s.rows, i.key) == Some(id);
    assert s1.rows == s.rows && s1.entries == s.entries;
    if AtMostOnceCall(registry, i) && i.key != Some("") {
      StepKeeps(registry, s, p, c);
      TakenKeyIsResolved(registry, s1, p, d, id);
    }
  }

  // ---------------------------------------------------------------- what every entry has passed

  function StateAt(registry: Registry, requests: seq<Request>, turns: seq<Turn>, n: nat): State
    requires n <= |turns|
  {
    Run(registry, Initial(requests), turns[..n])
  }

  function PhaseAt(registry: Registry, requests: seq<Request>, turns: seq<Turn>, n: nat, p: nat): Phase
    requires n <= |turns| && p < |requests|
  {
    var s := StateAt(registry, requests, turns, n);
    if p < |s.callers| then s.callers[p].phase else Crashed
  }

  /** Turn `i` moves call `p` on, and does not crash it. */
  predicate MovesAt(turns: seq<Turn>, p: nat, i: nat) {
    i < |turns| && turns[i].caller == p && turns[i].choice.Proceed?
  }

  /** At turn `i` call `p` was at its start, and permitted. */
  predicate PermittedAt(registry: Registry, requests: seq<Request>, turns: seq<Turn>, p: nat, i: nat) {
    && MovesAt(turns, p, i) && p < |requests| && PhaseAt(registry, requests, turns, i, p) == Start
    && Permitted(requests[p].intent, requests[p].authorization, Declared(registry, requests[p].intent), turns[i].choice.now)
  }

  /** At turn `g` the economic gate let call `p` pass, with this row. */
  predicate GatePassedAt(registry: Registry, requests: seq<Request>, turns: seq<Turn>, p: nat, id: nat, g: nat) {
    && MovesAt(turns, p, g) && p < |requests| && PhaseAt(registry, requests, turns, g, p) == Claimed(id)
    && turns[g].choice.economicOk
  }

  /** Entry `e` was made in turn `n`; unless the gateway refused it, the request was permitted once more, and the entry is how the adapter ended. */
  predicate EnteredAt(registry: Registry, requests: seq<Request>, turns: seq<Turn>, e: Entry, n: nat) {
    && MovesAt(turns, e.caller, n) && e.caller < |requests|
    && PhaseAt(registry, requests, turns, n, e.caller) == Ready(e.row)
    && (e.attempt != NotRun ==>
          && Permitted(requests[e.caller].intent, requests[e.caller].authorization,
               Declared(registry, requests[e.caller].intent), turns[n].choice.now)
          && e.attempt == if turns[n].choice.adapter.Answers? then Answered(turns[n].choice.adapter.result) else Exception)
  }

  ghost predicate Started(registry: Registry, requests: seq<Request>, turns: seq<Turn>, p: nat, n: nat) {
    exists i: nat :: i < n && PermittedAt(registry, requests, turns, p, i)
  }

  ghost predicate Licensed(registry: Registry, requests: seq<Request>, turns: seq<Turn>, p: nat, id: nat, n: nat) {
    exists i: nat, g: nat :: i < g < n && PermittedAt(registry, requests, turns, p, i) && GatePassedAt(registry, requests, turns, p, id, g)
  }

  ghost predicate Earned(registry: Registry, requests: seq<Request>, turns: seq<Turn>, e: Entry, n: nat) {
    exists l: nat :: l < n && Licensed(registry, requests, turns, e.caller, e.row, l) && EnteredAt(registry, requests, turns, e, l)
  }

  /** What a call's phase tells of the turns before. */
  ghost predicate PhaseEarned(registry: Registry, requests: seq<Request>, turns: seq<Turn>, p: nat, n: nat)
    requires n <= |turns| && p < |requests|
  {
    match PhaseAt(registry, requests, turns, n, p)
    case Claiming => Started(registry, requests, turns, p, n)
    case Claimed(_) => Started(registry, requests, turns, p, n)
    case Ready(id) => Licensed(registry, requests, turns, p, id, n)
    case _ => true
  }

  lemma {:induction false} RunSnoc(registry: Registry, s: State, turns: seq<Turn>, t: Turn)
    ensures Run(registry, s, turns + [t]) == Step(registry, Run(registry, s, turns), t.caller, t.choice)
    decreases |turns|
  {
    if turns == [] {
      assert turns + [t] == [t] && [t][1..] == [];
    } else {
      assert (turns + [t])[1..] == turns[1..] + [t];
      RunSnoc(registry, Step(registry, s, turns[0].caller, turns[0].choice), turns[1..], t);
    }
  }

  lemma NextState(registry: Registry, requests: seq<Request>, turns: seq<Turn>, n: nat)
    requires n < |turns|
    ensures StateAt(registry, requests, turns, n + 1) == Step(registry, StateAt(registry, requests, turns, n), turns[n].caller, turns[n].choice)
  {
    assert turns[..n + 1] == turns[..n] + [turns[n]];
    RunSnoc(registry, Initial(requests), turns[..n], turns[n]);
  }

  /** Calls keep their requests. */
  lemma {:induction false} RequestsStay(registry: Registry, requests: seq<Request>, turns: seq<Turn>, n: nat)
    requires n <= |turns|
    ensures var s := StateAt(registry, requests, turns, n);
      |s.callers| == |requests| && forall p :: 0 <= p < |requests| ==> s.callers[p].request == requests[p]
    decreases n
  {
    if n > 0 {
      RequestsStay(registry, requests, turns, n - 1);
      NextState(registry, requests, turns, n - 1);
    }
  }

  /** Only its own turns move a call, and this is how. */
  lemma NextPhase(registry: Registry, requests: seq<Request>, turns: seq<Turn>, n: nat, p: nat)
    requires n < |turns| && p < |requests|
    ensures var s := StateAt(registry, requests, turns, n);
      PhaseAt(registry, requests, turns, n + 1, p) ==
        if turns[n].caller == p then Move(registry, s.rows, requests[p], PhaseAt(registry, requests, turns, n, p), turns[n].choice).phase
        else PhaseAt(registry, requests, turns, n, p)
  {
    RequestsStay(registry, requests, turns, n);
    NextState(registry, requests, turns, n);
  }

  /** Which phases lead to the ones before the gateway. */
  lemma MovedTo(registry: Registry, rows: seq<Row>, r: Request, phase: Phase, c: Choice)
    ensures var next := Move(registry, rows, r, phase, c).phase;
      && (next.Claiming? ==>
            c.Proceed? && phase == Start && Permitted(r.intent, r.authorization, Declared(registry, r.intent), c.now))
      && (next.Claimed? ==> c.Proceed? && phase == Claiming)
      && (next.Ready? ==> c.Proceed? && phase == Claimed(next.row) && c.economicOk)
  {
    AuthorizedExactly(r.intent, r.authorization, Declared(registry, r.intent), if c.Proceed? then c.now else 0);
  }

  lemma {:induction false} PhasesAreEarned(registry: Registry, requests: seq<Request>, turns: seq<Turn>, p: nat, n: nat)
    requires n <= |turns| && p < |requests|
    ensures PhaseEarned(registry, requests, turns, p, n)
    decreases n
  {
    if n > 0 {
      PhasesAreEarned(registry, requests, turns, p, n - 1);
      NextPhase(registry, requests, turns, n - 1, p);
      if turns[n - 1].caller == p {
        MovedTo(registry, StateAt(registry, requests, turns, n - 1).rows, requests[p],
          PhaseAt(registry, requests, turns, n - 1, p), turns[n - 1].choice);
        PhaseMoves(registry, requests, turns, p, n - 1);
      }
    }
  }

  lemma PhaseMoves(registry: Registry, requests: seq<Request>, turns: seq<Turn>, p: nat, n: nat)
    requires n < |turns| && p < |requests| && turns[n].caller == p && PhaseEarned(registry, requests, turns, p, n)
    requires PhaseAt(registry, requests, turns, n + 1, p).Claiming? ==> PermittedAt(registry, requests, turns, p, n)
    requires PhaseAt(registry, requests, turns, n + 1, p).Claimed? ==> PhaseAt(registry, requests, turns, n, p) == Claiming
    requires PhaseAt(registry, requests, turns, n + 1, p).Ready? ==>
      GatePassedAt(registry, requests, turns, p, PhaseAt(registry, requests, turns, n + 1, p).row, n)
    ensures PhaseEarned(registry, requests, turns, p, n + 1)
  {
    match PhaseAt(registry, requests, turns, n + 1, p)
    case Claimed(_) =>
      var i: nat :| i < n && PermittedAt(registry, requests, turns, p, i);
    case Ready(id) =>
      var i: nat :| i < n && PermittedAt(registry, requests, turns, p, i);
      assert GatePassedAt(registry, requests, turns, p, id, n);
    case _ =>
  }

  /** The entry that turn `n` makes. */
  lemma NewEntryIsEarned(registry: Registry, requests: seq<Request>, turns: seq<Turn>, n: nat)
    requires n < |turns|
    ensures var before, after := StateAt(registry, requests, turns, n).entries, StateAt(registry, requests, turns, n + 1).entries;
      after == before || (|after| == |before| + 1 && before <= after && Earned(registry, requests, turns, after[|before|], n + 1))
  {
    var s := StateAt(registry, requests, turns, n);
    var p, c := turns[n].caller, turns[n].choice;
    NextState(registry, requests, turns, n);
    RequestsStay(registry, requests, turns, n);
    assert s.entries + [] == s.entries;
    if p < |s.callers| && c.Proceed? && s.callers[p].phase.Ready? {
      var r := requests[p];
      PhasesAreEarned(registry, requests, turns, p, n);
      AdapterRunsExactly(registry, r, c.now, c.adapter);
      var e := Entry(p, s.callers[p].phase.row, GatewayExecute(registry, r, c.now, c.adapter));
      assert EnteredAt(registry, requests, turns, e, n);
    }
  }

  lemma EarlierEntryStays(registry: Registry, requests: seq<Request>, turns: seq<Turn>, n: nat, k: nat)
    requires n < |turns| && k < |StateAt(registry, requests, turns, n).entries|
    ensures k < |StateAt(registry, requests, turns, n + 1).entries|
    ensures StateAt(registry, requests, turns, n + 1).entries[k] == StateAt(registry, requests, turns, n).entries[k]
  {
    NewEntryIsEarned(registry, requests, turns, n);
  }

  /** Turn `n`, counted from one, leaves every entry earned. */
  lemma EarnedNext(registry: Registry, requests: seq<Request>, turns: seq<Turn>, n: nat, k: nat)
    requires 0 < n <= |turns| && k < |StateAt(registry, requests, turns, n).entries|
    requires k < |StateAt(registry, requests, turns, n - 1).entries| ==>
      Earned(registry, requests, turns, StateAt(registry, requests, turns, n - 1).entries[k], n - 1)
    ensures Earned(registry, requests, turns, StateAt(registry, requests, turns, n).entries[k], n)
  {
    NewEntryIsEarned(registry, requests, turns, n - 1);
    if k < |StateAt(registry, requests, turns, n - 1).entries| {
      EarlierEntryStays(registry, requests, turns, n - 1, k);
      EarnedStays(registry, requests, turns, StateAt(registry, requests, turns, n - 1).entries[k], n - 1, n);
    }
  }

  lemma {:induction false} EntriesEarned(registry: Registry, requests: seq<Request>, turns: seq<Turn>, n: nat, k: nat)
    requires n <= |turns| && k < |StateAt(registry, requests, turns, n).entries|
    ensures Earned(registry, requests, turns, StateAt(registry, requests, turns, n).entries[k], n)
    decreases n
  {
    if n > 0 {
      if k < |StateAt(registry, requests, turns, n - 1).entries| {
        EntriesEarned(registry, requests, turns, n - 1, k);
      }
      EarnedNext(registry, requests, turns, n, k);
    }
  }

  lemma EarnedStays(registry: Registry, requests: seq<Request>, turns: seq<Turn>, e: Entry, n: nat, later: nat)
    requires Earned(registry, requests, turns, e, n) && n <= later
    ensures Earned(registry, requests, turns, e, later)
  {
    var l: nat :| l < n && Licensed(registry, requests, turns, e.caller, e.row, l) && EnteredAt(registry, requests, turns, e, l);
  }

  /**
   * In every interleaving with crashes, each entry into the gateway was made by a call that was permitted
   * at its start and that the economic gate then let pass with that row; and its adapter ran only if the
   * request was permitted once more at that moment.
   */
  lemma EntriesAreLicensed(registry: Registry, requests: seq<Request>, turns: seq<Turn>, k: nat)
    requires k < |Run(registry, Initial(requests), turns).entries|
    ensures Earned(registry, requests, turns, Run(registry, Initial(requests), turns).entries[k], |turns|)
  {
    assert turns[..|turns|] == turns;
    EntriesEarned(registry, requests, turns, |turns|, k);
  }
}
