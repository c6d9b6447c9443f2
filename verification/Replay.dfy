/**
 * The nonce stores of the execution gateway: the in-memory guard, and the append-only file that
 * is read back after a restart.
 */
module Replay {
  import opened Options

  /** A write is a whole line or nothing; a line may also be written while its sync fails. */
  datatype WriteOutcome = Durable | Unsynced | Lost

  datatype Store = Store(seen: set<string>, log: string)

  // ---------------------------------------------------------------- reading lines back

  predicate EndsWithCr(line: string) {
    line != "" && line[|line| - 1] == '\r'
  }

  function StripCr(line: string): string {
    if EndsWithCr(line) then line[..|line| - 1] else line
  }

  /** Buffered line reading: a terminated line loses its LF and one CR before it, an unterminated last line is kept whole. */
  function LinesFrom(text: string, pending: string): seq<string> {
    if text == "" then
      if pending == "" then [] else [pending]
    else if text[0] == '\n' then
      [StripCr(pending)] + LinesFrom(text[1..], "")
    else
      LinesFrom(text[1..], pending + [text[0]])
  }

  function Lines(text: string): seq<string> {
    LinesFrom(text, "")
  }

  /** Nothing but whole lines has been written. */
  predicate WholeLines(log: string) {
    log == "" || log[|log| - 1] == '\n'
  }

  lemma {:induction false} LinesOfConcatenation(log: string, more: string, pending: string)
    requires WholeLines(log) && (log == "" ==> pending == "")
    ensures LinesFrom(log + more, pending) == LinesFrom(log, pending) + LinesFrom(more, "")
    decreases |log|
  {
    if log == "" {
      assert log + more == more;
    } else {
      assert (log + more)[1..] == log[1..] + more;
      if log[0] == '\n' {
        LinesOfConcatenation(log[1..], more, "");
      } else {
        LinesOfConcatenation(log[1..], more, pending + [log[0]]);
      }
    }
  }

  lemma {:induction false} LinesOfOneLine(line: string, pending: string)
    requires '\n' !in line
    ensures LinesFrom(line + "\n", pending) == [StripCr(pending + line)]
    decreases |line|
  {
    if line == "" {
      assert pending + line == pending && line + "\n" == "\n";
    } else {
      assert (line + "\n")[1..] == line[1..] + "\n";
      assert pending + [line[0]] + line[1..] == pending + line;
      LinesOfOneLine(line[1..], pending + [line[0]]);
    }
  }

  lemma {:induction false} LinesOfUnfinished(line: string, pending: string)
    requires '\n' !in line && pending + line != ""
    ensures LinesFrom(line, pending) == [pending + line]
    decreases |line|
  {
    if line == "" {
      assert pending + line == pending;
    } else {
      assert pending + [line[0]] + line[1..] == pending + line;
      LinesOfUnfinished(line[1..], pending + [line[0]]);
    }
  }

  /** A last line that has no end is read as it stands, its CR included. */
  lemma UnfinishedLineIsRead(log: string, line: string)
    requires WholeLines(log) && '\n' !in line && line != ""
    ensures Lines(log + line) == Lines(log) + [line]
  {
    LinesOfConcatenation(log, line, "");
    LinesOfUnfinished(line, "");
    assert "" + line == line;
  }

  /** What reading the log back says about one more line: it returns without a final CR. */
  lemma AppendedLine(log: string, line: string)
    requires WholeLines(log) && '\n' !in line
    ensures Lines(log + line + "\n") == Lines(log) + [StripCr(line)]
  {
    assert log + line + "\n" == log + (line + "\n");
    LinesOfConcatenation(log, line + "\n", "");
    LinesOfOneLine(line, "");
    assert "" + line == line;
  }

  // ---------------------------------------------------------------- what the stores compute

  function Opened(log: string): Store {
    Store(Elements(Lines(log)), log)
  }

  predicate Acceptable(nonce: string) {
    nonce != "" && '\n' !in nonce
  }

  /** A nonce whose line could not be made durable is not granted. */
  function Reserved(store: Store, nonce: string, write: WriteOutcome): (Store, bool) {
    if !Acceptable(nonce) || nonce in store.seen then (store, false)
    else
      var log := if write == Lost then store.log else store.log + nonce + "\n";
      if write == Durable then (Store(store.seen + {nonce}, log), true)
      else (store.(log := log), false)
  }

  class FileReplayStore {
    var seen: set<string>
    var file: string

    constructor Open(file: string)
      ensures Store(seen, this.file) == Opened(file)
    {
      seen, this.file := {}, file;
      new;
      var lines := Lines(file);
      for i := 0 to |lines|
        invariant this.file == file && seen == Elements(lines[..i])
      {
        seen := seen + {lines[i]};
      }
      assert lines[..|lines|] == lines;
    }

    method Reserve(nonce: string, write: WriteOutcome) returns (granted: bool)
      modifies this
      ensures (Store(seen, file), granted) == Reserved(old(Store(seen, file)), nonce, write)
    {
      if nonce == "" || '\n' in nonce || nonce in seen {
        return false;
      }
      if write != Lost {
        file := file + nonce + "\n";
      }
      if write != Durable {
        return false;
      }
      seen := seen + {nonce};
      granted := true;
    }
  }

  class ReplayGuard {
    var seen: set<string>

    constructor ()
      ensures seen == {}
    {
      seen := {};
    }

    method Consume(nonce: string) returns (granted: bool)
      modifies this
      ensures granted <==> nonce !in old(seen)
      ensures seen == old(seen) + {nonce}
    {
      granted := nonce !in seen;
      seen := seen + {nonce};
    }
  }

  // ---------------------------------------------------------------- runs with restarts

  datatype Event = Request(nonce: string, write: WriteOutcome) | Restart

  datatype Trace = Trace(store: Store, granted: seq<string>, replies: seq<bool>)

  function After(log: string, events: seq<Event>): Trace {
    if events == [] then Trace(Opened(log), [], [])
    else
      var before := After(log, events[..|events| - 1]);
      match events[|events| - 1]
      case Restart => before.(store := Opened(before.store.log))
      case Request(nonce, write) =>
        var (store, ok) := Reserved(before.store, nonce, write);
        Trace(store, before.granted + if ok then [nonce] else [], before.replies + [ok])
  }

  /**
   * What every step keeps: a granted nonce that does not end in CR is in the memory of the
   * process, granted nonces are in the file up to a final CR, and are therefore granted once.
   */
  ghost predicate Kept(store: Store, granted: seq<string>) {
    && WholeLines(store.log)
    && (forall nonce :: nonce in granted ==> Acceptable(nonce) && StripCr(nonce) in Lines(store.log))
    && (forall nonce :: nonce in granted && !EndsWithCr(nonce) ==> nonce in store.seen)
    && (forall nonce :: !EndsWithCr(nonce) ==> multiset(granted)[nonce] <= 1)
  }

  lemma ReserveKeeps(store: Store, granted: seq<string>, nonce: string, write: WriteOutcome)
    requires Kept(store, granted)
    ensures var (store', ok) := Reserved(store, nonce, write);
      Kept(store', granted + if ok then [nonce] else [])
  {
    var (store', ok) := Reserved(store, nonce, write);
    if Acceptable(nonce) {
      AppendedLine(store.log, nonce);
    }
    if ok {
      assert nonce !in granted || EndsWithCr(nonce);
    } else {
      assert granted + [] == granted;
    }
  }

  lemma OpenKeeps(store: Store, granted: seq<string>)
    requires Kept(store, granted)
    ensures Kept(Opened(store.log), granted)
  {
  }

  lemma {:induction false} RunKeeps(log: string, events: seq<Event>)
    requires WholeLines(log)
    ensures Kept(After(log, events).store, After(log, events).granted)
  {
    if events != [] {
      var front := events[..|events| - 1];
      RunKeeps(log, front);
      match events[|events| - 1]
      case Restart => OpenKeeps(After(log, front).store, After(log, front).granted);
      case Request(nonce, write) =>
        ReserveKeeps(After(log, front).store, After(log, front).granted, nonce, write);
    }
  }

  /**
   * A nonce is granted at most once over every run with restarts, starting from every file the
   * store can have written, exactly when it does not end in CR (or can never be granted).
   */
  lemma GrantedAtMostOnce(nonce: string)
    ensures (forall log, events :: WholeLines(log) ==> multiset(After(log, events).granted)[nonce] <= 1)
      <==> !EndsWithCr(nonce) || '\n' in nonce
  {
    forall log, events | WholeLines(log) && (!EndsWithCr(nonce) || '\n' in nonce)
      ensures multiset(After(log, events).granted)[nonce] <= 1
    {
      RunKeeps(log, events);
      if '\n' in nonce {
        assert nonce !in After(log, events).granted;
      }
    }
    if EndsWithCr(nonce) && '\n' !in nonce {
      CrNonceIsGrantedTwice(nonce);
    }
  }

  /** The file forgets the final CR, so after a restart such a nonce looks new. */
  lemma CrNonceIsGrantedTwice(nonce: string)
    requires EndsWithCr(nonce) && '\n' !in nonce
    ensures After("", [Request(nonce, Durable), Restart, Request(nonce, Durable)]).granted == [nonce, nonce]
  {
    var events := [Request(nonce, Durable), Restart, Request(nonce, Durable)];
    assert events[..2] == [Request(nonce, Durable), Restart];
    assert events[..2][..1] == [Request(nonce, Durable)];
    assert events[..1][..0] == [];
    assert Lines("") == [];
    assert After("", events[..1][..0]) == Trace(Opened(""), [], []);
    var once := After("", events[..1]);
    assert once.granted == [nonce];
    AppendedLine("", nonce);
    assert once.store.log == nonce + "\n" == "" + nonce + "\n";
    assert Lines(once.store.log) == [StripCr(nonce)];
    assert |StripCr(nonce)| < |nonce|;
    assert After("", events[..2]).store.seen == {StripCr(nonce)};
  }

  /** Which lines read back as a nonce. */
  lemma ReadsBackAs(line: string, nonce: string)
    ensures StripCr(line) == nonce <==> (line == nonce && !EndsWithCr(nonce)) || line == nonce + "\r"
  {
    if EndsWithCr(line) {
      assert line == line[..|line| - 1] + "\r";
    }
  }

  /** After a restart a nonce is refused for replay exactly when some logged line reads back as it. */
  lemma RefusedAfterRestart(log: string, logged: seq<string>, nonce: string)
    requires WholeLines(log)
    requires Lines(log) == seq(|logged|, i requires 0 <= i < |logged| => StripCr(logged[i]))
    requires Acceptable(nonce)
    ensures Reserved(Opened(log), nonce, Durable).1
      <==> !((nonce in logged && !EndsWithCr(nonce)) || nonce + "\r" in logged)
  {
    forall i | 0 <= i < |logged|
      ensures Lines(log)[i] == nonce <==> (logged[i] == nonce && !EndsWithCr(nonce)) || logged[i] == nonce + "\r"
    {
      ReadsBackAs(logged[i], nonce);
    }
    assert nonce in Lines(log) <==> exists i :: 0 <= i < |logged| && Lines(log)[i] == nonce;
  }

  // ---------------------------------------------------------------- the file is the set of its lines

  /** A store reduced to two sets: the nonces the process remembers, and the lines a restart would read back. */
  datatype Ledger = Ledger(seen: set<string>, lines: set<string>)

  function Entered(l: Ledger, nonce: string, write: WriteOutcome): (Ledger, bool) {
    if !Acceptable(nonce) || nonce in l.seen then (l, false)
    else match write
      case Lost => (l, false)
      case Unsynced => (l.(lines := l.lines + {StripCr(nonce)}), false)
      case Durable => (Ledger(l.seen + {nonce}, l.lines + {StripCr(nonce)}), true)
  }

  /** A restart remembers exactly the lines. */
  function LedgerAfter(l: Ledger, events: seq<Event>): (Ledger, seq<bool>) {
    if events == [] then (l, [])
    else
      var (before, replies) := LedgerAfter(l, events[..|events| - 1]);
      match events[|events| - 1]
      case Restart => (Ledger(before.lines, before.lines), replies)
      case Request(nonce, write) =>
        var (after, ok) := Entered(before, nonce, write);
        (after, replies + [ok])
  }

  lemma ReserveRefinesLedger(store: Store, nonce: string, write: WriteOutcome)
    requires WholeLines(store.log)
    ensures var (store', ok) := Reserved(store, nonce, write);
      && WholeLines(store'.log)
      && (Ledger(store'.seen, Elements(Lines(store'.log))), ok) == Entered(Ledger(store.seen, Elements(Lines(store.log))), nonce, write)
  {
    if Acceptable(nonce) && nonce !in store.seen && write != Lost {
      AppendedLine(store.log, nonce);
      var lines := Lines(store.log);
      assert Elements(lines + [StripCr(nonce)]) == Elements(lines) + {StripCr(nonce)};
    }
  }

  /** Over every run, whatever the nonces and the failures of writes, the file store answers as its two sets of lines do. */
  lemma {:induction false} FileIsItsLines(log: string, events: seq<Event>)
    requires WholeLines(log)
    ensures var trace := After(log, events);
      var lines := Elements(Lines(log));
      && WholeLines(trace.store.log)
      && (Ledger(trace.store.seen, Elements(Lines(trace.store.log))), trace.replies) == LedgerAfter(Ledger(lines, lines), events)
  {
    if events != [] {
      var n := |events| - 1;
      FileIsItsLines(log, events[..n]);
      if events[n].Request? {
        ReserveRefinesLedger(After(log, events[..n]).store, events[n].nonce, events[n].write);
      }
    }
  }

  // ---------------------------------------------------------------- the file refines the guard

  predicate Ordinary(event: Event) {
    event.Request? ==> Acceptable(event.nonce) && !EndsWithCr(event.nonce) && event.write == Durable
  }

  /** The guard answers the same requests and never restarts. */
  function GuardAfter(seen: set<string>, events: seq<Event>): (set<string>, seq<bool>) {
    if events == [] then (seen, [])
    else
      var (before, replies) := GuardAfter(seen, events[..|events| - 1]);
      match events[|events| - 1]
      case Restart => (before, replies)
      case Request(nonce, _) => (before + {nonce}, replies + [nonce !in before])
  }

  /** With working writes the file store gives, across restarts, the answers of a guard that never restarts. */
  lemma {:induction false} FileRefinesGuard(log: string, events: seq<Event>)
    requires WholeLines(log) && forall i :: 0 <= i < |events| ==> Ordinary(events[i])
    ensures var trace := After(log, events);
      && WholeLines(trace.store.log)
      && (trace.store.seen, trace.replies) == GuardAfter(Elements(Lines(log)), events)
      && trace.store.seen == Elements(Lines(trace.store.log))
      && Elements(trace.granted) <= trace.store.seen
  {
    if events != [] {
      var n := |events| - 1;
      FileRefinesGuard(log, events[..n]);
      assert Ordinary(events[n]);
      if events[n].Request? {
        var seen := After(log, events[..n]).store.seen;
        assert events[n].nonce in seen ==> seen + {events[n].nonce} == seen;
        AppendedLine(After(log, events[..n]).store.log, events[n].nonce);
      }
    }
  }
}
