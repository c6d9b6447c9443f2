/**
 * The chronicle stream with resumption: the server pages an append-only log from a cursor and
 * prints it; the client consumes the text in arbitrary chunks, loses the connection at any point,
 * and reconnects from the position of the last event it delivered.
 */
module ChronicleStream {
  import opened Options
  import opened JsonText
  import opened SseFraming

  const PAGE := 100

  // ---------------------------------------------------------------- the server

  datatype ResyncReason = CursorAhead(expectedMax: nat, received: nat) | Gap(expected: nat, received: nat)

  function CursorResyncReason(after: nat, head: nat, first: Option<nat>): Option<ResyncReason> {
    if after > head then Some(CursorAhead(head, after))
    else if after > 0 && first.Some? && first.value != after + 1 then Some(Gap(after + 1, first.value))
    else None
  }

  /** Events beyond the cursor, in position order; the log is kept in that order. */
  function Newer(log: seq<Event>, cursor: nat): seq<Event> {
    if log == [] then []
    else Newer(log[..|log| - 1], cursor) + if log[|log| - 1].position > cursor then [log[|log| - 1]] else []
  }

  function Page(log: seq<Event>, cursor: nat): seq<Event> {
    var newer := Newer(log, cursor);
    if |newer| > PAGE then newer[..PAGE] else newer
  }

  function Head(log: seq<Event>): nat {
    if log == [] then 0 else log[|log| - 1].position
  }

  /** The object a resync frame carries. */
  function Describe(reason: ResyncReason): seq<Member> {
    match reason
    case CursorAhead(expectedMax, received) =>
      [Member("status", Text("RESYNCING")), Member("reason", Text("cursor_ahead")),
       Member("expected_max", Number(expectedMax)), Member("received", Number(received))]
    case Gap(expected, received) =>
      [Member("status", Text("RESYNCING")), Member("reason", Text("gap")),
       Member("expected", Number(expected)), Member("received", Number(received))]
  }

  datatype Polled = Polled(items: seq<Item>, cursor: nat, open: bool)

  function Chronicles(events: seq<Event>): (items: seq<Item>)
    ensures |items| == |events|
  {
    seq(|events|, i requires 0 <= i < |events| => Chronicle(events[i]))
  }

  /** One turn of the server loop, given the head read before the page. */
  function Poll(log: seq<Event>, head: nat, cursor: nat): Polled {
    var events := Page(log, cursor);
    var reason := CursorResyncReason(cursor, head, if events == [] then None else Some(events[0].position));
    if reason.Some? then Polled([ResyncRequired(Describe(reason.value))], cursor, false)
    else if events == [] then Polled([Keepalive], cursor, true)
    else Polled(Chronicles(events), events[|events| - 1].position, true)
  }

  class ServerStream {
    const f: Framing
    var cursor: nat
    var open: bool

    constructor (f: Framing, after: nat)
      ensures this.f == f && cursor == after && open
    {
      this.f, cursor, open := f, after, true;
    }

    method PollOnce(log: seq<Event>, head: nat) returns (text: string)
      requires open
      modifies this
      ensures var p := Poll(log, head, old(cursor)); text == Print(f, p.items) && cursor == p.cursor && open == p.open
    {
      var events := Page(log, cursor);
      var reason := CursorResyncReason(cursor, head, if events == [] then None else Some(events[0].position));
      if reason.Some? {
        open := false;
        text := PrintItem(f, ResyncRequired(Describe(reason.value)));
        return;
      }
      if events == [] {
        text := PrintItem(f, Keepalive);
        return;
      }
      text := PrintEvents(f, events);
      cursor := events[|events| - 1].position;
    }
  }

  method PrintItem(f: Framing, item: Item) returns (text: string)
    ensures text == Print(f, [item])
  {
    PrintOne(f, item);
    text := f.frame(item) + "\n\n";
  }

  method PrintEvents(f: Framing, events: seq<Event>) returns (text: string)
    ensures text == Print(f, Chronicles(events))
  {
    text := "";
    for i := 0 to |events|
      invariant text == Print(f, Chronicles(events[..i]))
    {
      PrintAppends(f, Chronicles(events[..i]), [Chronicle(events[i])]);
      assert Chronicles(events[..i + 1]) == Chronicles(events[..i]) + [Chronicle(events[i])];
      var frame := PrintItem(f, Chronicle(events[i]));
      text := text + frame;
    }
    assert events[..|events|] == events;
  }

  lemma {:induction false} PrintTextsAppends(left: seq<string>, right: seq<string>)
    ensures PrintTexts(left + right) == PrintTexts(left) + PrintTexts(right)
  {
    if left == [] {
      assert left + right == right;
    } else {
      var all := left + right;
      PrintTextsAppends(left[1..], right);
      Regrouped(left[0] + "\n\n", PrintTexts(left[1..]), PrintTexts(right));
      assert all[0] == left[0] && all[1..] == left[1..] + right;
    }
  }

  lemma PrintAppends(f: Framing, left: seq<Item>, right: seq<Item>)
    ensures Print(f, left + right) == Print(f, left) + Print(f, right)
  {
    assert Texts(f, left + right) == Texts(f, left) + Texts(f, right);
    PrintTextsAppends(Texts(f, left), Texts(f, right));
  }

  lemma PrintOne(f: Framing, item: Item)
    ensures Print(f, [item]) == f.frame(item) + "\n\n"
  {
    var texts := Texts(f, [item]);
    assert texts == [f.frame(item)] && texts[1..] == [];
    assert PrintTexts(texts[1..]) == "";
    assert f.frame(item) + "\n\n" + "" == f.frame(item) + "\n\n";
  }

  // ---------------------------------------------------------------- the client

  datatype ClientState = ClientState(position: nat, delivered: seq<Event>, stopped: bool, broken: bool)

  /** Handles one frame, unless an earlier one ended the stream or the connection. */
  function OnSignal(c: ClientState, signal: Signal): ClientState {
    if c.stopped || c.broken then c
    else match signal
      case Skip => c
      case Resync => c.(stopped := true)
      case Deliver(e) => c.(position := e.position, delivered := c.delivered + [e])
      case Broken => c.(broken := true)
  }

  function OnSignals(c: ClientState, signals: seq<Signal>): ClientState {
    if signals == [] then c else OnSignal(OnSignals(c, signals[..|signals| - 1]), signals[|signals| - 1])
  }

  function Signals(f: Framing, frames: seq<string>): (signals: seq<Signal>)
    ensures |signals| == |frames|
  {
    seq(|frames|, i requires 0 <= i < |frames| => f.read(frames[i]))
  }

  function OnFrames(f: Framing, c: ClientState, frames: seq<string>): ClientState {
    OnSignals(c, Signals(f, frames))
  }

  function DeliveredBy(signals: seq<Signal>): seq<Event> {
    if signals == [] then []
    else
      var last := signals[|signals| - 1];
      DeliveredBy(signals[..|signals| - 1]) + if last.Deliver? then [last.event] else []
  }

  predicate Ends(signal: Signal) {
    signal.Resync? || signal.Broken?
  }

  /**
   * A client delivers the events of all signals before the first that ends the stream or the connection,
   * stands at the last of them, and is stopped by a resync or broken off by an unreadable frame.
   */
  lemma {:induction false} SignalsUntilTheEnd(c: ClientState, signals: seq<Signal>, k: nat)
    requires !c.stopped && !c.broken && k <= |signals|
    requires forall i :: 0 <= i < k ==> !Ends(signals[i])
    requires k < |signals| ==> Ends(signals[k])
    ensures var c', events := OnSignals(c, signals), DeliveredBy(signals[..k]);
      && c'.delivered == c.delivered + events
      && c'.position == (if events == [] then c.position else events[|events| - 1].position)
      && (c'.stopped <==> k < |signals| && signals[k].Resync?) && (c'.broken <==> k < |signals| && signals[k].Broken?)
    decreases |signals|
  {
    if signals == [] {
      assert c.delivered + [] == c.delivered;
    } else {
      var n := |signals| - 1;
      SignalsUntilTheEnd(c, signals[..n], if k <= n then k else n);
      if k <= n {
        assert signals[..n][..k] == signals[..k];
      } else {
        assert signals[..n][..n] == signals[..n] && signals[..k] == signals && signals[..k][..n] == signals[..n];
        var events := DeliveredBy(signals[..n]);
        assert events + [] == events;
        assert signals[n].Deliver? ==> c.delivered + (events + [signals[n].event]) == c.delivered + events + [signals[n].event];
      }
    }
  }

  class Client {
    const f: Framing
    var position: nat
    var delivered: seq<Event>
    var stopped: bool
    var broken: bool
    const buffer: FrameBuffer

    ghost function View(): ClientState
      reads this
    {
      ClientState(position, delivered, stopped, broken)
    }

    constructor (f: Framing, after: nat)
      ensures this.f == f && View() == ClientState(after, [], false, false) && fresh(buffer) && buffer.buffer == ""
    {
      this.f := f;
      position, delivered, stopped, broken := after, [], false, false;
      buffer := new FrameBuffer();
    }

    /** A new connection starts with an empty buffer, from the last delivered position. */
    method Reconnect() returns (after: nat)
      modifies this`broken, buffer
      ensures after == position && buffer.buffer == "" && View() == old(View()).(broken := false)
    {
      broken, buffer.buffer := false, "";
      after := position;
    }

    method Receive(chunk: string)
      modifies this, buffer
      ensures var (frames, rest) := Split(old(buffer.buffer) + chunk);
        View() == OnFrames(f, old(View()), frames) && buffer.buffer == rest
    {
      var frames := buffer.Receive(chunk);
      for i := 0 to |frames|
        invariant View() == OnFrames(f, old(View()), frames[..i])
        invariant (frames, buffer.buffer) == Split(old(buffer.buffer) + chunk)
      {
        assert Signals(f, frames[..i + 1])[..i] == Signals(f, frames[..i]);
        if !stopped && !broken {
          match f.read(frames[i])
          case Skip =>
          case Resync => stopped := true;
          case Deliver(e) => position, delivered := e.position, delivered + [e];
          case Broken => broken := true;
        }
      }
      assert frames[..|frames|] == frames;
    }
  }

  // ---------------------------------------------------------------- runs

  /** A connection: what the server has read and printed, and what the client has not yet consumed. */
  datatype Connection = Connection(cursor: nat, open: bool, head: Option<nat>, wire: string, buffer: string)

  datatype World = World(log: seq<Event>, client: ClientState, connection: Option<Connection>)

  datatype Action =
    | Append(body: Body)
    | Connect
    | ReadHead
    | ReadPage
    | Receive(count: nat)
    | Disconnect

  /** The log is gap-free: positions are 1, 2, ... */
  ghost predicate GapFree(log: seq<Event>) {
    forall i :: 0 <= i < |log| ==> log[i].position == i + 1
  }

  function Next(f: Framing, w: World, a: Action): World {
    match a
    case Append(body) => w.(log := w.log + [Event(|w.log| + 1, body)])
    case Connect =>
      if w.connection.Some? || w.client.stopped then w
      else w.(client := w.client.(broken := false), connection := Some(Connection(w.client.position, true, None, "", "")))
    case ReadHead =>
      if w.connection == None || !w.connection.value.open then w
      else w.(connection := Some(w.connection.value.(head := Some(Head(w.log)))))
    case ReadPage =>
      if w.connection == None || !w.connection.value.open || w.connection.value.head == None then w
      else
        var c := w.connection.value;
        var p := Poll(w.log, c.head.value, c.cursor);
        w.(connection := Some(Connection(p.cursor, p.open, None, c.wire + Print(f, p.items), c.buffer)))
    case Receive(count) =>
      if w.connection == None || w.connection.value.wire == "" then w
      else
        var c := w.connection.value;
        var n := if count < |c.wire| then count else |c.wire|;
        var (frames, rest) := Split(c.buffer + c.wire[..n]);
        var client := OnFrames(f, w.client, frames);
        World(w.log, client,
          if client.stopped || client.broken then None else Some(c.(wire := c.wire[n..], buffer := rest)))
    case Disconnect => w.(connection := None)
  }

  function Run(f: Framing, w: World, actions: seq<Action>): World
    decreases |actions|
  {
    if actions == [] then w else Run(f, Next(f, w, actions[0]), actions[1..])
  }

  function Started(log: seq<Event>, after: nat): World {
    World(log, ClientState(after, [], false, false), None)
  }

  /** A lost connection takes all unread text with it, and the next one starts behind the last delivered event, with nothing buffered. */
  lemma ReconnectsFromPosition(f: Framing, w: World)
    requires !w.client.stopped
    ensures var w' := Next(f, Next(f, w, Disconnect), Connect);
      && w'.client == w.client.(broken := false) && w'.log == w.log
      && w'.connection == Some(Connection(w.client.position, true, None, "", ""))
  {
  }

  /** A client that has stopped or broken off is not connected. */
  predicate Disconnected(w: World) {
    w.client.stopped || w.client.broken ==> w.connection == None
  }

  lemma {:induction false} StoppedIsDisconnected(f: Framing, w: World, actions: seq<Action>)
    requires Disconnected(w)
    ensures Disconnected(Run(f, w, actions))
    decreases |actions|
  {
    if actions != [] {
      StoppedIsDisconnected(f, Next(f, w, actions[0]), actions[1..]);
    }
  }

  /** A client that a resync has stopped never connects or delivers again. */
  lemma {:induction false} StoppedForGood(f: Framing, w: World, actions: seq<Action>)
    requires w.client.stopped && Disconnected(w)
    ensures Run(f, w, actions).client == w.client && Run(f, w, actions).connection == None
    decreases |actions|
  {
    if actions != [] {
      StoppedForGood(f, Next(f, w, actions[0]), actions[1..]);
    }
  }

  // ---------------------------------------------------------------- gap-free logs

  lemma {:induction false} NewerOfGapFree(log: seq<Event>, cursor: nat)
    requires GapFree(log)
    ensures Newer(log, cursor) == if cursor <= |log| then log[cursor..] else []
    decreases |log|
  {
    if log != [] {
      var n := |log| - 1;
      var front := log[..n];
      assert log == front + [log[n]] && GapFree(front);
      NewerOfGapFree(front, cursor);
      assert cursor <= n ==> log[cursor..] == front[cursor..] + [log[n]];
    }
  }

  function Upto(cursor: nat, head: nat): (limit: nat)
    requires cursor <= head
    ensures cursor <= limit <= head
  {
    if head - cursor > PAGE then cursor + PAGE else head
  }

  /** Over a gap-free log a poll prints the next page, and asks for a resync exactly when the cursor is beyond the head. */
  lemma PollOfGapFree(log: seq<Event>, head: nat, cursor: nat)
    requires GapFree(log) && head <= |log|
    ensures Poll(log, head, cursor).open <==> cursor <= head
    ensures cursor <= head ==>
      var limit := Upto(cursor, |log|);
      Poll(log, head, cursor) == Polled(if limit == cursor then [Keepalive] else Chronicles(log[cursor..limit]), limit, true)
  {
    NewerOfGapFree(log, cursor);
    if cursor <= head {
      var limit := Upto(cursor, |log|);
      assert Page(log, cursor) == log[cursor..limit] by {
        if |log| - cursor > PAGE {
          assert log[cursor..][..PAGE] == log[cursor..limit];
        } else {
          assert log[cursor..] == log[cursor..limit];
        }
      }
    }
  }

  /** A field of an object, with its value. */
  predicate HasField(fields: seq<Member>, name: string, value: Json) {
    exists i :: 0 <= i < |fields| && fields[i] == Member(name, value)
  }

  /**
   * A poll that ends the stream prints one resync that says why, and leaves the cursor: a cursor ahead of the
   * head with both, or a gap behind the cursor with the position expected and the one found.
   */
  lemma ResyncTellsWhy(log: seq<Event>, head: nat, cursor: nat)
    requires !Poll(log, head, cursor).open
    ensures var p := Poll(log, head, cursor);
      && p.cursor == cursor && |p.items| == 1 && p.items[0].ResyncRequired?
      && var fields := p.items[0].reason;
         && HasField(fields, "status", Text("RESYNCING")) && HasField(fields, "received", Number(if cursor > head then cursor else Page(log, cursor)[0].position))
         && if cursor > head then HasField(fields, "reason", Text("cursor_ahead")) && HasField(fields, "expected_max", Number(head))
            else HasField(fields, "reason", Text("gap")) && HasField(fields, "expected", Number(cursor + 1))
  {
    var fields := Poll(log, head, cursor).items[0].reason;
    assert fields[0].name == "status" && fields[1].name == "reason" && fields[3].name == "received";
    assert fields[2] == if cursor > head then Member("expected_max", Number(head)) else Member("expected", Number(cursor + 1));
  }

  // ---------------------------------------------------------------- what every step keeps

  /** The events that printed items carry. */
  function EventsOf(items: seq<Item>): seq<Event> {
    if items == [] then []
    else
      var last := items[|items| - 1];
      EventsOf(items[..|items| - 1]) + if last.Chronicle? then [last.event] else []
  }

  ghost predicate NoResync(items: seq<Item>) {
    forall i :: 0 <= i < |items| ==> !items[i].ResyncRequired?
  }

  lemma {:induction false} EventsOfAppend(left: seq<Item>, right: seq<Item>)
    ensures EventsOf(left + right) == EventsOf(left) + EventsOf(right)
    decreases |right|
  {
    if right == [] {
      assert left + right == left;
    } else {
      var n := |right| - 1;
      EventsOfAppend(left, right[..n]);
      assert (left + right)[..|left| + n] == left + right[..n];
    }
  }

  lemma {:induction false} EventsOfChronicles(events: seq<Event>)
    ensures EventsOf(Chronicles(events)) == events
  {
    if events != [] {
      var n := |events| - 1;
      EventsOfChronicles(events[..n]);
      assert Chronicles(events)[..n] == Chronicles(events[..n]);
      assert Chronicles(events)[n] == Chronicle(events[n]);
      assert events == events[..n] + [events[n]];
    }
  }

  function SignalsOf(items: seq<Item>): (signals: seq<Signal>)
    ensures |signals| == |items| && forall i :: 0 <= i < |items| ==> signals[i] == SignalOf(items[i])
  {
    seq(|items|, i requires 0 <= i < |items| => SignalOf(items[i]))
  }

  lemma SignalsOfPrinted(f: Framing, items: seq<Item>)
    requires Faithful(f)
    ensures Signals(f, Texts(f, items)) == SignalsOf(items)
  {
    forall i | 0 <= i < |items| ensures Signals(f, Texts(f, items))[i] == SignalsOf(items)[i] {
    }
  }

  /** Delivering printed items appends their events and moves to the last of them. */
  lemma {:induction false} OnPrinted(c: ClientState, items: seq<Item>)
    requires !c.stopped && !c.broken && NoResync(items)
    ensures var events := EventsOf(items);
      OnSignals(c, SignalsOf(items)) ==
        c.(delivered := c.delivered + events, position := if events == [] then c.position else events[|events| - 1].position)
    decreases |items|
  {
    if items == [] {
      assert c.delivered + [] == c.delivered;
    } else {
      var n := |items| - 1;
      assert NoResync(items[..n]) && !items[n].ResyncRequired?;
      OnPrinted(c, items[..n]);
      assert SignalsOf(items)[..n] == SignalsOf(items[..n]);
      var before := EventsOf(items[..n]);
      if items[n].Chronicle? {
        assert c.delivered + (before + [items[n].event]) == c.delivered + before + [items[n].event];
      } else {
        assert before + [] == before;
      }
    }
  }

  /** The unconsumed text prints exactly the log between the client's position and the server's cursor. */
  ghost predicate Carries(f: Framing, text: string, log: seq<Event>, position: nat, cursor: nat) {
    position <= cursor <= |log| && exists items :: CarriedBy(f, items, text, log[position..cursor])
  }

  ghost predicate CarriedBy(f: Framing, items: seq<Item>, text: string, events: seq<Event>) {
    NoResync(items) && Print(f, items) == text && EventsOf(items) == events
  }

  ghost predicate Inv(f: Framing, w: World, after: nat) {
    && GapFree(w.log)
    && after <= w.client.position <= |w.log|
    && w.client.delivered == w.log[after..w.client.position]
    && !w.client.stopped && !w.client.broken
    && (w.connection.Some? ==>
        var c := w.connection.value;
        && c.open && (c.head.Some? ==> c.cursor <= c.head.value <= |w.log|)
        && Carries(f, c.buffer + c.wire, w.log, w.client.position, c.cursor))
  }

  lemma HeadOfGapFree(log: seq<Event>)
    requires GapFree(log)
    ensures Head(log) == |log|
  {
  }

  lemma AppendKeeps(f: Framing, w: World, after: nat, body: Body)
    requires Inv(f, w, after)
    ensures Inv(f, Next(f, w, Append(body)), after)
  {
    var w' := Next(f, w, Append(body));
    assert w'.log[after..w.client.position] == w.log[after..w.client.position];
    if w.connection.Some? {
      var c := w.connection.value;
      assert w'.log[w.client.position..c.cursor] == w.log[w.client.position..c.cursor];
    }
  }

  lemma ConnectKeeps(f: Framing, w: World, after: nat)
    requires Inv(f, w, after)
    ensures Inv(f, Next(f, w, Connect), after)
  {
    assert CarriedBy(f, [], "", w.log[w.client.position..w.client.position]);
    assert "" + "" == "";
    assert w.connection == None ==> Carries(f, "", w.log, w.client.position, w.client.position);
  }

  lemma CarriesMore(f: Framing, text: string, log: seq<Event>, position: nat, cursor: nat, items: seq<Item>, further: nat)
    requires Carries(f, text, log, position, cursor) && cursor <= further <= |log|
    requires NoResync(items) && EventsOf(items) == log[cursor..further]
    ensures Carries(f, text + Print(f, items), log, position, further)
  {
    var before :| CarriedBy(f, before, text, log[position..cursor]);
    var all := before + items;
    PrintAppends(f, before, items);
    EventsOfAppend(before, items);
    assert log[position..cursor] + log[cursor..further] == log[position..further];
    assert CarriedBy(f, all, text + Print(f, items), log[position..further]);
  }

  lemma PollCarries(log: seq<Event>, head: nat, cursor: nat)
    requires GapFree(log) && cursor <= head <= |log|
    ensures var p := Poll(log, head, cursor);
      p.open && cursor <= p.cursor <= |log| && NoResync(p.items) && EventsOf(p.items) == log[cursor..p.cursor]
  {
    PollOfGapFree(log, head, cursor);
    var p := Poll(log, head, cursor);
    if p.cursor == cursor {
      assert [Keepalive][..0] == [];
    } else {
      EventsOfChronicles(log[cursor..p.cursor]);
    }
  }

  /** Reading a page puts the printed next events of the log behind what is on the wire. */
  lemma ReadPageShape(f: Framing, w: World) returns (items: seq<Item>, further: nat)
    requires GapFree(w.log) && w.connection.Some?
    requires var c := w.connection.value; c.open && c.head.Some? && c.cursor <= c.head.value <= |w.log|
    ensures var c := w.connection.value;
      && c.cursor <= further <= |w.log| && NoResync(items) && EventsOf(items) == w.log[c.cursor..further]
      && Next(f, w, ReadPage) == w.(connection := Some(Connection(further, true, None, c.wire + Print(f, items), c.buffer)))
  {
    var c := w.connection.value;
    PollCarries(w.log, c.head.value, c.cursor);
    var p := Poll(w.log, c.head.value, c.cursor);
    items, further := p.items, p.cursor;
  }

  lemma ReadPageKeeps(f: Framing, w: World, after: nat)
    requires Inv(f, w, after)
    ensures Inv(f, Next(f, w, ReadPage), after)
  {
    if w.connection.Some? && w.connection.value.head.Some? {
      var c := w.connection.value;
      var items, further := ReadPageShape(f, w);
      CarriesMore(f, c.buffer + c.wire, w.log, w.client.position, c.cursor, items, further);
      assert c.buffer + c.wire + Print(f, items) == c.buffer + (c.wire + Print(f, items));
    }
  }

  lemma LastOfSlice(log: seq<Event>, position: nat, events: seq<Event>, rest: seq<Event>, cursor: nat)
    requires GapFree(log) && position <= cursor <= |log| && events + rest == log[position..cursor]
    ensures position + |events| <= cursor
    ensures events == log[position..position + |events|] && rest == log[position + |events|..cursor]
    ensures events != [] ==> events[|events| - 1].position == position + |events|
  {
    var whole := events + rest;
    assert events == whole[..|events|] && rest == whole[|events|..];
    assert forall i :: 0 <= i < |events| ==> events[i] == log[position + i];
  }

  lemma TakenAndLeft(f: Framing, 
    items: seq<Item>, done: seq<Item>, left: seq<Item>, text: string, log: seq<Event>, position: nat, cursor: nat)
    requires GapFree(log) && position <= cursor <= |log|
    requires CarriedBy(f, items, text, log[position..cursor]) && items == done + left
    ensures NoResync(done) && NoResync(left)
    ensures var further := position + |EventsOf(done)|;
      further <= cursor && EventsOf(done) == log[position..further] && EventsOf(left) == log[further..cursor]
      && (left == [] ==> further == cursor)
  {
    forall i | 0 <= i < |done| ensures !done[i].ResyncRequired? {
      assert items[i] == done[i];
    }
    forall i | 0 <= i < |left| ensures !left[i].ResyncRequired? {
      assert items[|done| + i] == left[i];
    }
    EventsOfAppend(done, left);
    LastOfSlice(log, position, EventsOf(done), EventsOf(left), cursor);
  }

  /** The complete frames of a prefix of the carried text print the next events of the log; the remaining text carries the others. */
  lemma TakePrefix(f: Framing, log: seq<Event>, position: nat, seen: string, unseen: string, cursor: nat) returns (done: seq<Item>)
    requires Faithful(f)
    requires GapFree(log) && Carries(f, seen + unseen, log, position, cursor)
    ensures NoResync(done) && Split(seen).0 == Texts(f, done)
    ensures var further := position + |EventsOf(done)|;
      && further <= cursor && EventsOf(done) == log[position..further]
      && Carries(f, Split(seen).1 + unseen, log, further, cursor)
      && (unseen == "" ==> further == cursor)
  {
    var items :| CarriedBy(f, items, seen + unseen, log[position..cursor]);
    var k := SplitOfPrinted(f, items, seen, unseen);
    done := items[..k];
    var left := items[k..];
    TakenAndLeft(f, items, done, left, seen + unseen, log, position, cursor);
    assert CarriedBy(f, left, Split(seen).1 + unseen, log[position + |EventsOf(done)|..cursor]);
  }

  lemma DeliverPrinted(f: Framing, client: ClientState, log: seq<Event>, after: nat, done: seq<Item>)
    requires Faithful(f)
    requires GapFree(log) && !client.stopped && !client.broken && NoResync(done)
    requires after <= client.position <= |log| && client.delivered == log[after..client.position]
    requires var further := client.position + |EventsOf(done)|;
      further <= |log| && EventsOf(done) == log[client.position..further]
    ensures var further := client.position + |EventsOf(done)|;
      OnFrames(f, client, Texts(f, done)) == ClientState(further, log[after..further], false, false)
  {
    var events := EventsOf(done);
    var further := client.position + |events|;
    SignalsOfPrinted(f, done);
    OnPrinted(client, done);
    assert log[after..client.position] + events == log[after..further];
    assert events != [] ==> events[|events| - 1] == log[further - 1];
  }

  /** Consuming any prefix of the carried text delivers the next events of the log; the remaining text carries the others. */
  lemma ConsumePrefix(f: Framing, client: ClientState, log: seq<Event>, after: nat, seen: string, unseen: string, cursor: nat)
    returns (further: nat)
    requires Faithful(f)
    requires GapFree(log) && !client.stopped && !client.broken
    requires after <= client.position <= |log| && client.delivered == log[after..client.position]
    requires Carries(f, seen + unseen, log, client.position, cursor)
    ensures client.position <= further <= cursor <= |log|
    ensures OnFrames(f, client, Split(seen).0) == ClientState(further, log[after..further], false, false)
    ensures Carries(f, Split(seen).1 + unseen, log, further, cursor)
    ensures unseen == "" ==> further == cursor
  {
    var done := TakePrefix(f, log, client.position, seen, unseen, cursor);
    DeliverPrinted(f, client, log, after, done);
    further := client.position + |EventsOf(done)|;
  }

  /** Receiving hands the complete frames of what was received to the client and keeps the rest. */
  lemma ReceiveSplits(f: Framing, w: World, count: nat) returns (seen: string, unseen: string)
    requires w.connection.Some? && w.connection.value.wire != ""
    ensures var c := w.connection.value;
      && seen + unseen == c.buffer + c.wire
      && var client := OnFrames(f, w.client, Split(seen).0);
         !client.stopped && !client.broken ==>
           Next(f, w, Receive(count)) == World(w.log, client, Some(c.(wire := unseen, buffer := Split(seen).1)))
  {
    var c := w.connection.value;
    var n := if count < |c.wire| then count else |c.wire|;
    seen, unseen := c.buffer + c.wire[..n], c.wire[n..];
  }

  lemma ReceiveKeeps(f: Framing, w: World, after: nat, count: nat)
    requires Faithful(f)
    requires Inv(f, w, after)
    ensures Inv(f, Next(f, w, Receive(count)), after)
  {
    if w.connection.Some? && w.connection.value.wire != "" {
      var seen, unseen := ReceiveSplits(f, w, count);
      var cursor := w.connection.value.cursor;
      var further := ConsumePrefix(f, w.client, w.log, after, seen, unseen, cursor);
    }
  }

  lemma NextKeeps(f: Framing, w: World, after: nat, a: Action)
    requires Faithful(f)
    requires Inv(f, w, after)
    ensures Inv(f, Next(f, w, a), after)
  {
    match a
    case Append(body) => AppendKeeps(f, w, after, body);
    case Connect => ConnectKeeps(f, w, after);
    case ReadHead => HeadOfGapFree(w.log);
    case ReadPage => ReadPageKeeps(f, w, after);
    case Receive(count) => ReceiveKeeps(f, w, after, count);
    case Disconnect =>
  }

  lemma {:induction false} RunKeeps(f: Framing, w: World, after: nat, actions: seq<Action>)
    requires Faithful(f)
    requires Inv(f, w, after)
    ensures Inv(f, Run(f, w, actions), after)
    decreases |actions|
  {
    if actions != [] {
      NextKeeps(f, w, after, actions[0]);
      RunKeeps(f, Next(f, w, actions[0]), after, actions[1..]);
    }
  }

  // ---------------------------------------------------------------- the guarantees

  /**
   * From a cursor the log has reached, under any appends, chunkings and disconnects, the client has
   * delivered exactly the events after it up to its position, in order, and was never told to resync.
   */
  lemma DeliversExactlyOnceInOrder(f: Framing, log: seq<Event>, after: nat, actions: seq<Action>)
    requires Faithful(f)
    requires GapFree(log) && after <= |log|
    ensures var w := Run(f, Started(log, after), actions);
      && after <= w.client.position <= |w.log|
      && w.client.delivered == w.log[after..w.client.position]
      && (forall i :: 0 <= i < |w.client.delivered| ==> w.client.delivered[i].position == after + i + 1)
      && !w.client.stopped && !w.client.broken
  {
    assert log[after..after] == [];
    RunKeeps(f, Started(log, after), after, actions);
  }

  lemma PageIsOnTheWire(f: Framing, w: World)
    requires w.connection == None && !w.client.stopped && !w.client.broken
    ensures var p := Poll(w.log, Head(w.log), w.client.position);
      Next(f, Next(f, Next(f, w, Connect), ReadHead), ReadPage)
        == w.(connection := Some(Connection(p.cursor, p.open, None, Print(f, p.items), "")))
  {
    var position := w.client.position;
    var connected := Next(f, w, Connect);
    assert connected == w.(connection := Some(Connection(position, true, None, "", "")));
    var headed := Next(f, connected, ReadHead);
    assert headed == w.(connection := Some(Connection(position, true, Some(Head(w.log)), "", "")));
    var text := Print(f, Poll(w.log, Head(w.log), position).items);
    assert "" + text == text;
  }

  lemma ReceiveAllOfIt(f: Framing, w: World)
    requires w.connection.Some? && w.connection.value.wire != "" && w.connection.value.buffer == ""
    ensures Next(f, w, Receive(|w.connection.value.wire|)).client == OnFrames(f, w.client, Split(w.connection.value.wire).0)
  {
    var wire := w.connection.value.wire;
    assert "" + wire[..|wire|] == wire;
  }

  /** An undisturbed connection makes progress: one page printed and received is one page delivered. */
  lemma UndisturbedPageIsDelivered(f: Framing, w: World, after: nat)
    requires Faithful(f)
    requires Inv(f, w, after) && w.connection == None
    ensures var text := Print(f, Poll(w.log, |w.log|, w.client.position).items);
      var w' := Next(f, Next(f, Next(f, Next(f, w, Connect), ReadHead), ReadPage), Receive(|text|));
      w'.client.position == Upto(w.client.position, |w.log|)
  {
    HeadOfGapFree(w.log);
    PageIsOnTheWire(f, w);
    var p := Poll(w.log, |w.log|, w.client.position);
    PollOfGapFree(w.log, |w.log|, w.client.position);
    PageTextCarries(f, w.log, w.client.position);
    ReceiveAllOfIt(f, Next(f, Next(f, Next(f, w, Connect), ReadHead), ReadPage));
    assert Print(f, p.items) + "" == Print(f, p.items);
    var further := ConsumePrefix(f, w.client, w.log, after, Print(f, p.items), "", p.cursor);
  }

  lemma PageTextCarries(f: Framing, log: seq<Event>, position: nat)
    requires GapFree(log) && position <= |log|
    ensures var p := Poll(log, |log|, position);
      Print(f, p.items) != "" && Carries(f, Print(f, p.items), log, position, p.cursor)
  {
    PollCarries(log, |log|, position);
    PollOfGapFree(log, |log|, position);
    var p := Poll(log, |log|, position);
    assert CarriedBy(f, p.items, Print(f, p.items), log[position..p.cursor]);
    assert Texts(f, p.items) != [];
  }

  /** The stream as the server prints it and the client reads it. */
  lemma LiveStreamDeliversExactlyOnceInOrder(log: seq<Event>, after: nat, actions: seq<Action>)
    requires GapFree(log) && after <= |log|
    ensures var w := Run(Live(), Started(log, after), actions);
      && after <= w.client.position <= |w.log|
      && w.client.delivered == w.log[after..w.client.position]
      && (forall i :: 0 <= i < |w.client.delivered| ==> w.client.delivered[i].position == after + i + 1)
      && !w.client.stopped && !w.client.broken
  {
    LiveIsFaithful();
    DeliversExactlyOnceInOrder(Live(), log, after, actions);
  }

  // ---------------------------------------------------------------- logs with gaps

  ghost predicate Increasing(log: seq<Event>) {
    forall i, j :: 0 <= i < j < |log| ==> log[i].position < log[j].position
  }

  ghost predicate HasEventAt(log: seq<Event>, position: nat) {
    exists i :: 0 <= i < |log| && log[i].position == position
  }

  ghost predicate HasEventBeyond(log: seq<Event>, cursor: nat) {
    exists i :: 0 <= i < |log| && log[i].position > cursor
  }

  /** The events beyond a cursor are a tail of the log. */
  lemma {:induction false} NewerIsTail(log: seq<Event>, cursor: nat) returns (k: nat)
    requires Increasing(log)
    ensures k <= |log| && Newer(log, cursor) == log[k..]
    ensures forall i :: 0 <= i < |log| ==> (log[i].position > cursor <==> k <= i)
    decreases |log|
  {
    if log == [] {
      return 0;
    }
    var n := |log| - 1;
    var front := log[..n];
    assert log == front + [log[n]];
    k := NewerIsTail(front, cursor);
    if log[n].position > cursor {
      assert log[k..] == front[k..] + [log[n]];
    } else {
      NoneNewer(log, cursor);
      k := |log|;
    }
  }

  lemma {:induction false} NoneNewer(log: seq<Event>, cursor: nat)
    requires Increasing(log) && log != [] && log[|log| - 1].position <= cursor
    ensures Newer(log, cursor) == [] && forall i :: 0 <= i < |log| ==> log[i].position <= cursor
    decreases |log|
  {
    var n := |log| - 1;
    if n > 0 {
      assert log[n - 1].position < log[n].position;
      NoneNewer(log[..n], cursor);
      assert forall i :: 0 <= i < n ==> log[..n][i] == log[i];
    } else {
      assert log[..n] == [];
    }
  }

  /**
   * Over every log with increasing positions and every cursor up to the head, a gap is noticed
   * exactly when it stands right behind a cursor other than zero.
   */
  lemma GapsAreNoticedOnlyAtTheCursor(log: seq<Event>, head: nat, cursor: nat)
    requires Increasing(log) && cursor <= head
    ensures !Poll(log, head, cursor).open
      <==> cursor > 0 && HasEventBeyond(log, cursor) && !HasEventAt(log, cursor + 1)
  {
    var k := NewerIsTail(log, cursor);
    if k < |log| {
      assert Page(log, cursor)[0] == log[k];
      if HasEventAt(log, cursor + 1) {
        var i :| 0 <= i < |log| && log[i].position == cursor + 1;
        assert log[k].position <= log[i].position;
      }
    }
  }

  /** The positions of a page climb by at least one from the cursor. */
  lemma {:induction false} PagePositionsClimb(log: seq<Event>, cursor: nat, k: nat, j: nat)
    requires Increasing(log) && k + j < |log| && log[k].position > cursor
    ensures log[k + j].position >= cursor + 1 + j
    decreases j
  {
    if j > 0 {
      PagePositionsClimb(log, cursor, k, j - 1);
      assert log[k + j - 1].position < log[k + j].position;
    }
  }

  /** If no position up to the last of a page is missing, the page is consecutive. */
  lemma {:induction false} FullPageIsConsecutive(log: seq<Event>, cursor: nat, k: nat, last: nat, j: nat)
    requires Increasing(log) && k + j <= last < |log|
    requires forall i :: 0 <= i < |log| ==> (log[i].position > cursor <==> k <= i)
    requires forall q: nat :: cursor < q <= log[last].position ==> HasEventAt(log, q)
    ensures log[k + j].position == cursor + 1 + j
    decreases j
  {
    PagePositionsClimb(log, cursor, k, j);
    var q := cursor + 1 + j;
    if j > 0 {
      FullPageIsConsecutive(log, cursor, k, last, j - 1);
      forall m | k <= m < k + j ensures log[m].position < q {
        assert log[m].position <= log[k + j - 1].position;
      }
    }
    assert log[k + j].position <= log[last].position;
    assert HasEventAt(log, q);
    var i :| 0 <= i < |log| && log[i].position == q;
    assert k + j <= i && log[k + j].position <= log[i].position;
  }

  /** How many positions a page moves on, against how many events it prints. */
  lemma PageShape(log: seq<Event>, head: nat, cursor: nat) returns (k: nat, n: nat)
    requires Increasing(log) && cursor <= head && Poll(log, head, cursor).open && HasEventBeyond(log, cursor)
    ensures 0 < n && k + n <= |log| && Poll(log, head, cursor) == Polled(Chronicles(log[k..k + n]), log[k + n - 1].position, true)
    ensures forall i :: 0 <= i < |log| ==> (log[i].position > cursor <==> k <= i)
  {
    k := NewerIsTail(log, cursor);
    n := |Page(log, cursor)|;
    assert Page(log, cursor) == log[k..k + n];
  }

  /** A page skips a missing position in silence exactly when its cursor moves on by more than the events it prints. */
  lemma SkippedInSilence(log: seq<Event>, head: nat, cursor: nat)
    requires Increasing(log) && cursor <= head && Poll(log, head, cursor).open && HasEventBeyond(log, cursor)
    ensures var p := Poll(log, head, cursor);
      (exists q: nat :: cursor < q <= p.cursor && !HasEventAt(log, q)) <==> p.cursor > cursor + |p.items|
  {
    var k, n := PageShape(log, head, cursor);
    var last := k + n - 1;
    if q: nat :| cursor < q <= log[last].position && !HasEventAt(log, q) {
      PagePositionsClimb(log, cursor, k, n - 1);
      if log[last].position == cursor + n {
        var j := q - cursor - 1;
        PagePositionsClimb(log, cursor, k, j);
        ClimbsToLast(log, k + j, last);
        assert false;
      }
    } else {
      FullPageIsConsecutive(log, cursor, k, last, n - 1);
    }
  }

  lemma {:induction false} ClimbsToLast(log: seq<Event>, i: nat, last: nat)
    requires Increasing(log) && i <= last < |log|
    ensures log[i].position + (last - i) <= log[last].position
    decreases last
  {
    if i < last {
      ClimbsToLast(log, i, last - 1);
    }
  }

  /** Only the first event of a page is checked: a gap inside a page is streamed silently, and noticed only if the stream resumes at it. */
  lemma GapInsidePageIsNotNoticed(first: Body, third: Body)
    ensures var log := [Event(1, first), Event(3, third)];
      && Poll(log, 3, 0) == Polled([Chronicle(log[0]), Chronicle(log[1])], 3, true)
      && Poll(log, 3, 1) == Polled([ResyncRequired(Describe(Gap(2, 3)))], 1, false)
  {
    var log := [Event(1, first), Event(3, third)];
    assert log[..1] == [log[0]] && log[..1][..0] == [];
    forall cursor: nat ensures Newer(log, cursor)
      == (if 1 > cursor then [log[0]] else []) + if 3 > cursor then [log[1]] else []
    {
      assert Newer([log[0]], cursor) == Newer([log[0]][..0], cursor) + if 1 > cursor then [log[0]] else [];
    }
    assert Newer(log, 0) == log && Newer(log, 1) == [log[1]];
    assert Chronicles(log) == [Chronicle(log[0]), Chronicle(log[1])];
  }
}
