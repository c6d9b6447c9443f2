/**
 * The text of the chronicle stream: frames ended by an empty line, as the server prints them and
 * as the client cuts them out of arbitrary chunks. The client reads the LF-only subset of the
 * event stream format (sections 9.2.5 and 9.2.6 of the WHATWG HTML Living Standard).
 */
module SseFraming {
  import opened Options
  import opened JsonText
  import Text

  // ---------------------------------------------------------------- cutting frames

  predicate IsBreak(text: string, i: nat) {
    i + 1 < |text| && text[i] == '\n' && text[i + 1] == '\n'
  }

  /** Where the first empty line begins. */
  function BreakAt(text: string): (at: Option<nat>)
    ensures at.Some? ==> at.value + 2 <= |text|
  {
    if |text| < 2 then None
    else if IsBreak(text, 0) then Some(0)
    else match BreakAt(text[1..])
      case None => None
      case Some(i) => Some(i + 1)
  }

  lemma {:induction false} BreakAtIsFirst(text: string, i: nat)
    requires forall k :: 0 <= k < i ==> !IsBreak(text, k)
    ensures IsBreak(text, i) ==> BreakAt(text) == Some(i)
    ensures i >= |text| ==> BreakAt(text) == None
    decreases |text|
  {
    if |text| >= 2 && i > 0 {
      assert !IsBreak(text, 0);
      forall k | 0 <= k < i - 1 ensures !IsBreak(text[1..], k) {
        assert !IsBreak(text, k + 1);
      }
      BreakAtIsFirst(text[1..], i - 1);
    }
  }

  lemma {:induction false} FirstIsBreakAt(text: string)
    ensures BreakAt(text).Some? ==>
      IsBreak(text, BreakAt(text).value) && forall k :: 0 <= k < BreakAt(text).value ==> !IsBreak(text, k)
    ensures BreakAt(text) == None ==> forall k: nat :: !IsBreak(text, k)
    decreases |text|
  {
    if |text| >= 2 && !IsBreak(text, 0) {
      FirstIsBreakAt(text[1..]);
      forall k: nat | IsBreak(text, k) ensures k > 0 && IsBreak(text[1..], k - 1) {
      }
    }
  }

  lemma BreakStays(text: string, more: string)
    requires BreakAt(text).Some?
    ensures BreakAt(text + more) == BreakAt(text)
  {
    var i := BreakAt(text).value;
    FirstIsBreakAt(text);
    forall k: nat | k <= i ensures IsBreak(text + more, k) <==> IsBreak(text, k) {
    }
    BreakAtIsFirst(text + more, i);
  }

  /** The complete frames, and the unfinished rest. */
  function Split(text: string): (seq<string>, string)
    decreases |text|
  {
    match BreakAt(text)
    case None => ([], text)
    case Some(i) => ([text[..i]] + Split(text[i + 2..]).0, Split(text[i + 2..]).1)
  }

  lemma SplitStep(text: string, i: nat)
    requires BreakAt(text) == Some(i)
    ensures Split(text).0 == [text[..i]] + Split(text[i + 2..]).0
    ensures Split(text).1 == Split(text[i + 2..]).1
  {
  }

  /** Cutting a text in two steps, with the unfinished rest carried over, is cutting it at once. */
  lemma {:induction false} SplitInTwo(text: string, more: string)
    ensures Split(text + more).0 == Split(text).0 + Split(Split(text).1 + more).0
    ensures Split(text + more).1 == Split(Split(text).1 + more).1
    decreases |text|
  {
    if BreakAt(text).Some? {
      var i := BreakAt(text).value;
      var tail := text[i + 2..];
      var frame := text[..i];
      SplitInTwo(tail, more);
      BreakStays(text, more);
      assert (text + more)[i + 2..] == tail + more && (text + more)[..i] == frame;
      SplitStep(text, i);
      SplitStep(text + more, i);
      FrameThenFrames(frame, Split(tail).0, Split(Split(tail).1 + more).0);
    } else {
      FrameThenFrames("", [], Split(text + more).0);
    }
  }

  lemma FrameThenFrames(frame: string, frames: seq<string>, more: seq<string>)
    ensures [frame] + (frames + more) == [frame] + frames + more
    ensures [] + more == more
  {
  }

  /** Texts with an empty line after each. */
  function PrintTexts(texts: seq<string>): string {
    if texts == [] then "" else texts[0] + "\n\n" + PrintTexts(texts[1..])
  }

  /** The empty line behind the frame is the first one: none begins inside the frame. */
  ghost predicate EndsAtFirstBreak(frame: string) {
    forall k: nat :: k < |frame| ==> !IsBreak(frame + "\n\n", k)
  }

  /** The frames with their empty lines and the rest make up the text, each frame ends at the first empty line, and the rest has none. */
  ghost predicate Cuts(text: string, frames: seq<string>, rest: string) {
    && PrintTexts(frames) + rest == text
    && (forall i :: 0 <= i < |frames| ==> EndsAtFirstBreak(frames[i]))
    && (forall k: nat :: !IsBreak(rest, k))
  }

  lemma FirstFrameEnds(text: string, i: nat)
    requires BreakAt(text) == Some(i)
    ensures EndsAtFirstBreak(text[..i]) && text == text[..i] + "\n\n" + text[i + 2..]
  {
    FirstIsBreakAt(text);
    var frame := text[..i];
    forall k: nat | k < i ensures !IsBreak(frame + "\n\n", k) {
      assert !IsBreak(text, k);
      assert (frame + "\n\n")[k] == text[k] && (frame + "\n\n")[k + 1] == text[k + 1];
    }
  }

  lemma CutOneMore(frame: string, tail: string, frames: seq<string>, rest: string)
    requires EndsAtFirstBreak(frame) && Cuts(tail, frames, rest)
    ensures Cuts(frame + "\n\n" + tail, [frame] + frames, rest)
  {
    assert ([frame] + frames)[1..] == frames;
    var ended, printed := frame + "\n\n", PrintTexts(frames);
    assert ended + printed + rest == ended + (printed + rest);
  }

  lemma {:induction false} SplitCuts(text: string)
    ensures Cuts(text, Split(text).0, Split(text).1)
    decreases |text|
  {
    if BreakAt(text).Some? {
      var i := BreakAt(text).value;
      FirstFrameEnds(text, i);
      SplitCuts(text[i + 2..]);
      SplitStep(text, i);
      CutOneMore(text[..i], text[i + 2..], Split(text[i + 2..]).0, Split(text[i + 2..]).1);
    } else {
      FirstIsBreakAt(text);
      assert "" + text == text;
    }
  }

  /** There is only one way to cut a text. */
  lemma {:induction false} CutsAreUnique(text: string, frames: seq<string>, rest: string)
    requires Cuts(text, frames, rest)
    ensures Split(text) == (frames, rest)
    decreases |frames|
  {
    if frames == [] {
      assert "" + rest == rest;
      BreakAtIsFirst(text, |text|);
    } else {
      var frame, later := frames[0], PrintTexts(frames[1..]) + rest;
      assert text == frame + "\n\n" + later;
      forall k: nat | k < |frame| ensures !IsBreak(text, k) {
        assert IsBreak(text, k) ==> IsBreak(frame + "\n\n", k);
      }
      assert IsBreak(text, |frame|);
      BreakAtIsFirst(text, |frame|);
      assert text[..|frame|] == frame && text[|frame| + 2..] == later;
      CutsAreUnique(later, frames[1..], rest);
      SplitStep(text, |frame|);
      assert frames == [frame] + frames[1..];
    }
  }

  function Joined(chunks: seq<string>): string {
    if chunks == [] then "" else Joined(chunks[..|chunks| - 1]) + chunks[|chunks| - 1]
  }

  /** The buffer of one connection. */
  class FrameBuffer {
    var buffer: string

    constructor ()
      ensures buffer == ""
    {
      buffer := "";
    }

    method Receive(chunk: string) returns (frames: seq<string>)
      modifies this
      ensures (frames, buffer) == Split(old(buffer) + chunk)
      ensures Cuts(old(buffer) + chunk, frames, buffer)
    {
      SplitCuts(buffer + chunk);
      var pieces := Split(buffer + chunk);
      frames, buffer := pieces.0, pieces.1;
    }
  }

  /** However a text is divided into chunks, the frames and the rest are those of the whole text. */
  method ReceiveAll(chunks: seq<string>) returns (frames: seq<string>, rest: string)
    ensures (frames, rest) == Split(Joined(chunks))
    ensures Cuts(Joined(chunks), frames, rest)
  {
    var parser := new FrameBuffer();
    frames := [];
    for i := 0 to |chunks|
      invariant (frames, parser.buffer) == Split(Joined(chunks[..i]))
      invariant fresh(parser)
    {
      SplitInTwo(Joined(chunks[..i]), chunks[i]);
      assert chunks[..i + 1][..i] == chunks[..i];
      var more := parser.Receive(chunks[i]);
      frames := frames + more;
    }
    assert chunks[..|chunks|] == chunks;
    rest := parser.buffer;
    SplitCuts(Joined(chunks));
  }

  // ---------------------------------------------------------------- the lines of a frame

  function LinesOf(frame: string, pending: string): seq<string> {
    if frame == "" then [pending]
    else if frame[0] == '\n' then [pending] + LinesOf(frame[1..], "")
    else LinesOf(frame[1..], pending + [frame[0]])
  }

  function JoinLines(lines: seq<string>): string
    requires lines != []
  {
    if |lines| == 1 then lines[0] else lines[0] + "\n" + JoinLines(lines[1..])
  }

  /** Lines that can stand in a frame. */
  predicate FrameLines(lines: seq<string>) {
    lines != [] && forall i :: 0 <= i < |lines| ==> lines[i] != "" && '\n' !in lines[i]
  }

  lemma {:induction false} LinesOfPrefix(line: string, rest: string, pending: string)
    requires '\n' !in line
    ensures LinesOf(line + rest, pending) == LinesOf(rest, pending + line)
    decreases |line|
  {
    if line == "" {
      assert line + rest == rest && pending + line == pending;
    } else {
      assert (line + rest)[1..] == line[1..] + rest;
      assert pending + [line[0]] + line[1..] == pending + line;
      LinesOfPrefix(line[1..], rest, pending + [line[0]]);
    }
  }

  lemma {:induction false} LinesOfJoined(lines: seq<string>)
    requires FrameLines(lines)
    ensures LinesOf(JoinLines(lines), "") == lines
  {
    var line := lines[0];
    assert "" + line == line;
    if |lines| == 1 {
      LinesOfPrefix(line, "", "");
      assert line + "" == line;
    } else {
      var rest := JoinLines(lines[1..]);
      assert FrameLines(lines[1..]);
      LinesOfJoined(lines[1..]);
      LinesOfPrefix(line, "\n" + rest, "");
      assert line + "\n" + rest == line + ("\n" + rest);
      assert ("\n" + rest)[1..] == rest;
      assert [line] + lines[1..] == lines;
    }
  }

  /** A frame of such lines has no empty line inside and does not end in a line break. */
  lemma {:induction false} JoinedHasNoBreak(lines: seq<string>)
    requires FrameLines(lines)
    ensures var frame := JoinLines(lines);
      && frame != "" && frame[0] == lines[0][0] && frame[|frame| - 1] != '\n'
      && forall k: nat :: !IsBreak(frame, k)
  {
    if |lines| > 1 {
      assert FrameLines(lines[1..]);
      JoinedHasNoBreak(lines[1..]);
      var line, rest := lines[0], JoinLines(lines[1..]);
      var frame := line + "\n" + rest;
      assert rest[0] == lines[1][0] != '\n';
      forall k: nat ensures !IsBreak(frame, k) {
        if k < |line| {
          assert frame[k] == line[k];
        } else if k > |line| {
          assert !IsBreak(rest, k - |line| - 1);
        }
      }
    }
  }

  // ---------------------------------------------------------------- reading one frame

  const EVENT := "event:"
  const DATA := "data:"

  datatype Fields = Fields(eventType: string, data: string)

  function ReadLine(line: string, f: Fields): Fields {
    var g := if EVENT <= line then f.(eventType := Text.Trim(line[|EVENT|..], Text.IsJsSpace)) else f;
    if DATA <= line then g.(data := g.data + Text.Trim(line[|DATA|..], Text.IsJsSpace)) else g
  }

  function ReadLines(lines: seq<string>): Fields {
    if lines == [] then Fields("message", "")
    else ReadLine(lines[|lines| - 1], ReadLines(lines[..|lines| - 1]))
  }

  method ReadFrame(frame: string) returns (eventType: string, data: string)
    ensures Fields(eventType, data) == ReadLines(LinesOf(frame, ""))
  {
    eventType, data := "message", "";
    var lines := LinesOf(frame, "");
    for i := 0 to |lines|
      invariant Fields(eventType, data) == ReadLines(lines[..i])
    {
      assert lines[..i + 1][..i] == lines[..i];
      if EVENT <= lines[i] {
        eventType := Text.Trim(lines[i][|EVENT|..], Text.IsJsSpace);
      }
      if DATA <= lines[i] {
        data := data + Text.Trim(lines[i][|DATA|..], Text.IsJsSpace);
      }
    }
    assert lines[..|lines|] == lines;
  }

  /** What one frame makes the client do. */
  datatype Signal = Skip | Resync | Deliver(event: Event) | Broken

  const RESYNC_TYPE := "resync_required"
  const CHRONICLE_TYPE := "chronicle"

  function SignalOfFields(f: Fields): Signal {
    if f.data == "" then Skip
    else if f.eventType == RESYNC_TYPE then Resync
    else if f.eventType == CHRONICLE_TYPE then
      match Decode(f.data) case Some(e) => Deliver(e) case None => Broken
    else Skip
  }

  function Interpret(frame: string): Signal {
    if frame == "" || frame[0] == ':' then Skip else SignalOfFields(ReadLines(LinesOf(frame, "")))
  }

  /**
   * Comments and frames without data are skipped, and so is any other type than the two that are known; a
   * resync needs no readable data, and a chronicle frame delivers exactly the event that its data is.
   */
  lemma FramesSignalExactly(frame: string)
    ensures var f, signal := ReadLines(LinesOf(frame, "")), Interpret(frame);
      var heard := frame != "" && frame[0] != ':' && f.data != "";
      && (signal == Resync <==> heard && f.eventType == "resync_required")
      && (signal.Deliver? <==> heard && f.eventType == "chronicle" && Decode(f.data).Some?)
      && (signal.Deliver? ==> Decode(f.data) == Some(signal.event))
      && (signal == Broken <==> heard && f.eventType == "chronicle" && Decode(f.data) == None)
  {
    assert "resync_required"[0] != "chronicle"[0];
  }

  // ---------------------------------------------------------------- what the server prints

  datatype Item = Chronicle(event: Event) | Keepalive | ResyncRequired(reason: seq<Member>)

  function IdLine(e: Event): string {
    "id: " + Decimal(e.position)
  }

  function TypeLine(kind: string): string {
    EVENT + " " + kind
  }

  function DataLine(data: string): string {
    DATA + " " + data
  }

  function FrameLinesOf(item: Item): seq<string> {
    match item
    case Chronicle(e) => [IdLine(e), TypeLine(CHRONICLE_TYPE), DataLine(Encode(e))]
    case Keepalive => [": keepalive"]
    case ResyncRequired(reason) => [TypeLine(RESYNC_TYPE), DataLine(Write(Object(reason)))]
  }

  function FrameText(item: Item): string {
    JoinLines(FrameLinesOf(item))
  }

  function SignalOf(item: Item): Signal {
    match item
    case Chronicle(e) => Deliver(e)
    case Keepalive => Skip
    case ResyncRequired(_) => Resync
  }

  // ---------------------------------------------------------------- printed frames read back

  /** Nothing to trim at either end. */
  predicate Tight(text: string) {
    text != "" && !Text.IsJsSpace(text[0]) && !Text.IsJsSpace(text[|text| - 1])
  }

  lemma TrimKeepsTight(text: string)
    requires Tight(text)
    ensures Text.Trim(" " + text, Text.IsJsSpace) == text
  {
    assert (" " + text)[1..] == text;
    assert Text.TrimStart(text, Text.IsJsSpace) == text;
  }

  lemma TypeLineReadsBack(kind: string, f: Fields)
    requires Tight(kind)
    ensures ReadLine(TypeLine(kind), f) == f.(eventType := kind)
  {
    var line := TypeLine(kind);
    assert line[0] == 'e' && DATA[0] == 'd';
    assert EVENT <= line && line[|EVENT|..] == " " + kind;
    TrimKeepsTight(kind);
  }

  lemma DataLineReadsBack(data: string, f: Fields)
    requires Tight(data)
    ensures ReadLine(DataLine(data), f) == f.(data := f.data + data)
  {
    var line := DataLine(data);
    assert line[0] == 'd' && EVENT[0] == 'e';
    assert DATA <= line && line[|DATA|..] == " " + data;
    TrimKeepsTight(data);
  }

  lemma IdLineIsIgnored(e: Event, f: Fields)
    ensures ReadLine(IdLine(e), f) == f
  {
    assert IdLine(e)[0] == 'i' && EVENT[0] == 'e' && DATA[0] == 'd';
  }

  lemma ReadTwoLines(kind: string, data: string, before: seq<string>)
    requires Tight(kind) && Tight(data) && ReadLines(before) == Fields("message", "")
    ensures ReadLines(before + [TypeLine(kind), DataLine(data)]) == Fields(kind, data)
  {
    var lines := before + [TypeLine(kind), DataLine(data)];
    var n := |before|;
    assert lines[..n + 1][..n] == before && lines[..n + 1][n] == TypeLine(kind);
    TypeLineReadsBack(kind, ReadLines(before));
    assert ReadLines(lines[..n + 1]) == Fields(kind, "");
    DataLineReadsBack(data, Fields(kind, ""));
    assert "" + data == data;
    assert lines[|lines| - 1] == DataLine(data) && lines[..|lines| - 1] == lines[..n + 1];
  }

  lemma ChronicleFrameLines(e: Event)
    ensures FrameLines([IdLine(e), TypeLine(CHRONICLE_TYPE), DataLine(Encode(e))])
  {
    EncodedIsOneLine(e);
    assert '\n' !in IdLine(e);
    assert '\n' !in DataLine(Encode(e));
  }

  lemma ResyncFrameLines(reason: seq<Member>)
    ensures FrameLines([TypeLine(RESYNC_TYPE), DataLine(Write(Object(reason)))])
  {
    WrittenIsPrintable(Object(reason));
    assert '\n' !in DataLine(Write(Object(reason)));
  }

  lemma PrintedLinesAreFrameLines(item: Item)
    ensures FrameLines(FrameLinesOf(item))
  {
    match item
    case Keepalive =>
    case ResyncRequired(reason) => ResyncFrameLines(reason);
    case Chronicle(e) => ChronicleFrameLines(e);
  }

  lemma ChronicleLinesReadBack(e: Event)
    ensures SignalOfFields(ReadLines(FrameLinesOf(Chronicle(e)))) == Deliver(e)
  {
    EncodedIsOneLine(e);
    DecodeEncode(e);
    IdLineIsIgnored(e, Fields("message", ""));
    assert [IdLine(e)][..0] == [];
    assert Tight(CHRONICLE_TYPE);
    ReadTwoLines(CHRONICLE_TYPE, Encode(e), [IdLine(e)]);
    assert FrameLinesOf(Chronicle(e)) == [IdLine(e)] + [TypeLine(CHRONICLE_TYPE), DataLine(Encode(e))];
    assert CHRONICLE_TYPE[0] != RESYNC_TYPE[0];
  }

  lemma ResyncLinesReadBack(reason: seq<Member>)
    ensures SignalOfFields(ReadLines(FrameLinesOf(ResyncRequired(reason)))) == Resync
  {
    var data := Write(Object(reason));
    assert Tight(RESYNC_TYPE) && Tight(data);
    ReadTwoLines(RESYNC_TYPE, data, []);
    assert FrameLinesOf(ResyncRequired(reason)) == [] + [TypeLine(RESYNC_TYPE), DataLine(data)];
  }

  /** Every printed frame is read as what it was printed for. */
  lemma InterpretPrinted(item: Item)
    ensures Interpret(FrameText(item)) == SignalOf(item)
  {
    PrintedLinesAreFrameLines(item);
    LinesOfJoined(FrameLinesOf(item));
    JoinedHasNoBreak(FrameLinesOf(item));
    match item
    case Keepalive =>
    case ResyncRequired(reason) => ResyncLinesReadBack(reason);
    case Chronicle(e) => ChronicleLinesReadBack(e);
  }

  // ---------------------------------------------------------------- printed streams read back

  /** A text that is one whole frame: no empty line in it, nor one begun at its end. */
  ghost predicate IsFrame(text: string) {
    text != "" && text[|text| - 1] != '\n' && forall k: nat :: !IsBreak(text, k)
  }

  ghost predicate AllFrames(texts: seq<string>) {
    forall i :: 0 <= i < |texts| ==> IsFrame(texts[i])
  }

  /** The first frame of a printed text is cut off whole. */
  lemma CutFirst(frame: string, rest: string)
    requires IsFrame(frame)
    ensures var text := frame + "\n\n" + rest;
      BreakAt(text) == Some(|frame|) && text[..|frame|] == frame && text[|frame| + 2..] == rest
  {
    var text := frame + "\n\n" + rest;
    forall k: nat | k < |frame| ensures !IsBreak(text, k) {
      assert !IsBreak(frame, k);
    }
    assert IsBreak(text, |frame|);
    BreakAtIsFirst(text, |frame|);
  }

  /** Less than the first frame with its empty line contains no empty line. */
  lemma NothingToCut(frame: string, rest: string, seen: string)
    requires IsFrame(frame) && seen <= frame + "\n\n" + rest && |seen| < |frame| + 2
    ensures BreakAt(seen) == None
  {
    var whole := frame + "\n\n" + rest;
    var unseen := whole[|seen|..];
    assert seen + unseen == whole;
    CutFirst(frame, rest);
    if BreakAt(seen).Some? {
      BreakStays(seen, unseen);
      assert false;
    }
  }

  lemma PrintedPrefix(texts: seq<string>, seen: string, unseen: string) returns (later: string)
    requires texts != [] && seen + unseen == PrintTexts(texts) && |seen| >= |texts[0]| + 2
    ensures seen == texts[0] + "\n\n" + later && later + unseen == PrintTexts(texts[1..])
  {
    var n, rest := |texts[0]| + 2, PrintTexts(texts[1..]);
    var head := texts[0] + "\n\n";
    assert PrintTexts(texts) == head + rest;
    later := seen[n..];
    assert seen == (head + rest)[..|seen|];
    assert seen[..n] == head;
    assert seen == head + later;
    assert (head + (later + unseen))[n..] == later + unseen;
  }

  /**
   * Cutting any prefix of a printed text yields exactly the frames that are complete in it, and
   * the rest together with what is still to come is again a printed text.
   */
  lemma {:induction false} SplitOfTexts(texts: seq<string>, seen: string, unseen: string) returns (k: nat)
    requires AllFrames(texts) && seen + unseen == PrintTexts(texts)
    ensures k <= |texts|
    ensures Split(seen).0 == texts[..k]
    ensures Split(seen).1 + unseen == PrintTexts(texts[k..])
    ensures unseen == "" ==> k == |texts| && Split(seen).1 == ""
    decreases |texts|
  {
    k := 0;
    if texts == [] {
      assert seen == "" && unseen == "";
    } else if |seen| >= |texts[0]| + 2 {
      var later := PrintedPrefix(texts, seen, unseen);
      var rest := SplitOfTexts(texts[1..], later, unseen);
      k := rest + 1;
      CutOneText(texts[0], later);
      assert texts[k..] == texts[1..][rest..] && texts[..k] == [texts[0]] + texts[1..][..rest];
    } else {
      assert seen <= PrintTexts(texts);
      NothingToCut(texts[0], PrintTexts(texts[1..]), seen);
      assert texts[0..] == texts && texts[..0] == [];
    }
  }

  lemma CutOneText(frame: string, later: string)
    requires IsFrame(frame)
    ensures Split(frame + "\n\n" + later).0 == [frame] + Split(later).0
    ensures Split(frame + "\n\n" + later).1 == Split(later).1
  {
    CutFirst(frame, later);
    SplitStep(frame + "\n\n" + later, |frame|);
  }

  // ---------------------------------------------------------------- framings

  /** How items are printed as frames, and what a frame makes the client do. */
  datatype Framing = Framing(frame: Item -> string, read: string -> Signal)

  /** Every printed item is one whole frame that is read as what it was printed for. */
  ghost predicate Faithful(f: Framing) {
    forall item :: IsFrame(f.frame(item)) && f.read(f.frame(item)) == SignalOf(item)
  }

  /** The framing of the server and the client. */
  function Live(): Framing {
    Framing(FrameText, Interpret)
  }

  lemma LiveIsFaithful()
    ensures Faithful(Live())
  {
    forall item ensures IsFrame(FrameText(item)) && Interpret(FrameText(item)) == SignalOf(item) {
      PrintedLinesAreFrameLines(item);
      JoinedHasNoBreak(FrameLinesOf(item));
      InterpretPrinted(item);
    }
  }

  function Texts(f: Framing, items: seq<Item>): seq<string> {
    seq(|items|, i requires 0 <= i < |items| => f.frame(items[i]))
  }

  function Print(f: Framing, items: seq<Item>): string {
    PrintTexts(Texts(f, items))
  }

  lemma SplitOfPrinted(f: Framing, items: seq<Item>, seen: string, unseen: string) returns (k: nat)
    requires Faithful(f) && seen + unseen == Print(f, items)
    ensures k <= |items|
    ensures Split(seen).0 == Texts(f, items[..k])
    ensures Split(seen).1 + unseen == Print(f, items[k..])
    ensures unseen == "" ==> k == |items| && Split(seen).1 == ""
  {
    k := SplitOfTexts(Texts(f, items), seen, unseen);
    assert Texts(f, items)[..k] == Texts(f, items[..k]);
    assert Texts(f, items)[k..] == Texts(f, items[k..]);
  }

  /** Reading back all that was printed, in any chunks, gives one signal for each printed item, in order. */
  lemma PrintedReadsBack(f: Framing, items: seq<Item>, chunks: seq<string>)
    requires Faithful(f) && Joined(chunks) == Print(f, items)
    ensures var (frames, rest) := Split(Joined(chunks));
      && rest == "" && |frames| == |items|
      && forall i :: 0 <= i < |items| ==> f.read(frames[i]) == SignalOf(items[i])
  {
    var text := Joined(chunks);
    assert text + "" == text;
    var k := SplitOfPrinted(f, items, text, "");
    assert items[..k] == items;
    assert Split(text).0 == Texts(f, items);
  }
}
