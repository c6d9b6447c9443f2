/**
 * The JSON text of a chronicle event as it travels in one data line: compact separators, strings
 * escaped the way `json.dumps(..., ensure_ascii=False)` does, and the reading of that text back.
 * Numbers are integers.
 */
module JsonText {
  import opened Options

  // ---------------------------------------------------------------- decimal numbers

  predicate IsDigit(c: char) {
    '0' <= c <= '9'
  }

  function DigitChar(d: nat): (c: char)
    requires d < 10
    ensures IsDigit(c)
  {
    '0' + d as char
  }

  function DigitValue(c: char): (d: nat)
    requires IsDigit(c)
    ensures d < 10
  {
    (c - '0') as nat
  }

  function Decimal(n: nat): (text: string)
    ensures text != "" && forall i :: 0 <= i < |text| ==> IsDigit(text[i])
  {
    if n < 10 then [DigitChar(n)] else Decimal(n / 10) + [DigitChar(n % 10)]
  }

  /** Reads digits onto `value`; what follows the digits is returned. */
  function ReadDigits(text: string, value: nat): (r: (nat, string))
    ensures |r.1| <= |text|
  {
    if text != "" && IsDigit(text[0]) then ReadDigits(text[1..], 10 * value + DigitValue(text[0])) else (value, text)
  }

  lemma {:induction false} DigitsReadBack(n: nat, rest: string)
    ensures ReadDigits(Decimal(n) + rest, 0) == ReadDigits(rest, n)
  {
    if n < 10 {
      assert (Decimal(n) + rest)[1..] == rest;
    } else {
      var last := DigitChar(n % 10);
      assert Decimal(n) + rest == Decimal(n / 10) + ([last] + rest);
      DigitsReadBack(n / 10, [last] + rest);
      assert ([last] + rest)[1..] == rest;
    }
  }

  // ---------------------------------------------------------------- strings

  function HexChar(d: nat): char
    requires d < 16
  {
    if d < 10 then '0' + d as char else 'a' + (d - 10) as char
  }

  function HexValue(c: char): Option<nat> {
    if '0' <= c <= '9' then Some((c - '0') as nat)
    else if 'a' <= c <= 'f' then Some(10 + (c - 'a') as nat)
    else if 'A' <= c <= 'F' then Some(10 + (c - 'A') as nat)
    else None
  }

  function EscapeChar(c: char): (text: string)
    ensures text != "" && forall i :: 0 <= i < |text| ==> text[i] >= ' '
  {
    if c == '"' then "\\\""
    else if c == '\\' then "\\\\"
    else if c == '\n' then "\\n"
    else if c == '\r' then "\\r"
    else if c == '\t' then "\\t"
    else if c == '\U{8}' then "\\b"
    else if c == '\U{C}' then "\\f"
    else if c < ' ' then "\\u00" + [HexChar(c as nat / 16), HexChar(c as nat % 16)]
    else [c]
  }

  function Escape(text: string): (escaped: string)
    ensures forall i :: 0 <= i < |escaped| ==> escaped[i] >= ' '
  {
    if text == "" then "" else EscapeChar(text[0]) + Escape(text[1..])
  }

  /** One character of a string literal, and what follows it; escapes of surrogates are not read. */
  function ReadChar(text: string): (r: Option<(char, string)>)
    ensures r.Some? ==> |r.value.1| < |text|
  {
    if text == "" || text[0] < ' ' then None
    else if text[0] != '\\' then Some((text[0], text[1..]))
    else if |text| < 2 then None
    else if text[1] == 'u' then ReadHexEscape(text)
    else if text[1] in {'"', '\\', '/'} then Some((text[1], text[2..]))
    else if text[1] == 'n' then Some(('\n', text[2..]))
    else if text[1] == 'r' then Some(('\r', text[2..]))
    else if text[1] == 't' then Some(('\t', text[2..]))
    else if text[1] == 'b' then Some(('\U{8}', text[2..]))
    else if text[1] == 'f' then Some(('\U{C}', text[2..]))
    else None
  }

  function ReadHexEscape(text: string): (r: Option<(char, string)>)
    ensures r.Some? ==> |r.value.1| < |text|
  {
    if |text| < 6 then None
    else match (HexValue(text[2]), HexValue(text[3]), HexValue(text[4]), HexValue(text[5]))
      case (Some(a), Some(b), Some(c), Some(d)) =>
        var code := a * 4096 + b * 256 + c * 16 + d;
        if code < 0xD800 then Some((code as char, text[6..])) else None
      case _ => None
  }

  /** The rest of a string literal up to its closing quotation mark. */
  function ReadString(text: string): (r: Option<(string, string)>)
    ensures r.Some? ==> |r.value.1| < |text|
    decreases |text|
  {
    if text != "" && text[0] == '"' then Some(("", text[1..]))
    else match ReadChar(text)
      case None => None
      case Some((c, rest)) =>
        match ReadString(rest)
        case None => None
        case Some((tail, after)) => Some(([c] + tail, after))
  }

  lemma CharReadsBack(c: char, rest: string)
    ensures ReadChar(EscapeChar(c) + rest) == Some((c, rest))
    ensures EscapeChar(c)[0] != '"'
  {
    var text := EscapeChar(c) + rest;
    assert text[|EscapeChar(c)|..] == rest;
    if c < ' ' && |EscapeChar(c)| == 6 {
      assert text[2] == '0' && text[3] == '0';
      assert c as nat == c as nat / 16 * 16 + c as nat % 16;
    }
  }

  lemma {:induction false} StringReadsBack(text: string, rest: string)
    ensures ReadString(Escape(text) + "\"" + rest) == Some((text, rest))
  {
    if text == "" {
      assert Escape(text) + "\"" + rest == "\"" + rest;
    } else {
      var more := Escape(text[1..]) + "\"" + rest;
      assert Escape(text) + "\"" + rest == EscapeChar(text[0]) + more;
      CharReadsBack(text[0], more);
      assert (EscapeChar(text[0]) + more)[0] == EscapeChar(text[0])[0];
      assert [text[0]] + text[1..] == text;
      StringReadsBack(text[1..], rest);
    }
  }

  // ---------------------------------------------------------------- values

  datatype Json =
    | Null
    | Boolean(value: bool)
    | Number(n: int)
    | Text(text: string)
    | List(items: seq<Json>)
    | Object(members: seq<Member>)

  datatype Member = Member(name: string, value: Json)

  function WriteNumber(n: int): string {
    if n < 0 then "-" + Decimal(-n) else Decimal(n)
  }

  function Quoted(text: string): string {
    "\"" + Escape(text) + "\""
  }

  function Write(v: Json): string
    decreases v
  {
    match v
    case Null => "null"
    case Boolean(value) => if value then "true" else "false"
    case Number(n) => WriteNumber(n)
    case Text(text) => Quoted(text)
    case List(items) => "[" + WriteItems(items) + "]"
    case Object(members) => "{" + WriteMembers(members) + "}"
  }

  function WriteItems(items: seq<Json>): string
    decreases items
  {
    if items == [] then ""
    else if |items| == 1 then Write(items[0])
    else Write(items[0]) + "," + WriteItems(items[1..])
  }

  function WriteMember(m: Member): string
    decreases m
  {
    Quoted(m.name) + ":" + Write(m.value)
  }

  function WriteMembers(members: seq<Member>): string
    decreases members
  {
    if members == [] then ""
    else if |members| == 1 then WriteMember(members[0])
    else WriteMember(members[0]) + "," + WriteMembers(members[1..])
  }

  /** One value, and what follows it. */
  function ReadValue(text: string): (r: Option<(Json, string)>)
    ensures r.Some? ==> |r.value.1| < |text|
    decreases |text|, 1
  {
    if text == "" then None
    else if "null" <= text then Some((Null, text[4..]))
    else if "true" <= text then Some((Boolean(true), text[4..]))
    else if "false" <= text then Some((Boolean(false), text[5..]))
    else if text[0] == '"' then
      match ReadString(text[1..]) case None => None case Some((s, rest)) => Some((Text(s), rest))
    else if text[0] == '[' then ReadList(text[1..])
    else if text[0] == '{' then ReadObject(text[1..])
    else ReadNumber(text)
  }

  function ReadNumber(text: string): (r: Option<(Json, string)>)
    ensures r.Some? ==> |r.value.1| < |text|
  {
    if text != "" && IsDigit(text[0]) then
      var (n, rest) := ReadDigits(text[1..], DigitValue(text[0]));
      Some((Number(n), rest))
    else if |text| >= 2 && text[0] == '-' && IsDigit(text[1]) then
      var (n, rest) := ReadDigits(text[2..], DigitValue(text[1]));
      Some((Number(-(n as int)), rest))
    else None
  }

  function ReadList(text: string): (r: Option<(Json, string)>)
    ensures r.Some? ==> |r.value.1| < |text|
    decreases |text|, 3
  {
    if text != "" && text[0] == ']' then Some((List([]), text[1..]))
    else match ReadItems(text) case None => None case Some((items, rest)) => Some((List(items), rest))
  }

  /** The items of a list that is not empty, up to its closing bracket. */
  function ReadItems(text: string): (r: Option<(seq<Json>, string)>)
    ensures r.Some? ==> |r.value.1| < |text|
    decreases |text|, 2
  {
    match ReadValue(text)
    case None => None
    case Some((first, rest)) => ItemsAfter(first, rest)
  }

  function ItemsAfter(first: Json, rest: string): (r: Option<(seq<Json>, string)>)
    ensures r.Some? ==> |r.value.1| < |rest|
    decreases |rest|, 3
  {
    if rest != "" && rest[0] == ']' then Some(([first], rest[1..]))
    else if rest != "" && rest[0] == ',' then
      match ReadItems(rest[1..]) case None => None case Some((items, after)) => Some(([first] + items, after))
    else None
  }

  function ReadObject(text: string): (r: Option<(Json, string)>)
    ensures r.Some? ==> |r.value.1| < |text|
    decreases |text|, 3
  {
    if text != "" && text[0] == '}' then Some((Object([]), text[1..]))
    else match ReadMembers(text) case None => None case Some((members, rest)) => Some((Object(members), rest))
  }

  function ReadMember(text: string): (r: Option<(Member, string)>)
    ensures r.Some? ==> |r.value.1| < |text|
    decreases |text|, 0
  {
    if text == "" || text[0] != '"' then None
    else match ReadString(text[1..])
      case None => None
      case Some((name, rest)) =>
        if rest == "" || rest[0] != ':' then None
        else match ReadValue(rest[1..]) case None => None case Some((value, after)) => Some((Member(name, value), after))
  }

  function ReadMembers(text: string): (r: Option<(seq<Member>, string)>)
    ensures r.Some? ==> |r.value.1| < |text|
    decreases |text|, 2
  {
    match ReadMember(text)
    case None => None
    case Some((first, rest)) => MembersAfter(first, rest)
  }

  function MembersAfter(first: Member, rest: string): (r: Option<(seq<Member>, string)>)
    ensures r.Some? ==> |r.value.1| < |rest|
    decreases |rest|, 3
  {
    if rest != "" && rest[0] == '}' then Some(([first], rest[1..]))
    else if rest != "" && rest[0] == ',' then
      match ReadMembers(rest[1..]) case None => None case Some((members, after)) => Some(([first] + members, after))
    else None
  }

  // ---------------------------------------------------------------- values read back

  /** What follows does not continue a number. */
  predicate Stops(rest: string) {
    rest == "" || !IsDigit(rest[0])
  }

  lemma Regrouped(a: string, b: string, c: string)
    ensures a + b + c == a + (b + c)
  {
  }

  lemma DigitsStart(m: nat, rest: string)
    requires Stops(rest)
    ensures var text := Decimal(m) + rest;
      IsDigit(text[0]) && ReadDigits(text[1..], DigitValue(text[0])) == (m, rest)
  {
    var digits, text := Decimal(m), Decimal(m) + rest;
    DigitsReadBack(m, rest);
    assert text[0] == digits[0];
    assert ReadDigits(text, 0) == ReadDigits(text[1..], DigitValue(text[0]));
    assert ReadDigits(rest, m) == (m, rest);
  }

  /** A text that starts as a number does is read as one. */
  lemma StartsAsNumber(text: string)
    requires text != "" && (IsDigit(text[0]) || text[0] == '-')
    ensures ReadValue(text) == ReadNumber(text)
  {
  }

  lemma NegativeReadsBack(m: nat, rest: string, all: string)
    requires Stops(rest) && m > 0 && all == "-" + (Decimal(m) + rest)
    ensures ReadValue(all) == Some((Number(-(m as int)), rest))
  {
    var text := Decimal(m) + rest;
    DigitsStart(m, rest);
    assert all[0] == '-' && all[2..] == text[1..] && all[1] == text[0];
    assert ReadNumber(all) == Some((Number(-(m as int)), rest));
    StartsAsNumber(all);
  }

  lemma NaturalReadsBack(m: nat, rest: string, all: string)
    requires Stops(rest) && all == Decimal(m) + rest
    ensures ReadValue(all) == Some((Number(m), rest))
  {
    DigitsStart(m, rest);
    assert ReadNumber(all) == Some((Number(m), rest));
    StartsAsNumber(all);
  }

  lemma NumberReadsBack(n: int, rest: string)
    requires Stops(rest)
    ensures ReadValue(WriteNumber(n) + rest) == Some((Number(n), rest))
  {
    if n < 0 {
      Regrouped("-", Decimal(-n), rest);
      NegativeReadsBack(-n, rest, "-" + (Decimal(-n) + rest));
    } else {
      NaturalReadsBack(n, rest, Decimal(n) + rest);
    }
  }

  lemma QuotedReadsBack(text: string, rest: string)
    ensures var all := Quoted(text) + rest;
      all[0] == '"' && ReadString(all[1..]) == Some((text, rest))
  {
    assert (Quoted(text) + rest)[1..] == Escape(text) + "\"" + rest;
    StringReadsBack(text, rest);
  }

  /** The first character of a value tells its kind, and closes nothing. */
  lemma WriteStarts(v: Json)
    ensures Write(v) != "" && Write(v)[0] !in {']', '}'}
  {
  }

  lemma {:induction false} ValueReadsBack(v: Json, rest: string)
    requires Stops(rest)
    ensures ReadValue(Write(v) + rest) == Some((v, rest))
    decreases v
  {
    match v
    case Null => assert ("null" + rest)[4..] == rest;
    case Boolean(value) =>
      assert ("true" + rest)[4..] == rest && ("false" + rest)[5..] == rest;
      assert ("false" + rest)[0] == 'f' && ("true" + rest)[0] == 't';
    case Number(n) => NumberReadsBack(n, rest);
    case Text(text) => QuotedReadsBack(text, rest);
    case List(items) => ListReadsBack(items, rest);
    case Object(members) => ObjectReadsBack(members, rest);
  }

  lemma {:induction false} ListReadsBack(items: seq<Json>, rest: string)
    ensures ReadValue("[" + WriteItems(items) + "]" + rest) == Some((List(items), rest))
    decreases items, 1
  {
    var body := WriteItems(items) + "]" + rest;
    assert "[" + WriteItems(items) + "]" + rest == "[" + body && ("[" + body)[1..] == body;
    if items == [] {
      assert body == "]" + rest && body[1..] == rest;
    } else {
      ItemsReadBack(items, rest);
      ItemsStart(items);
      assert body[0] == WriteItems(items)[0];
    }
  }

  lemma ItemsStart(items: seq<Json>)
    requires items != []
    ensures WriteItems(items) != "" && WriteItems(items)[0] !in {']', '}'}
  {
    WriteStarts(items[0]);
  }

  lemma Regroup(first: string, later: string, close: string, rest: string)
    ensures first + "," + later + close + rest == first + ("," + (later + close + rest))
  {
  }

  /** What follows the first item in a written list. */
  function ItemsTail(items: seq<Json>, rest: string): string
    requires items != []
  {
    if |items| == 1 then "]" + rest else "," + (WriteItems(items[1..]) + "]" + rest)
  }

  lemma FirstItem(items: seq<Json>, rest: string)
    requires items != []
    ensures WriteItems(items) + "]" + rest == Write(items[0]) + ItemsTail(items, rest)
  {
    if |items| > 1 {
      Regroup(Write(items[0]), WriteItems(items[1..]), "]", rest);
    } else {
      Regrouped(Write(items[0]), "]", rest);
    }
  }

  lemma TheOtherItems(items: seq<Json>, rest: string)
    requires items != []
    requires |items| > 1 ==> ReadItems(WriteItems(items[1..]) + "]" + rest) == Some((items[1..], rest))
    ensures ItemsAfter(items[0], ItemsTail(items, rest)) == Some((items, rest))
  {
    var tail := ItemsTail(items, rest);
    if |items| == 1 {
      assert tail[1..] == rest && [items[0]] == items;
    } else {
      assert tail[1..] == WriteItems(items[1..]) + "]" + rest && [items[0]] + items[1..] == items;
    }
  }

  lemma {:induction false} ItemsReadBack(items: seq<Json>, rest: string)
    requires items != []
    ensures ReadItems(WriteItems(items) + "]" + rest) == Some((items, rest))
    decreases items, 0
  {
    ValueReadsBack(items[0], ItemsTail(items, rest));
    if |items| > 1 {
      ItemsReadBack(items[1..], rest);
    }
    FirstItem(items, rest);
    TheOtherItems(items, rest);
  }

  lemma {:induction false} ObjectReadsBack(members: seq<Member>, rest: string)
    ensures ReadValue("{" + WriteMembers(members) + "}" + rest) == Some((Object(members), rest))
    decreases members, 1
  {
    var body := WriteMembers(members) + "}" + rest;
    assert "{" + WriteMembers(members) + "}" + rest == "{" + body && ("{" + body)[1..] == body;
    if members == [] {
      assert body == "}" + rest && body[1..] == rest;
    } else {
      MembersReadBack(members, rest);
      assert body[0] == '"';
    }
  }

  lemma {:induction false} MemberReadsBack(m: Member, rest: string)
    requires Stops(rest)
    ensures ReadMember(WriteMember(m) + rest) == Some((m, rest))
    decreases m
  {
    var value := Write(m.value) + rest;
    assert WriteMember(m) + rest == Quoted(m.name) + (":" + value);
    QuotedReadsBack(m.name, ":" + value);
    assert (":" + value)[1..] == value;
    ValueReadsBack(m.value, rest);
  }

  /** What follows the first member in a written object. */
  function MembersTail(members: seq<Member>, rest: string): string
    requires members != []
  {
    if |members| == 1 then "}" + rest else "," + (WriteMembers(members[1..]) + "}" + rest)
  }

  lemma FirstMember(members: seq<Member>, rest: string)
    requires members != []
    ensures WriteMembers(members) + "}" + rest == WriteMember(members[0]) + MembersTail(members, rest)
  {
    if |members| > 1 {
      Regroup(WriteMember(members[0]), WriteMembers(members[1..]), "}", rest);
    } else {
      Regrouped(WriteMember(members[0]), "}", rest);
    }
  }

  lemma TheOtherMembers(members: seq<Member>, rest: string)
    requires members != []
    requires |members| > 1 ==> ReadMembers(WriteMembers(members[1..]) + "}" + rest) == Some((members[1..], rest))
    ensures MembersAfter(members[0], MembersTail(members, rest)) == Some((members, rest))
  {
    var tail := MembersTail(members, rest);
    if |members| == 1 {
      assert tail[1..] == rest && [members[0]] == members;
    } else {
      assert tail[1..] == WriteMembers(members[1..]) + "}" + rest && [members[0]] + members[1..] == members;
    }
  }

  lemma {:induction false} MembersReadBack(members: seq<Member>, rest: string)
    requires members != []
    ensures ReadMembers(WriteMembers(members) + "}" + rest) == Some((members, rest))
    decreases members, 0
  {
    MemberReadsBack(members[0], MembersTail(members, rest));
    if |members| > 1 {
      MembersReadBack(members[1..], rest);
    }
    FirstMember(members, rest);
    TheOtherMembers(members, rest);
  }

  /** No character of a written value is a control character. */
  predicate Printable(text: string) {
    forall i :: 0 <= i < |text| ==> text[i] >= ' '
  }

  lemma {:induction false} WrittenIsPrintable(v: Json)
    ensures Printable(Write(v))
    decreases v
  {
    match v
    case List(items) => ItemsArePrintable(items);
    case Object(members) => MembersArePrintable(members);
    case _ =>
  }

  lemma {:induction false} ItemsArePrintable(items: seq<Json>)
    ensures Printable(WriteItems(items))
    decreases items
  {
    if items != [] {
      WrittenIsPrintable(items[0]);
      ItemsArePrintable(items[1..]);
    }
  }

  lemma {:induction false} MembersArePrintable(members: seq<Member>)
    ensures Printable(WriteMembers(members))
    decreases members
  {
    if members != [] {
      WrittenIsPrintable(members[0].value);
      MembersArePrintable(members[1..]);
    }
  }

  // ---------------------------------------------------------------- events

  /** The fields of an event beside its position. */
  datatype Body = Body(
    eventId: Json, correlationId: Json, causationId: Json, actorRole: Json, eventType: Json,
    aggregateType: Json, aggregateId: Json, payload: Json, createdAt: Json)

  datatype Event = Event(position: nat, body: Body)

  function MembersOf(e: Event): seq<Member> {
    [Member("event_id", e.body.eventId), Member("position", Number(e.position)),
     Member("correlation_id", e.body.correlationId), Member("causation_id", e.body.causationId),
     Member("actor_role", e.body.actorRole), Member("event_type", e.body.eventType),
     Member("aggregate_type", e.body.aggregateType), Member("aggregate_id", e.body.aggregateId),
     Member("payload", e.body.payload), Member("created_at", e.body.createdAt)]
  }

  /** The event whose members these are, if they are those of an event. */
  function EventOf(members: seq<Member>): Option<Event> {
    if |members| != 10 || !members[1].value.Number? || members[1].value.n < 0 then None
    else
      var e := Event(members[1].value.n, Body(
        members[0].value, members[2].value, members[3].value, members[4].value, members[5].value,
        members[6].value, members[7].value, members[8].value, members[9].value));
      if MembersOf(e) == members then Some(e) else None
  }

  function Encode(e: Event): string {
    Write(Object(MembersOf(e)))
  }

  function Decode(text: string): Option<Event> {
    match ReadValue(text)
    case Some((Object(members), rest)) => if rest == "" then EventOf(members) else None
    case _ => None
  }

  /** Whatever its fields contain, an event reads back from its text as itself. */
  lemma DecodeEncode(e: Event)
    ensures Decode(Encode(e)) == Some(e)
  {
    ValueReadsBack(Object(MembersOf(e)), "");
    assert Encode(e) + "" == Encode(e);
  }

  /** An event with anything behind it is no event. */
  lemma NothingMayFollow(e: Event, more: string)
    requires more != ""
    ensures Decode(Encode(e) + more) == None
  {
    ObjectBehind(MembersOf(e), more);
  }

  lemma ObjectBehind(members: seq<Member>, more: string)
    ensures ReadValue(Write(Object(members)) + more) == Some((Object(members), more))
  {
    ObjectReadsBack(members, more);
    assert Write(Object(members)) + more == "{" + WriteMembers(members) + "}" + more;
  }

  /** The text is one line, with nothing to trim at either end. */
  lemma EncodedIsOneLine(e: Event)
    ensures '\n' !in Encode(e)
    ensures |Encode(e)| >= 2 && Encode(e)[0] == '{' && Encode(e)[|Encode(e)| - 1] == '}'
  {
    WrittenIsPrintable(Object(MembersOf(e)));
  }
}
