/**
 * The excerpt of a mission's title and objective that is kept as its source message: the longest
 * prefix, marked with an ellipsis when cut, whose JSON text stays within the byte bound. The
 * search halves an interval although the test is not monotone at full length, where the
 * ellipsis disappears.
 */
module SourceExcerpt {
  import opened Options

  type CodePoint = c: int | 0 <= c < 0x11_0000

  const ELLIPSIS: CodePoint := 0x2026
  const NEWLINE: CodePoint := 0x0A
  const MAX_CHARACTERS := 3900
  const MAX_BYTES := 8000

  /** UTF-8 bytes that one code point takes inside a JSON string literal. */
  function JsonCost(c: CodePoint): (bytes: nat)
    ensures 1 <= bytes <= 6
  {
    if c == 0x22 || c == 0x5C then 2                         // quotation mark, reverse solidus
    else if c in {0x08, 0x09, 0x0A, 0x0C, 0x0D} then 2       // two-character escapes
    else if c < 0x20 || 0xD800 <= c < 0xE000 then 6          // \uXXXX: controls, lone surrogates
    else if c < 0x80 then 1
    else if c < 0x800 then 2
    else if c < 0x1_0000 then 3
    else 4
  }

  // ---------------------------------------------------------------- the bytes that are counted

  type Byte = b: int | 0 <= b < 0x100

  /** UTF-8, sections 3 and 4 of RFC 3629, for surrogates as for other code points of their size. */
  function Utf8(c: CodePoint): (bytes: seq<Byte>)
    ensures 1 <= |bytes| <= 4
  {
    if c < 0x80 then [c]
    else if c < 0x800 then [0xC0 + c / 0x40, 0x80 + c % 0x40]
    else if c < 0x1_0000 then [0xE0 + c / 0x1000, 0x80 + c / 0x40 % 0x40, 0x80 + c % 0x40]
    else [0xF0 + c / 0x4_0000, 0x80 + c / 0x1000 % 0x40, 0x80 + c / 0x40 % 0x40, 0x80 + c % 0x40]
  }

  /** What the bytes of one code point, read as numbers, stand for. */
  function ReadBack(b: seq<int>): int
    requires 1 <= |b| <= 4
  {
    match |b|
    case 1 => b[0]
    case 2 => (b[0] - 0xC0) * 0x40 + (b[1] - 0x80)
    case 3 => (b[0] - 0xE0) * 0x1000 + (b[1] - 0x80) * 0x40 + (b[2] - 0x80)
    case _ => (b[0] - 0xF0) * 0x4_0000 + (b[1] - 0x80) * 0x1000 + (b[2] - 0x80) * 0x40 + (b[3] - 0x80)
  }

  lemma Utf8ReadsBack(c: CodePoint)
    ensures ReadBack(Utf8(c)) == c
  {
    assert c / 0x40 == c / 0x1000 * 0x40 + c / 0x40 % 0x40;
    assert c / 0x1000 == c / 0x4_0000 * 0x40 + c / 0x1000 % 0x40;
  }

  function HexDigit(n: nat): CodePoint
    requires n < 16
  {
    if n < 10 then 0x30 + n else 0x61 + n - 10
  }

  /** How JSON.stringify writes one code point: escapes for what JSON forbids in a string, and for lone surrogates. */
  function Escaped(c: CodePoint): seq<CodePoint> {
    match c
    case 0x22 => [0x5C, 0x22]
    case 0x5C => [0x5C, 0x5C]
    case 0x08 => [0x5C, 0x62]
    case 0x09 => [0x5C, 0x74]
    case 0x0A => [0x5C, 0x6E]
    case 0x0C => [0x5C, 0x66]
    case 0x0D => [0x5C, 0x72]
    case _ =>
      if c < 0x20 || 0xD800 <= c < 0xE000 then
        [0x5C, 0x75, HexDigit(c / 0x1000), HexDigit(c / 0x100 % 0x10), HexDigit(c / 0x10 % 0x10), HexDigit(c % 0x10)]
      else [c]
  }

  /** The value of a hexadecimal digit, in lower case. */
  function HexValue(digit: CodePoint): int {
    if 0x30 <= digit <= 0x39 then digit - 0x30 else digit - 0x61 + 10
  }

  /** The code point an escape or a plain character of a JSON string stands for, section 7 of RFC 8259. */
  function Unescaped(text: seq<CodePoint>): Option<int> {
    if |text| == 1 && text[0] != 0x5C && text[0] != 0x22 && text[0] >= 0x20 then Some(text[0])
    else if |text| == 2 && text[0] == 0x5C then
      match text[1]
      case 0x22 => Some(0x22)
      case 0x5C => Some(0x5C)
      case 0x62 => Some(0x08)
      case 0x66 => Some(0x0C)
      case 0x6E => Some(0x0A)
      case 0x72 => Some(0x0D)
      case 0x74 => Some(0x09)
      case _ => None
    else if |text| == 6 && text[0] == 0x5C && text[1] == 0x75 then
      Some(0x1000 * HexValue(text[2]) + 0x100 * HexValue(text[3]) + 0x10 * HexValue(text[4]) + HexValue(text[5]))
    else None
  }

  lemma HexDigitReadsBack(n: nat)
    requires n < 16
    ensures HexValue(HexDigit(n)) == n
  {
  }

  lemma FourDigits(c: nat)
    requires c < 0x1_0000
    ensures 0x1000 * (c / 0x1000) + 0x100 * (c / 0x100 % 0x10) + 0x10 * (c / 0x10 % 0x10) + c % 0x10 == c
  {
    assert c / 0x10 == c / 0x100 * 0x10 + c / 0x10 % 0x10;
    assert c / 0x100 == c / 0x1000 * 0x10 + c / 0x100 % 0x10;
  }

  lemma HexReadsBack(c: CodePoint)
    requires c < 0x1_0000
    ensures 0x1000 * HexValue(HexDigit(c / 0x1000)) + 0x100 * HexValue(HexDigit(c / 0x100 % 0x10))
      + 0x10 * HexValue(HexDigit(c / 0x10 % 0x10)) + HexValue(HexDigit(c % 0x10)) == c
  {
    HexDigitReadsBack(c / 0x1000);
    HexDigitReadsBack(c / 0x100 % 0x10);
    HexDigitReadsBack(c / 0x10 % 0x10);
    HexDigitReadsBack(c % 0x10);
    FourDigits(c);
  }

  /** Every code point's escape stands for it. */
  lemma EscapesReadBack(c: CodePoint)
    ensures Unescaped(Escaped(c)) == Some(c)
  {
    if c < 0x20 || 0xD800 <= c < 0xE000 {
      HexReadsBack(c);
    }
  }

  /** No control character and no surrogate stands in an escaped text. */
  lemma EscapedIsClean(c: CodePoint, i: nat)
    requires i < |Escaped(c)|
    ensures 0x20 <= Escaped(c)[i] && !(0xD800 <= Escaped(c)[i] < 0xE000)
  {
  }

  function Encoded(text: seq<CodePoint>): seq<Byte> {
    if text == [] then [] else Encoded(text[..|text| - 1]) + Utf8(text[|text| - 1])
  }

  /** The text inside the quotation marks. */
  function Stringified(text: seq<CodePoint>): seq<CodePoint> {
    if text == [] then [] else Stringified(text[..|text| - 1]) + Escaped(text[|text| - 1])
  }

  /** An escape is ASCII, and takes as many bytes as characters. */
  lemma {:induction false} AsciiSize(text: seq<CodePoint>)
    requires forall i :: 0 <= i < |text| ==> text[i] < 0x80
    ensures |Encoded(text)| == |text|
  {
    if text != [] {
      AsciiSize(text[..|text| - 1]);
    }
  }

  lemma CostIsSize(c: CodePoint)
    ensures |Encoded(Escaped(c))| == JsonCost(c)
  {
    if Escaped(c) == [c] {
      assert [c][..0] == [];
      assert Encoded([c]) == [] + Utf8(c);
    } else {
      AsciiSize(Escaped(c));
    }
  }

  lemma EncodedSnoc(front: seq<CodePoint>, c: CodePoint)
    ensures |Encoded(front + [c])| == |Encoded(front)| + |Utf8(c)|
  {
    assert (front + [c])[..|front|] == front;
  }

  lemma {:induction false} EncodedAppends(left: seq<CodePoint>, right: seq<CodePoint>)
    ensures |Encoded(left + right)| == |Encoded(left)| + |Encoded(right)|
    decreases |right|
  {
    if right == [] {
      assert left + right == left;
    } else {
      var n := |right| - 1;
      EncodedAppends(left, right[..n]);
      EncodedSnoc(left + right[..n], right[n]);
      assert left + right == left + right[..n] + [right[n]];
    }
  }

  /** The cost of a text is the number of bytes of its JSON text, without the quotation marks. */
  lemma {:induction false} CostIsEncodedSize(text: seq<CodePoint>)
    ensures |Encoded(Stringified(text))| == Cost(text)
  {
    if text != [] {
      var n := |text| - 1;
      CostIsEncodedSize(text[..n]);
      CostIsSize(text[n]);
      EncodedAppends(Stringified(text[..n]), Escaped(text[n]));
    }
  }

  function Cost(text: seq<CodePoint>): nat {
    if text == [] then 0 else Cost(text[..|text| - 1]) + JsonCost(text[|text| - 1])
  }

  /** Serialized size, the two quotation marks included. */
  function JsonBytes(text: seq<CodePoint>): nat {
    2 + Cost(text)
  }

  function Excerpt(characters: seq<CodePoint>, length: nat): seq<CodePoint>
    requires length <= |characters|
  {
    characters[..length] + if length < |characters| then [ELLIPSIS] else []
  }

  predicate Fits(characters: seq<CodePoint>, length: nat)
    requires length <= |characters|
  {
    JsonBytes(Excerpt(characters, length)) <= MAX_BYTES
  }

  function Cap(characters: seq<CodePoint>): nat {
    if |characters| < MAX_CHARACTERS then |characters| else MAX_CHARACTERS
  }

  /** The whole text fits, but only because it needs no ellipsis: one character less would not fit. */
  predicate FitsOnlyWhole(characters: seq<CodePoint>) {
    && 0 < |characters| <= MAX_CHARACTERS
    && Fits(characters, |characters|)
    && !Fits(characters, |characters| - 1)
  }

  lemma ExcerptBytes(characters: seq<CodePoint>, length: nat)
    requires length <= |characters|
    ensures JsonBytes(Excerpt(characters, length)) ==
      2 + Cost(characters[..length]) + if length < |characters| then 3 else 0
  {
    var text := Excerpt(characters, length);
    if length < |characters| {
      assert text[..|text| - 1] == characters[..length];
    } else {
      assert text == characters[..length];
    }
  }

  lemma {:induction false} CostGrows(characters: seq<CodePoint>, shorter: nat, longer: nat)
    requires shorter <= longer <= |characters|
    ensures Cost(characters[..shorter]) + (longer - shorter) <= Cost(characters[..longer])
    decreases longer
  {
    if shorter < longer {
      CostGrows(characters, shorter, longer - 1);
      assert characters[..longer][..longer - 1] == characters[..longer - 1];
    }
  }

  /** Among truncated prefixes, and from a fitting whole downwards, the test is monotone... */
  lemma TruncatedFitIsMonotone(characters: seq<CodePoint>, shorter: nat, longer: nat)
    requires shorter <= longer < |characters| && Fits(characters, longer)
    ensures Fits(characters, shorter)
  {
    CostGrows(characters, shorter, longer);
    ExcerptBytes(characters, shorter);
    ExcerptBytes(characters, longer);
  }

  /** ... and a text whose last truncated prefix fits also fits whole unless its last character costs over three bytes more. */
  lemma WholeAgainstLastCut(characters: seq<CodePoint>)
    requires characters != []
    ensures var n := |characters|;
      JsonBytes(Excerpt(characters, n)) == JsonBytes(Excerpt(characters, n - 1)) + JsonCost(characters[n - 1]) - 3
  {
    var n := |characters|;
    ExcerptBytes(characters, n);
    ExcerptBytes(characters, n - 1);
    assert characters[..n] == characters;
  }

  /** No truncated prefix longer than the given one fits. */
  predicate NoLongerCutFits(characters: seq<CodePoint>, length: nat) {
    forall k: nat :: length < k <= Cap(characters) && k < |characters| ==> !Fits(characters, k)
  }

  /** Nothing longer fits at all, the whole text included. */
  predicate NothingLongerFits(characters: seq<CodePoint>, length: nat) {
    forall k: nat :: length < k <= Cap(characters) ==> !Fits(characters, k)
  }

  lemma MisfitRulesOutLongerCuts(characters: seq<CodePoint>, middle: nat)
    requires 1 <= middle <= Cap(characters) && !Fits(characters, middle)
    ensures NoLongerCutFits(characters, middle - 1)
  {
    forall k: nat | middle <= k <= Cap(characters) && k < |characters| ensures !Fits(characters, k) {
      if Fits(characters, k) {
        TruncatedFitIsMonotone(characters, middle, k);
      }
    }
  }

  /** The whole text is ruled out only by being tried, or by a truncated prefix that does not fit. */
  predicate WholeRuledOut(characters: seq<CodePoint>) {
    characters != [] && (!Fits(characters, |characters|) || !Fits(characters, |characters| - 1))
  }

  /** What the halving keeps: nothing above `high` is wanted, and `low` fits. */
  predicate Searching(characters: seq<CodePoint>, low: nat, high: nat) {
    && low <= high <= Cap(characters)
    && Fits(characters, low)
    && NoLongerCutFits(characters, high)
    && (high < |characters| <= MAX_CHARACTERS ==> WholeRuledOut(characters))
    && (low == |characters| > 1 ==> Fits(characters, low - 1))
  }

  lemma RaiseLow(characters: seq<CodePoint>, low: nat, middle: nat, high: nat)
    requires Searching(characters, low, high) && low < middle <= high
    requires Fits(characters, middle) && (middle == |characters| > 1 ==> low == middle - 1)
    ensures Searching(characters, middle, high)
  {
  }

  lemma LowerHigh(characters: seq<CodePoint>, low: nat, middle: nat, high: nat)
    requires Searching(characters, low, high) && low < middle <= high
    requires !Fits(characters, middle)
    ensures Searching(characters, low, middle - 1)
  {
    MisfitRulesOutLongerCuts(characters, middle);
    if middle < |characters| <= MAX_CHARACTERS {
      assert middle - 1 < |characters| - 1 <= Cap(characters);
    }
  }

  /** A finished search has the longest fitting excerpt unless the text fits only as a whole. */
  lemma BestExactly(characters: seq<CodePoint>, length: nat)
    requires characters != [] && Searching(characters, length, length)
    ensures NothingLongerFits(characters, length) <==> !FitsOnlyWhole(characters)
  {
    var n := |characters|;
    EmptyCutFits(characters);
    if FitsOnlyWhole(characters) {
      assert length < n && Fits(characters, n) && Cap(characters) == n;
    } else if n <= MAX_CHARACTERS && length < n {
      assert !Fits(characters, n);
    }
  }

  lemma EmptyCutFits(characters: seq<CodePoint>)
    ensures Fits(characters, 0)
  {
    ExcerptBytes(characters, 0);
  }

  /**
   * The result is a fitting excerpt, at least as long as every fitting truncated prefix. It is
   * the best of all candidates exactly when the text does not fit only as a whole.
   */
  method MissionSourceContent(title: seq<CodePoint>, objective: seq<CodePoint>)
    returns (content: seq<CodePoint>, ghost length: nat)
    ensures var characters := title + [NEWLINE] + objective;
      && length <= Cap(characters)
      && content == Excerpt(characters, length)
      && Fits(characters, length)
      && NoLongerCutFits(characters, length)
      && (NothingLongerFits(characters, length) <==> !FitsOnlyWhole(characters))
    ensures |content| <= MAX_CHARACTERS + 1 && JsonBytes(content) <= MAX_BYTES
  {
    var characters := title + [NEWLINE] + objective;
    var kept := Search(characters);
    BestExactly(characters, kept);
    content := Excerpt(characters, kept);
    length := kept;
  }

  /** The search by halves, over how many characters are kept. */
  method Search(characters: seq<CodePoint>) returns (low: nat)
    ensures Searching(characters, low, low)
  {
    low := 0;
    var high: nat := if |characters| < MAX_CHARACTERS then |characters| else MAX_CHARACTERS;
    EmptyCutFits(characters);
    while low < high
      invariant Searching(characters, low, high)
    {
      var middle: nat := (low + high + 1) / 2;
      assert low < middle <= high;
      if JsonBytes(Excerpt(characters, middle)) <= MAX_BYTES {
        RaiseLow(characters, low, middle, high);
        low := middle;
      } else {
        LowerHigh(characters, low, middle, high);
        high := middle - 1;
      }
    }
  }

  lemma {:induction false} UniformCost(c: CodePoint, count: nat)
    ensures Cost(seq(count, _ => c)) == count * JsonCost(c)
  {
    if count > 0 {
      UniformCost(c, count - 1);
      assert seq(count, _ => c)[..count - 1] == seq(count - 1, _ => c);
    }
  }

  lemma {:induction false} CostOfConcatenation(left: seq<CodePoint>, right: seq<CodePoint>)
    ensures Cost(left + right) == Cost(left) + Cost(right)
    decreases |right|
  {
    if right == [] {
      assert left + right == left;
    } else {
      var n := |right| - 1;
      CostOfConcatenation(left, right[..n]);
      assert (left + right)[..|left| + n] == left + right[..n];
    }
  }

  /** Such texts exist, so the search does cut some texts that would have fitted whole. */
  lemma SomeTextFitsOnlyWhole()
    ensures FitsOnlyWhole(seq(2664, _ => 0x4E00) + [NEWLINE] + [0x61, 0x61, 0x61])
  {
    var title := seq(2664, _ => 0x4E00);
    var objective: seq<CodePoint> := [0x61, 0x61, 0x61];
    var text := title + [NEWLINE] + objective;
    UniformCost(0x4E00, 2664);
    CostOfConcatenation(title, [NEWLINE]);
    CostOfConcatenation(title + [NEWLINE], objective);
    assert Cost([NEWLINE]) == 2;
    assert objective[..2] == [0x61, 0x61] && objective[..2][..1] == [0x61];
    assert Cost(objective) == 3;
    assert Cost(text) == 7997;
    ExcerptBytes(text, |text|);
    assert text[..|text|] == text;
    WholeAgainstLastCut(text);
  }
}
