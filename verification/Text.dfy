/** Trimming of white space as Rust, JavaScript and Python strings do it, and the order of strings. */
module Text {

  predicate IsRustSpace(c: char) {
    || '\t' <= c <= '\r' || c == ' ' || c == '\U{85}' || IsUnicodeSpace(c)
  }

  predicate IsJsSpace(c: char) {
    || '\t' <= c <= '\r' || c == ' ' || c == '\U{FEFF}' || IsUnicodeSpace(c)
  }

  predicate IsPythonSpace(c: char) {
    || '\t' <= c <= '\r' || '\U{1C}' <= c <= '\U{1F}' || c == ' ' || c == '\U{85}' || IsUnicodeSpace(c)
  }

  predicate IsUnicodeSpace(c: char) {
    || c == '\U{A0}' || c == '\U{1680}' || '\U{2000}' <= c <= '\U{200A}'
    || c == '\U{2028}' || c == '\U{2029}' || c == '\U{202F}' || c == '\U{205F}' || c == '\U{3000}'
  }

  function TrimStart(text: string, space: char -> bool): string {
    if text != "" && space(text[0]) then TrimStart(text[1..], space) else text
  }

  function TrimEnd(text: string, space: char -> bool): string {
    if text != "" && space(text[|text| - 1]) then TrimEnd(text[..|text| - 1], space) else text
  }

  function Trim(text: string, space: char -> bool): string {
    TrimEnd(TrimStart(text, space), space)
  }

  function LowerChar(c: char): char {
    if 'A' <= c <= 'Z' then c - 'A' + 'a' else c
  }

  function Lower(text: string): string {
    seq(|text|, i requires 0 <= i < |text| => LowerChar(text[i]))
  }

  /** Lexicographic order by code point. */
  predicate StringLe(a: string, b: string) {
    a == "" || (b != "" && (a[0] < b[0] || (a[0] == b[0] && StringLe(a[1..], b[1..]))))
  }

  lemma {:induction false} StringOrderIsTotal(a: string, b: string)
    ensures StringLe(a, b) || StringLe(b, a)
    ensures StringLe(a, b) && StringLe(b, a) ==> a == b
  {
    if a != "" && b != "" {
      StringOrderIsTotal(a[1..], b[1..]);
      assert a == [a[0]] + a[1..] && b == [b[0]] + b[1..];
    }
  }

  lemma {:induction false} StringOrderIsTransitive(a: string, b: string, c: string)
    requires StringLe(a, b) && StringLe(b, c)
    ensures StringLe(a, c)
  {
    if a != "" && a[0] == b[0] == c[0] {
      StringOrderIsTransitive(a[1..], b[1..], c[1..]);
    }
  }
}
