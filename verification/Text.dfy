/** The string operations the display code leans on. */
module Text {
  import opened Bytes

  /** Unicode White_Space, which Rust's `trim` and `split_whitespace` use. */
  predicate IsWhitespace(c: char) {
    var n := c as int;
    || 0x9 <= n <= 0xD || n == 0x20 || n == 0x85 || n == 0xA0 || n == 0x1680
    || 0x2000 <= n <= 0x200A || n == 0x2028 || n == 0x2029 || n == 0x202F || n == 0x205F || n == 0x3000
  }

  function TrimStart(s: string): string {
    if s != "" && IsWhitespace(s[0]) then TrimStart(s[1..]) else s
  }

  function TrimEnd(s: string): string {
    if s != "" && IsWhitespace(s[|s| - 1]) then TrimEnd(s[..|s| - 1]) else s
  }

  function Trim(s: string): string {
    TrimEnd(TrimStart(s))
  }

  function ToLower(c: char): char {
    if 'A' <= c <= 'Z' then ((c as int) + 32) as char else c
  }

  predicate EqIgnoreAsciiCase(s: string, t: string) {
    |s| == |t| && forall i :: 0 <= i < |s| ==> ToLower(s[i]) == ToLower(t[i])
  }

  predicate IsAsciiAlphanumeric(c: char) {
    'a' <= c <= 'z' || 'A' <= c <= 'Z' || '0' <= c <= '9'
  }

  /** Names the displays accept: at most 128 of `[A-Za-z0-9._-]`, with no leading dot. */
  predicate IsSafeName(name: string) {
    && name != ""
    && |name| <= 128
    && name[0] != '.'
    && forall i :: 0 <= i < |name| ==> IsAsciiAlphanumeric(name[i]) || name[i] in "._-"
  }

  /** The decimal digits of a number, as formatting prints them. */
  function Decimal(n: nat): (digits: string)
    ensures |digits| >= 1
    ensures forall i :: 0 <= i < |digits| ==> '0' <= digits[i] <= '9'
  {
    var last := ('0' as int + n % 10) as char;
    if n < 10 then [last] else Decimal(n / 10) + [last]
  }

  /** What parsing decimal digits reads. */
  function Undecimal(digits: string): nat
    requires forall i :: 0 <= i < |digits| ==> '0' <= digits[i] <= '9'
  {
    if digits == "" then 0
    else 10 * Undecimal(digits[..|digits| - 1]) + (digits[|digits| - 1] as int - '0' as int)
  }

  lemma {:induction false} DecimalReadsBack(n: nat)
    ensures Undecimal(Decimal(n)) == n
  {
    if n >= 10 {
      DecimalReadsBack(n / 10);
      assert Decimal(n)[..|Decimal(n)| - 1] == Decimal(n / 10);
    }
  }

  lemma {:induction false} DecimalLength(n: nat)
    requires n < 0x1_0000_0000
    ensures |Decimal(n)| <= 10
  {
    var n1 := n / 10;
    var n2 := n1 / 10;
    var n3 := n2 / 10;
    var n4 := n3 / 10;
    var n5 := n4 / 10;
    var n6 := n5 / 10;
    var n7 := n6 / 10;
    var n8 := n7 / 10;
    assert |Decimal(n8)| <= 2;
    assert |Decimal(n6)| <= 4;
    assert |Decimal(n4)| <= 6;
    assert |Decimal(n2)| <= 8;
  }

  /** The pieces between the occurrences of a separator. */
  function SplitAll(s: string, separator: string): (parts: seq<string>)
    requires separator != ""
    ensures parts != []
    decreases |s|
  {
    var at := Find(s, separator);
    if at.None? then [s] else [s[..at.value]] + SplitAll(s[at.value + |separator|..], separator)
  }

  /** A part does not stand where one of its characters is missing. */
  lemma NotHere(whole: string, part: string, at: nat, j: nat)
    requires j < |part| && (at + j < |whole| ==> whole[at + j] != part[j])
    ensures !OccursAt(whole, part, at)
  {
    if at + |part| <= |whole| {
      assert whole[at..at + |part|][j] == whole[at + j];
    }
  }

  lemma NoSeparator(piece: string, separator: string)
    requires separator != "" && separator[0] !in piece
    ensures Find(piece, separator).None?
    ensures SplitAll(piece, separator) == [piece]
  {
    forall k: nat ensures !OccursAt(piece, separator, k) {
      NotHere(piece, separator, k, 0);
    }
  }
}
