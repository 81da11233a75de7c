/** The byte-string operations the guard borrows from Go's standard library.
    One `char` stands for one byte of a Go string. */
module Bytes {
  const C2 := '\U{C2}'
  const E1 := '\U{E1}'
  const E2 := '\U{E2}'
  const E3 := '\U{E3}'

  /** The six ASCII white-space bytes. */
  predicate AsciiSpace(c: char) {
    c == ' ' || '\t' <= c <= '\r'
  }

  /** unicode.IsSpace applied to a single byte read as a rune, as the lexer does. */
  predicate ByteSpace(c: char) {
    AsciiSpace(c) || c == '\U{85}' || c == '\U{A0}'
  }

  predicate Digit(c: char) {
    '0' <= c <= '9'
  }

  predicate Letter(c: char) {
    'a' <= c <= 'z' || 'A' <= c <= 'Z'
  }

  /** Bytes that continue an unquoted word; every non-ASCII byte does. */
  predicate IdentByte(c: char) {
    c == '_' || c == '$' || c >= '\U{80}' || Letter(c) || Digit(c)
  }

  function LowerByte(c: char): char {
    if 'A' <= c <= 'Z' then c - 'A' + 'a' else c
  }

  function ToLower(s: string): (r: string)
    ensures |r| == |s|
    ensures forall i :: 0 <= i < |s| ==> r[i] == LowerByte(s[i])
  {
    seq(|s|, i requires 0 <= i < |s| => LowerByte(s[i]))
  }

  /** strings.EqualFold on ASCII text. */
  predicate EqualFold(a: string, b: string) {
    ToLower(a) == ToLower(b)
  }

  predicate HasPrefix(s: string, prefix: string) {
    prefix <= s
  }

  // ------------------------------------------------------------------
  // strings.TrimSpace: white space is decided rune by rune, in UTF-8.

  /** Length of the white-space rune that starts at i, or 0. */
  function SpaceRuneAt(s: string, i: nat): (n: nat)
    requires i <= |s|
    ensures i + n <= |s|
    ensures forall k :: i <= k < i + n ==> AsciiSpace(s[k]) || s[k] >= '\U{80}'
  {
    if i < |s| && AsciiSpace(s[i]) then 1
    else if i + 2 <= |s| && TwoByteSpace(s[i], s[i + 1]) then 2
    else if i + 3 <= |s| && ThreeByteSpace(s[i], s[i + 1], s[i + 2]) then 3
    else 0
  }

  /** Length of the white-space rune that ends at j, or 0. */
  function SpaceRuneBefore(s: string, j: nat): (n: nat)
    requires j <= |s|
    ensures n <= j
    ensures forall k :: j - n <= k < j ==> AsciiSpace(s[k]) || s[k] >= '\U{80}'
  {
    if 1 <= j && AsciiSpace(s[j - 1]) then 1
    else if 2 <= j && TwoByteSpace(s[j - 2], s[j - 1]) then 2
    else if 3 <= j && ThreeByteSpace(s[j - 3], s[j - 2], s[j - 1]) then 3
    else 0
  }

  /** U+0085 and U+00A0. */
  predicate TwoByteSpace(a: char, b: char) {
    a == C2 && (b == '\U{85}' || b == '\U{A0}')
  }

  /** U+1680, U+2000 to U+200A, U+2028, U+2029, U+202F, U+205F and U+3000. */
  predicate ThreeByteSpace(a: char, b: char, c: char) {
    || (a == E1 && b == '\U{9A}' && c == '\U{80}')
    || (a == E2 && b == '\U{80}' && ('\U{80}' <= c <= '\U{8A}' || c == '\U{A8}' || c == '\U{A9}' || c == '\U{AF}'))
    || (a == E2 && b == '\U{81}' && c == '\U{9F}')
    || (a == E3 && b == '\U{80}' && c == '\U{80}')
  }

  /** The first byte TrimSpace keeps when it starts at i. */
  function TrimFrom(s: string, i: nat): (lo: nat)
    requires i <= |s|
    ensures i <= lo <= |s|
    ensures SpaceRuneAt(s, lo) == 0
    ensures forall k :: i <= k < lo ==> AsciiSpace(s[k]) || s[k] >= '\U{80}'
    decreases |s| - i
  {
    var n := SpaceRuneAt(s, i);
    if n == 0 then i else TrimFrom(s, i + n)
  }

  /** One past the last byte TrimSpace keeps when at least the first lo bytes are gone. */
  function TrimTo(s: string, lo: nat, j: nat): (hi: nat)
    requires lo <= j <= |s|
    ensures lo <= hi <= j
    ensures SpaceRuneBefore(s, hi) == 0 || hi - SpaceRuneBefore(s, hi) < lo
    ensures forall k :: hi <= k < j ==> AsciiSpace(s[k]) || s[k] >= '\U{80}'
    decreases j
  {
    var n := SpaceRuneBefore(s, j);
    if n == 0 || j - n < lo then j else TrimTo(s, lo, j - n)
  }

  function TrimLow(s: string): (lo: nat)
    ensures lo <= |s|
  {
    TrimFrom(s, 0)
  }

  function TrimHigh(s: string): (hi: nat)
    ensures TrimLow(s) <= hi <= |s|
  {
    TrimTo(s, TrimLow(s), |s|)
  }

  function TrimSpace(s: string): string {
    s[TrimLow(s)..TrimHigh(s)]
  }

  /** Unicode's white-space code points outside ASCII. */
  predicate SpacePoint(point: int) {
    || point == 0x85 || point == 0xA0 || point == 0x1680 || 0x2000 <= point <= 0x200A
    || point == 0x2028 || point == 0x2029 || point == 0x202F || point == 0x205F || point == 0x3000
  }

  predicate Continues(c: char) {
    '\U{80}' <= c <= '\U{BF}'
  }

  /** The byte patterns are the UTF-8 encodings of those code points (section 3 of RFC 3629). */
  lemma SpacesByCodePoint(a: char, b: char, c: char)
    requires Continues(b) && Continues(c)
    ensures '\U{C2}' <= a <= '\U{DF}' ==> (TwoByteSpace(a, b) <==> SpacePoint((a as int - 0xC0) * 64 + (b as int - 0x80)))
    ensures '\U{E1}' <= a <= '\U{EF}' ==>
              (ThreeByteSpace(a, b, c) <==> SpacePoint((a as int - 0xE0) * 4096 + (b as int - 0x80) * 64 + (c as int - 0x80)))
  {
    var x, y, z := a as int, b as int, c as int;
    assert '\U{C2}' <= a <= '\U{DF}' ==> 0xC2 <= x <= 0xDF;
    assert 0x80 <= y <= 0xBF && 0x80 <= z <= 0xBF;
  }
}
