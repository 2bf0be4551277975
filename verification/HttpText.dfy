/** Characters, names and numbers as both HTTP parsers and both printers use them. */
module HttpText {

  const CR: char := '\r'
  const LF: char := '\n'

  predicate IsDigit(c: char) {
    '0' <= c <= '9'
  }

  /** The token characters, written out as the generated range tests have them. */
  predicate IsToken(c: char) {
    || c == '!' || '#' <= c <= '\'' || c == '*' || c == '+' || c == '-' || c == '.'
    || IsDigit(c) || 'A' <= c <= 'Z' || '^' <= c <= 'z' || c == '|' || c == '~'
  }

  /** What the automata skip in front of a value: tab to form feed without the line feed, and space. */
  predicate IsBlank(c: char) {
    c == ' ' || c == '\t' || c == 11 as char || c == 12 as char
  }

  function Lower(c: char): char {
    if 'A' <= c <= 'Z' then (c as int + 32) as char else c
  }

  function LowerAll(s: string): (r: string)
    ensures |r| == |s| && forall i :: 0 <= i < |s| ==> r[i] == Lower(s[i])
  {
    seq(|s|, i requires 0 <= i < |s| => Lower(s[i]))
  }

  /** Equality as `strcasecmp` sees it. */
  predicate SameName(a: string, b: string) {
    LowerAll(a) == LowerAll(b)
  }

  predicate AllTokens(s: string) {
    forall i :: 0 <= i < |s| ==> IsToken(s[i])
  }

  predicate AllDigits(s: string) {
    forall i :: 0 <= i < |s| ==> IsDigit(s[i])
  }

  predicate AllBlank(s: string) {
    forall i :: 0 <= i < |s| ==> IsBlank(s[i])
  }

  /** Neither a carriage return nor a line feed. */
  predicate OneLine(s: string) {
    forall i :: 0 <= i < |s| ==> s[i] != CR && s[i] != LF
  }

  function Slice(s: string, from: nat, to: nat): string {
    if from <= to <= |s| then s[from..to] else ""
  }

  /** `strncmp(at, literal, length)` with the length of the text: equality up to the shorter of the two. */
  predicate MatchesVersion(text: string, literal: string) {
    |text| <= |literal| && text == literal[..|text|]
  }

  /** How many characters the line break at a position takes; none if there is no whole line break. */
  function BreakLen(buf: string, p: nat): (n: nat)
    requires p <= |buf|
    ensures p + n <= |buf|
  {
    if p < |buf| && buf[p] == LF then 1
    else if p + 1 < |buf| && buf[p] == CR && buf[p + 1] == LF then 2
    else 0
  }

  // ---------------------------------------------------------------- numbers

  function Digit(c: char): nat
    requires IsDigit(c)
  {
    c as int - '0' as int
  }

  function Number(s: string): nat
    requires AllDigits(s)
  {
    if s == "" then 0 else 10 * Number(s[..|s| - 1]) + Digit(s[|s| - 1])
  }

  function Decimal(n: nat): (s: string)
    ensures s != "" && AllDigits(s)
  {
    (if n < 10 then "" else Decimal(n / 10)) + [('0' as int + n % 10) as char]
  }

  /** Printing and reading a number gives the number. */
  lemma {:induction false} DecimalRoundTrip(n: nat)
    ensures Number(Decimal(n)) == n
  {
    var s := Decimal(n);
    if n >= 10 {
      DecimalRoundTrip(n / 10);
    }
    assert s[..|s| - 1] == if n < 10 then "" else Decimal(n / 10);
  }

  const LONG_MAX: nat := 0x7fff_ffff_ffff_ffff

  /** `strtol` into a 64-bit long, which saturates, and then a cut to 32 bits. */
  function ToInt(s: string): int
    requires AllDigits(s)
  {
    var long := if Number(s) > LONG_MAX then LONG_MAX else Number(s);
    var low := long % 0x1_0000_0000;
    if low < 0x8000_0000 then low else low - 0x1_0000_0000
  }

  /** Numbers below 2^31 are read as they are, and those beyond a 64-bit long as -1. */
  lemma ToIntIs(s: string)
    requires AllDigits(s)
    ensures Number(s) < 0x8000_0000 ==> ToInt(s) == Number(s)
    ensures Number(s) > 0x7fff_ffff_ffff_ffff ==> ToInt(s) == -1
    ensures Number(s) <= 0x7fff_ffff_ffff_ffff ==> (Number(s) - ToInt(s)) % 0x1_0000_0000 == 0
    ensures -0x8000_0000 <= ToInt(s) < 0x8000_0000
  {
    hide Number;
  }

  // ------------------------------------------------------------- text in a buffer

  /** The text lies at a position of the buffer. */
  predicate At(buf: string, p: nat, t: string) {
    p + |t| <= |buf| && buf[p..p + |t|] == t
  }

  lemma AtSplit(buf: string, p: nat, a: string, b: string)
    requires At(buf, p, a + b)
    ensures At(buf, p, a) && At(buf, p + |a|, b)
  {
    assert buf[p..p + |a|] == (a + b)[..|a|];
    assert buf[p + |a|..p + |a + b|] == (a + b)[|a|..];
  }

  lemma AtIndex(buf: string, p: nat, t: string, i: nat)
    requires At(buf, p, t) && i < |t|
    ensures buf[p + i] == t[i]
  {
    assert buf[p..p + |t|][i] == t[i];
  }
}
