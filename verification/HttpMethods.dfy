/** The method names and how the request parser recognises them. */
module HttpMethods {

  import opened HttpText

  const METHODS: nat := 34
  const INVALID_METHOD: nat := 34
  const M_SEARCH: nat := 24

  function MethodName(m: nat): string {
    match m
    case 0 => "DELETE"
    case 1 => "GET"
    case 2 => "HEAD"
    case 3 => "POST"
    case 4 => "PUT"
    case 5 => "CONNECT"
    case 6 => "OPTIONS"
    case 7 => "TRACE"
    case 8 => "COPY"
    case 9 => "LOCK"
    case 10 => "MKCOL"
    case 11 => "MOVE"
    case 12 => "PROPFIND"
    case 13 => "PROPPATCH"
    case 14 => "SEARCH"
    case 15 => "UNLOCK"
    case 16 => "BIND"
    case 17 => "REBIND"
    case 18 => "UNBIND"
    case 19 => "ACL"
    case 20 => "REPORT"
    case 21 => "MKACTIVITY"
    case 22 => "CHECKOUT"
    case 23 => "MERGE"
    case 24 => "M-SEARCH"
    case 25 => "NOTIFY"
    case 26 => "SUBSCRIBE"
    case 27 => "UNSUBSCRIBE"
    case 28 => "PATCH"
    case 29 => "PURGE"
    case 30 => "MKCALENDAR"
    case 31 => "LINK"
    case 32 => "UNLINK"
    case 33 => "SOURCE"
    case _ => "<unknown>"
  }

  predicate StartsWith(text: string, name: string) {
    |name| <= |text| && text[..|name|] == name
  }

  /** `CharsToHttpMethod`: the first method in the order of the map whose name the text starts with. */
  function FirstMethod(text: string, m: nat): nat
    decreases METHODS - m
  {
    if m >= METHODS then INVALID_METHOD
    else if StartsWith(text, MethodName(m)) then m
    else FirstMethod(text, m + 1)
  }

  // ------------------------------------------------- no name starts another

  /** The first three letters of each name, as one number. */
  function Signature(m: nat): nat {
    match m
    case 0 => Three('D', 'E', 'L')
    case 1 => Three('G', 'E', 'T')
    case 2 => Three('H', 'E', 'A')
    case 3 => Three('P', 'O', 'S')
    case 4 => Three('P', 'U', 'T')
    case 5 => Three('C', 'O', 'N')
    case 6 => Three('O', 'P', 'T')
    case 7 => Three('T', 'R', 'A')
    case 8 => Three('C', 'O', 'P')
    case 9 => Three('L', 'O', 'C')
    case 10 => Three('M', 'K', 'C')
    case 11 => Three('M', 'O', 'V')
    case 12 => Three('P', 'R', 'O')
    case 13 => Three('P', 'R', 'O')
    case 14 => Three('S', 'E', 'A')
    case 15 => Three('U', 'N', 'L')
    case 16 => Three('B', 'I', 'N')
    case 17 => Three('R', 'E', 'B')
    case 18 => Three('U', 'N', 'B')
    case 19 => Three('A', 'C', 'L')
    case 20 => Three('R', 'E', 'P')
    case 21 => Three('M', 'K', 'A')
    case 22 => Three('C', 'H', 'E')
    case 23 => Three('M', 'E', 'R')
    case 24 => Three('M', '-', 'S')
    case 25 => Three('N', 'O', 'T')
    case 26 => Three('S', 'U', 'B')
    case 27 => Three('U', 'N', 'S')
    case 28 => Three('P', 'A', 'T')
    case 29 => Three('P', 'U', 'R')
    case 30 => Three('M', 'K', 'C')
    case 31 => Three('L', 'I', 'N')
    case 32 => Three('U', 'N', 'L')
    case 33 => Three('S', 'O', 'U')
    case _ => 0
  }

  function Three(a: char, b: char, c: char): nat {
    (a as int) * 0x1_0000_0000 + (b as int) * 0x1_0000 + c as int
  }

  predicate IsMethodText(s: string) {
    0 < |s| <= 20 && forall i :: 0 <= i < |s| ==> IsDigit(s[i]) || 'A' <= s[i] <= 'Z'
  }

  predicate Signed(m: nat) {
    |MethodName(m)| >= 3 && Three(MethodName(m)[0], MethodName(m)[1], MethodName(m)[2]) == Signature(m)
  }

  lemma Names0(m: nat)
    ensures m < 9 ==> Signed(m) && IsMethodText(MethodName(m))
  {
  }

  lemma Names1(m: nat)
    ensures 9 <= m < 17 ==> Signed(m) && IsMethodText(MethodName(m))
  {
  }

  lemma Names2(m: nat)
    ensures 17 <= m < 26 ==> Signed(m) && (m != M_SEARCH ==> IsMethodText(MethodName(m)))
  {
  }

  lemma Names3(m: nat)
    ensures 26 <= m < 34 ==> Signed(m) && IsMethodText(MethodName(m))
  {
  }

  lemma NameFacts(m: nat)
    requires m < METHODS
    ensures Signed(m) && (m != M_SEARCH ==> IsMethodText(MethodName(m)))
  {
    hide MethodName, Signature;
    if m < 9 {
      Names0(m);
    } else if m < 17 {
      Names1(m);
    } else if m < 26 {
      Names2(m);
    } else {
      Names3(m);
    }
  }

  lemma StartsSigned(j: nat, m: nat)
    requires Signed(j) && Signed(m) && StartsWith(MethodName(m), MethodName(j))
    ensures Signature(j) == Signature(m)
  {
    hide MethodName, Signature;
    var a, b := MethodName(j), MethodName(m);
    assert b[..|a|][0] == b[0] && b[..|a|][1] == b[1] && b[..|a|][2] == b[2];
  }

  lemma SameLow(j: nat, m: nat)
    requires j < m < METHODS && j < 11 && Signature(j) == Signature(m)
    ensures j == 10 && m == 30
  {
  }

  lemma SameHigh(j: nat, m: nat)
    requires 11 <= j < m < METHODS && Signature(j) == Signature(m)
    ensures (j == 12 && m == 13) || (j == 15 && m == 32)
  {
  }

  /** Only three pairs of names agree on their first three letters. */
  lemma SameSignature(j: nat, m: nat)
    requires j < m < METHODS && Signature(j) == Signature(m)
    ensures (j == 12 && m == 13) || (j == 10 && m == 30) || (j == 15 && m == 32)
  {
    hide Signature;
    if j < 11 {
      SameLow(j, m);
    } else {
      SameHigh(j, m);
    }
  }

  lemma NotStarted(j: nat, m: nat)
    requires (j == 12 && m == 13) || (j == 10 && m == 30) || (j == 15 && m == 32)
    ensures !StartsWith(MethodName(m), MethodName(j))
  {
    var k := if j == 12 then 4 else 3;
    var a, b := MethodName(j), MethodName(m);
    assert k < |a| && k < |b| && a[k] != b[k];
    assert |a| <= |b| ==> b[..|a|][k] == b[k];
  }

  /** No method name starts another, so every name is recognised as its own method. */
  lemma NoneStarts(j: nat, m: nat)
    requires j < m < METHODS
    ensures !StartsWith(MethodName(m), MethodName(j))
  {
    hide MethodName, Signature;
    NameFacts(j);
    NameFacts(m);
    if StartsWith(MethodName(m), MethodName(j)) {
      StartsSigned(j, m);
      SameSignature(j, m);
      NotStarted(j, m);
    }
  }

  lemma {:induction false} NameRecognised(m: nat, j: nat)
    requires j <= m < METHODS
    ensures FirstMethod(MethodName(m), j) == m
    decreases m - j
  {
    hide MethodName;
    if j < m {
      NoneStarts(j, m);
      NameRecognised(m, j + 1);
    }
  }

  /** A text is recognised as a method whose name it starts with, and as none only if there is no such method. */
  lemma {:induction false} FirstMethodIs(text: string, m: nat)
    requires m <= METHODS
    ensures var r := FirstMethod(text, m);
      && m <= r <= INVALID_METHOD
      && (r < METHODS ==> StartsWith(text, MethodName(r)))
      && (r == INVALID_METHOD ==> forall j :: m <= j < METHODS ==> !StartsWith(text, MethodName(j)))
    decreases METHODS - m
  {
    hide MethodName;
    if m < METHODS && !StartsWith(text, MethodName(m)) {
      FirstMethodIs(text, m + 1);
    }
  }
}
