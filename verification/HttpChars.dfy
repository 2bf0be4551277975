/** The character classes of the automata, compared with lists of their characters. */
module HttpChars {

  import opened HttpText
  import opened RequestAutomaton

  const DIGITS := "0123456789"
  const LETTERS := "abcdefghijklmnopqrstuvwxyz"
  const CAPITALS := "ABCDEFGHIJKLMNOPQRSTUVWXYZ"

  predicate IsLetter(c: char) {
    c in LETTERS || c in CAPITALS
  }

  lemma DigitClass(c: char)
    ensures c in DIGITS <==> IsDigit(c)
  {
    if IsDigit(c) {
      assert DIGITS[c as int - '0' as int] == c;
    }
  }

  lemma LettersAre(c: char)
    ensures c in LETTERS <==> 'a' <= c <= 'z'
  {
    if 'a' <= c <= 'z' {
      assert LETTERS[c as int - 'a' as int] == c;
    }
  }

  lemma CapitalsAre(c: char)
    ensures c in CAPITALS <==> 'A' <= c <= 'Z'
  {
    if 'A' <= c <= 'Z' {
      assert CAPITALS[c as int - 'A' as int] == c;
    }
  }

  /** The token characters of section 3.2.6 of RFC 7230, no more and no fewer. */
  lemma TokenClass(c: char)
    ensures IsToken(c) <==> c in "!#$%&'*+-.^_`|~" || c in DIGITS || IsLetter(c)
  {
    DigitClass(c);
    LettersAre(c);
    CapitalsAre(c);
  }

  /** Capitals are paired with their letters, and nothing else changes. */
  lemma LowerPairs(i: nat, c: char)
    requires i < 26
    ensures |LETTERS| == |CAPITALS| == 26 && Lower(CAPITALS[i]) == LETTERS[i]
    ensures c !in CAPITALS ==> Lower(c) == c
  {
    CapitalsAre(c);
    assert CAPITALS[i] as int == 'A' as int + i;
    assert LETTERS[i] as int == 'a' as int + i;
  }

  /** What the response automaton skips in front of a value: the space and codes 9, 11 and 12. */
  lemma BlankClass(c: char)
    ensures IsBlank(c) <==> c as int in {9, 11, 12, 32}
  {
  }

  lemma MethodClass(c: char)
    ensures IsMethodChar(c) <==> c in DIGITS || c in CAPITALS
  {
    DigitClass(c);
    CapitalsAre(c);
  }

  lemma HexClass(c: char)
    ensures IsHex(c) <==> c in "0123456789ABCDEFabcdef"
  {
  }

  /** The characters of a path that stand for themselves; a query or fragment may also hold question marks. */
  lemma PathClass(c: char)
    ensures IsPathChar(c) <==> c in "!$&'()*+,-./:;=@_~" || c in DIGITS || IsLetter(c)
    ensures IsQueryChar(c) <==> IsPathChar(c) || c == '?'
  {
    DigitClass(c);
    LettersAre(c);
    CapitalsAre(c);
  }

  /** A request's header names: token characters, and control characters but tab, delete and nul. */
  lemma NameClass(c: char)
    ensures IsNameChar(c) <==> IsToken(c) || (0 < c as int < 32 && c != '\t')
  {
  }

  lemma RelaxedClass(c: char)
    ensures IsRelaxed(c) <==> c in "^{}"
  {
  }
}
