/** The case of letters in header names makes no difference to a whole head. */
module HeaderCase {

  import opened Wrappers
  import opened HttpText
  import opened ResponseAutomaton
  import opened ResponseReader

  /** The character lies in front of the first colon of its line, in the lines from `p` on. */
  predicate Naming(buf: string, p: nat, i: nat)
    requires p <= i < |buf|
    decreases i
  {
    && buf[i] != ':' && buf[i] != LF
    && (i == p || buf[i - 1] == LF || Naming(buf, p, i - 1))
  }

  /** Two heads that differ at most in the case of letters in header names. */
  predicate Twins(a: string, b: string, p: nat) {
    && |a| == |b| && p <= |a|
    && forall i :: p <= i < |a| ==> a[i] == b[i] || (Naming(a, p, i) && Lower(a[i]) == Lower(b[i]))
  }

  /** A letter is a token in either case, and no other character has a case. */
  lemma SameToken(c: char, d: char)
    requires Lower(c) == Lower(d)
    ensures IsToken(c) <==> IsToken(d)
    ensures c == d || (IsToken(c) && c != ':' && d != ':' && c != CR && d != CR && c != LF && d != LF)
  {
  }

  lemma SameChar(a: string, b: string, p: nat, i: nat)
    requires Twins(a, b, p) && p <= i < |a|
    ensures IsToken(a[i]) <==> IsToken(b[i])
    ensures Lower(a[i]) == Lower(b[i])
    ensures a[i] == b[i] || (IsToken(a[i]) && a[i] != CR && a[i] != LF && b[i] != CR && b[i] != LF)
    ensures a[i] == ':' <==> b[i] == ':'
  {
    SameToken(a[i], b[i]);
  }

  lemma {:induction false} SameEnds(a: string, b: string, p: nat, i: nat)
    requires Twins(a, b, p) && p <= i <= |a|
    ensures NameEnd(a, i) == NameEnd(b, i) && BlankEnd(a, i) == BlankEnd(b, i) && TextEnd(a, i) == TextEnd(b, i)
    decreases |a| - i
  {
    if i < |a| {
      SameChar(a, b, p, i);
      SameBlank(a[i], b[i]);
      hide Twins, IsToken, IsBlank, Lower;
      SameEnds(a, b, p, i + 1);
    }
  }

  lemma SameBlank(c: char, d: char)
    requires Lower(c) == Lower(d)
    ensures IsBlank(c) <==> IsBlank(d)
  {
  }

  lemma SameBreak(a: string, b: string, p: nat, i: nat)
    requires Twins(a, b, p) && p <= i <= |a|
    ensures BreakLen(a, i) == BreakLen(b, i)
  {
    if i < |a| {
      SameChar(a, b, p, i);
    }
    if i + 1 < |a| {
      SameChar(a, b, p, i + 1);
    }
    hide Twins, IsToken, Lower;
  }

  /** From a colon to the end of its line nothing is a name. */
  lemma {:induction false} PastColon(a: string, p: nat, n: nat, i: nat)
    requires p <= n <= i < |a| && a[n] == ':'
    requires forall k :: n <= k < i ==> a[k] != LF
    ensures !Naming(a, p, i)
  {
    if n < i {
      PastColon(a, p, n, i - 1);
    }
  }

  lemma SameRest(a: string, b: string, p: nat, n: nat, e: nat)
    requires Twins(a, b, p) && p <= n < e <= |a| && a[n] == ':'
    requires forall k :: n <= k < e - 1 ==> a[k] != LF
    ensures a[n..e] == b[n..e]
  {
    forall i | n <= i < e
      ensures a[i] == b[i]
    {
      PastColon(a, p, n, i);
    }
  }

  lemma SameNames(a: string, b: string, p: nat, n: nat)
    requires Twins(a, b, p) && p <= n <= |a|
    ensures SameName(a[p..n], b[p..n])
  {
    forall i | 0 <= i < n - p
      ensures Lower(a[p..n][i]) == Lower(b[p..n][i])
    {
      SameChar(a, b, p, p + i);
    }
    hide Twins, Lower, IsToken;
  }

  /** The lines behind a line break are twins as well. */
  lemma TwinsBehind(a: string, b: string, p: nat, q: nat)
    requires Twins(a, b, p) && p < q <= |a| && a[q - 1] == LF
    ensures Twins(a, b, q)
  {
    forall i | q <= i < |a| && Naming(a, p, i)
      ensures Naming(a, q, i)
    {
      NamingBehind(a, p, q, i);
    }
  }

  lemma {:induction false} NamingBehind(a: string, p: nat, q: nat, i: nat)
    requires p < q <= i < |a| && a[q - 1] == LF && Naming(a, p, i)
    ensures Naming(a, q, i)
    decreases i
  {
    if i > q && a[i - 1] != LF {
      NamingBehind(a, p, q, i - 1);
    }
  }

  /** The same line but for the case of its name. */
  predicate Alike(x: Line, y: Line) {
    SameName(x.name, y.name) && x.value == y.value && x.at == y.at && x.next == y.next
  }

  /** No line feed from the colon to the end of the value. */
  lemma NoFeed(a: string, n: nat)
    requires n < |a| && a[n] == ':'
    ensures var e := TextEnd(a, BlankEnd(a, n + 1));
      forall k :: n <= k < e ==> a[k] != LF
  {
    var v, b := n + 1, BlankEnd(a, n + 1);
    var e := TextEnd(a, b);
    BlankEndIs(a, v);
    TextEndIs(a, b);
    hide BlankEnd, TextEnd;
    forall k | n < k < e
      ensures a[k] != LF
    {
      if k < b {
        assert a[v..b][k - v] == a[k];
      } else {
        assert a[b..e][k - b] == a[k];
      }
    }
  }

  lemma SameValue(a: string, b: string, p: nat, n: nat, v: nat, e: nat)
    requires Twins(a, b, p) && p <= n < v <= e <= |a| && a[n] == ':' && (forall k :: n <= k < e ==> a[k] != LF)
    ensures a[v..e] == b[v..e]
  {
    SameRest(a, b, p, n, e);
    hide Twins;
    assert a[v..e] == a[n..e][v - n..] && b[v..e] == b[n..e][v - n..];
  }

  /** The reader finds the same line in both, but for the case of its name. */
  lemma SameLine(a: string, b: string, p: nat)
    requires Twins(a, b, p)
    ensures ReadLine(a, p).Some? <==> ReadLine(b, p).Some?
    ensures ReadLine(a, p).Some? ==>
      Alike(ReadLine(a, p).value, ReadLine(b, p).value) && Twins(a, b, ReadLine(a, p).value.next)
  {
    assert |a| == |b| && p <= |a|;
    var n := NameEnd(a, p);
    hide Twins, Lower, LowerAll, IsToken, NameEnd, BlankEnd, TextEnd, BreakLen, KindOf, ReadLine, SameName;
    SameEnds(a, b, p, p);
    if p < n < |a| {
      SameChar(a, b, p, n);
    }
    if p < n < |a| && a[n] == ':' {
      SameNames(a, b, p, n);
      SameKind(a[p..n], b[p..n]);
      SameColon(a, b, p, n);
      LineIs(a, p, n);
      LineIs(b, p, n);
    } else {
      NoLine(a, p, n);
      NoLine(b, p, n);
    }
  }

  lemma NoLine(buf: string, p: nat, n: nat)
    requires p <= |buf| && n == NameEnd(buf, p) && (n <= p || n >= |buf| || buf[n] != ':')
    ensures ReadLine(buf, p) == None
  {
  }

  lemma LineIs(buf: string, p: nat, n: nat)
    requires p < n < |buf| && n == NameEnd(buf, p) && buf[n] == ':'
    ensures var v := BlankEnd(buf, n + 1);
      var e := TextEnd(buf, v);
      var next := e + BreakLen(buf, e);
      ReadLine(buf, p) ==
        if next == e || (KindOf(buf[p..n]) != Plain && v == e) then None else Some(Line(buf[p..n], buf[v..e], v, next))
  {
    hide KindOf;
  }

  lemma SameKind(x: string, y: string)
    requires SameName(x, y)
    ensures KindOf(x) == KindOf(y)
  {
    hide LowerAll;
  }

  lemma SameColon(a: string, b: string, p: nat, n: nat)
    requires Twins(a, b, p) && p < n < |a| && a[n] == ':'
    ensures var v := BlankEnd(a, n + 1);
      var e := TextEnd(a, v);
      && BlankEnd(b, n + 1) == v && TextEnd(b, v) == e && BreakLen(b, e) == BreakLen(a, e) && a[v..e] == b[v..e]
      && (BreakLen(a, e) > 0 ==> Twins(a, b, e + BreakLen(a, e)))
  {
    var v := BlankEnd(a, n + 1);
    var e := TextEnd(a, v);
    assert |a| == |b|;
    hide Twins, BlankEnd, TextEnd, BreakLen, NameEnd;
    SameEnds(a, b, p, n + 1);
    SameEnds(a, b, p, v);
    SameBreak(a, b, p, e);
    NoFeed(a, n);
    SameValue(a, b, p, n, v, e);
    if BreakLen(a, e) > 0 {
      BreakEnds(a, e);
      TwinsBehind(a, b, p, e + BreakLen(a, e));
    }
  }

  lemma BreakEnds(a: string, e: nat)
    requires e <= |a| && BreakLen(a, e) > 0
    ensures a[e + BreakLen(a, e) - 1] == LF
  {
  }

  /** The same holds for a whole head. */
  lemma {:induction false} SameHead(a: string, b: string, p: nat)
    requires Twins(a, b, p)
    ensures ReadHead(a, p).Some? <==> ReadHead(b, p).Some?
    ensures ReadHead(a, p).Some? ==>
      ReadHead(a, p).value.end == ReadHead(b, p).value.end && AllAlike(ReadHead(a, p).value.lines, ReadHead(b, p).value.lines)
    decreases |a| - p
  {
    SameBreak(a, b, p, p);
    SameLine(a, b, p);
    hide Twins, BreakLen, ReadLine, Alike;
    if BreakLen(a, p) == 0 && ReadLine(a, p).Some? {
      var x, y := ReadLine(a, p).value, ReadLine(b, p).value;
      SameHead(a, b, x.next);
      AlikeNext(x, y);
      if ReadHead(a, x.next).Some? {
        MoreAlike(x, y, ReadHead(a, x.next).value.lines, ReadHead(b, x.next).value.lines);
      }
      hide AllAlike;
    }
  }

  lemma AlikeNext(x: Line, y: Line)
    ensures Alike(x, y) ==> x.next == y.next
  {
  }

  predicate AllAlike(xs: seq<Line>, ys: seq<Line>) {
    |xs| == |ys| && forall i :: 0 <= i < |xs| ==> Alike(xs[i], ys[i])
  }

  lemma MoreAlike(x: Line, y: Line, xs: seq<Line>, ys: seq<Line>)
    requires Alike(x, y) && AllAlike(xs, ys)
    ensures AllAlike([x] + xs, [y] + ys)
  {
    hide Alike;
  }

  // --------------------------------------------------------- what they say

  lemma AlikeSay(x: Line, y: Line)
    requires Alike(x, y)
    ensures SaysClose(x) <==> SaysClose(y)
    ensures SaysChunked(x) <==> SaysChunked(y)
    ensures SaysLength(x) <==> SaysLength(y)
  {
    hide LowerAll;
  }

  lemma {:induction false} SameLength(xs: seq<Line>, ys: seq<Line>, before: int)
    requires AllAlike(xs, ys)
    ensures LastLength(xs, before) == LastLength(ys, before)
  {
    if xs != [] {
      AlikeSay(xs[0], ys[0]);
      assert AllAlike(xs[1..], ys[1..]);
      hide SaysLength;
      SameLength(xs[1..], ys[1..], if SaysLength(xs[0]) then ToInt(xs[0].value) else before);
    }
  }

  lemma {:induction false} FieldsLong(xs: seq<Line>)
    ensures |Fields(xs)| == |xs| && forall i :: 0 <= i < |xs| ==> Fields(xs)[i] == Field(xs[i].name, xs[i].value)
  {
    if xs != [] {
      FieldsLong(xs[1..]);
    }
  }

  lemma AllSay(xs: seq<Line>, ys: seq<Line>)
    requires AllAlike(xs, ys)
    ensures (exists i :: 0 <= i < |xs| && SaysClose(xs[i])) <==> (exists i :: 0 <= i < |ys| && SaysClose(ys[i]))
    ensures (exists i :: 0 <= i < |xs| && SaysChunked(xs[i])) <==> (exists i :: 0 <= i < |ys| && SaysChunked(ys[i]))
  {
    forall i | 0 <= i < |xs|
      ensures (SaysClose(xs[i]) <==> SaysClose(ys[i])) && (SaysChunked(xs[i]) <==> SaysChunked(ys[i]))
    {
      AlikeSay(xs[i], ys[i]);
    }
    hide SaysClose, SaysChunked, Alike;
  }

  /** The two results agree in all but the spelling of the names reported. */
  ghost predicate SameResult(before: seq<Event>, x: Machine, y: Machine) {
    && x.bodyStart == y.bodyStart && x.close == y.close && x.chunked == y.chunked && x.contentLen == y.contentLen
    && x.status == y.status && |x.events| == |y.events| && before <= x.events && before <= y.events
    && forall i :: |before| <= i < |x.events| ==>
      x.events[i].Field? && y.events[i].Field? && SameName(x.events[i].name, y.events[i].name) && x.events[i].value == y.events[i].value
  }

  lemma HeadsAgree(m: Machine, x: Machine, y: Machine, s: Head, t: Head)
    requires HeadDone(m, x, s) && HeadDone(m, y, t) && s.end == t.end && AllAlike(s.lines, t.lines)
    ensures SameResult(m.events, x, y)
  {
    AllSay(s.lines, t.lines);
    SameLength(s.lines, t.lines, m.contentLen);
    FieldsLong(s.lines);
    FieldsLong(t.lines);
    hide SaysClose, SaysChunked, LastLength, Fields, SameName;
    forall i | |m.events| <= i < |x.events|
      ensures x.events[i].Field? && y.events[i].Field? && SameName(x.events[i].name, y.events[i].name) && x.events[i].value == y.events[i].value
    {
      assert Alike(s.lines[i - |m.events|], t.lines[i - |m.events|]);
    }
  }

  /**
   If two heads differ at most in the case of letters in header names, the
   automaton finishes on both or on neither, at the same place, with the same
   close, chunked and length, and reports the same values.
   */
  lemma CaseIgnored(m: Machine, a: string, b: string, p: nat)
    requires AtLine(m) && Twins(a, b, p)
    ensures Exec(m, a, p).0.cs == FINAL <==> Exec(m, b, p).0.cs == FINAL
    ensures Exec(m, a, p).0.cs == FINAL ==>
      Exec(m, a, p).1 == Exec(m, b, p).1 && SameResult(m.events, Exec(m, a, p).0, Exec(m, b, p).0)
  {
    assert |a| == |b| && p <= |a|;
    HeadRun(m, a, p);
    HeadRun(m, b, p);
    SameHead(a, b, p);
    hide Exec, ReadHead, HeadDone, SameResult, AllAlike, Twins;
    if ReadHead(a, p).Some? {
      HeadsAgree(m, Exec(m, a, p).0, Exec(m, b, p).0, ReadHead(a, p).value, ReadHead(b, p).value);
    }
  }
}
