/** What the line reader finds in printed header lines. */
module PrintedText {

  import opened Wrappers
  import opened HttpText
  import opened HttpMessage
  import opened ResponseAutomaton
  import opened ResponseReader

  lemma {:induction false} NameEndAt(buf: string, p: nat, e: nat)
    requires p <= e <= |buf| && (e < |buf| ==> !IsToken(buf[e]))
    requires forall i :: p <= i < e ==> IsToken(buf[i])
    ensures NameEnd(buf, p) == e
    decreases e - p
  {
    if p < e {
      NameEndAt(buf, p + 1, e);
    }
  }

  lemma {:induction false} BlankEndAt(buf: string, p: nat, e: nat)
    requires p <= e <= |buf| && (e < |buf| ==> !IsBlank(buf[e]))
    requires forall i :: p <= i < e ==> IsBlank(buf[i])
    ensures BlankEnd(buf, p) == e
    decreases e - p
  {
    if p < e {
      BlankEndAt(buf, p + 1, e);
    }
  }

  lemma {:induction false} TextEndAt(buf: string, p: nat, e: nat)
    requires p <= e < |buf| && buf[e] == CR
    requires forall i :: p <= i < e ==> buf[i] != CR && buf[i] != LF
    ensures TextEnd(buf, p) == e
    decreases e - p
  {
    if p < e {
      TextEndAt(buf, p + 1, e);
    }
  }

  /** A line that the reader gives back as it was printed. */
  predicate Clean(line: HeaderLine) {
    && line.name != "" && AllTokens(line.name) && AllBlank(line.pad) && OneLine(line.value)
    && (line.value != "" ==> !IsBlank(line.value[0]))
    && (KindOf(line.name) != Plain ==> line.value != "")
  }

  lemma LineAt(buf: string, p: nat, line: HeaderLine)
    requires Clean(line) && At(buf, p, LineText(line))
    ensures BreakLen(buf, p) == 0
    ensures ReadLine(buf, p)
      == Some(Line(line.name, line.value, p + |line.name| + 1 + |line.pad|, p + |LineText(line)|))
  {
    hide *;
    PartsAt(buf, p, line);
    PartsIn(buf, p, line);
    var n := p + |line.name|;
    var b := n + 1 + |line.pad|;
    var e := b + |line.value|;
    EndsAt(buf, p, line, n, b, e);
    ReadLineIs(buf, p, n, b, e);
  }

  lemma PartsIn(buf: string, p: nat, line: HeaderLine)
    requires Clean(line)
    requires var n := p + |line.name|;
      var b := n + 1 + |line.pad|;
      At(buf, p, line.name) && At(buf, b, line.value)
    ensures var n := p + |line.name|;
      var b := n + 1 + |line.pad|;
      var e := b + |line.value|;
      && e <= |buf| && buf[p..n] == line.name && buf[b..e] == line.value && p < n
      && (KindOf(line.name) == Plain || b < e)
  {
    hide KindOf, AllTokens, AllBlank, OneLine;
  }

  lemma ReadLineIs(buf: string, p: nat, n: nat, b: nat, e: nat)
    requires p < n < |buf| && buf[n] == ':' && n + 1 <= b <= e <= |buf|
    requires NameEnd(buf, p) == n && BlankEnd(buf, n + 1) == b && TextEnd(buf, b) == e && BreakLen(buf, e) > 0
    requires KindOf(buf[p..n]) == Plain || b < e
    ensures ReadLine(buf, p) == Some(Line(buf[p..n], buf[b..e], b, e + BreakLen(buf, e)))
  {
    hide KindOf, NameEnd, BlankEnd, TextEnd;
  }

  lemma NameEndsAt(buf: string, p: nat, name: string)
    requires name != "" && AllTokens(name) && At(buf, p, name) && At(buf, p + |name|, ":")
    ensures NameEnd(buf, p) == p + |name| && BreakLen(buf, p) == 0 && buf[p + |name|] == ':'
  {
    var n := p + |name|;
    AtIndex(buf, n, ":", 0);
    forall i | p <= i < n ensures IsToken(buf[i]) {
      AtIndex(buf, p, name, i - p);
    }
    NameEndAt(buf, p, n);
    assert IsToken(buf[p]);
  }

  lemma BlankEndsAt(buf: string, v: nat, pad: string, value: string)
    requires AllBlank(pad) && OneLine(value) && (value != "" ==> !IsBlank(value[0]))
    requires At(buf, v, pad) && At(buf, v + |pad|, value) && At(buf, v + |pad| + |value|, CRLF)
    ensures BlankEnd(buf, v) == v + |pad|
  {
    var b := v + |pad|;
    forall i | v <= i < b ensures IsBlank(buf[i]) {
      AtIndex(buf, v, pad, i - v);
    }
    if value != "" {
      AtIndex(buf, b, value, 0);
    } else {
      AtIndex(buf, b, CRLF, 0);
    }
    BlankEndAt(buf, v, b);
  }

  lemma TextEndsAt(buf: string, b: nat, value: string)
    requires OneLine(value) && At(buf, b, value) && At(buf, b + |value|, CRLF)
    ensures TextEnd(buf, b) == b + |value| && BreakLen(buf, b + |value|) == 2
  {
    var e := b + |value|;
    AtIndex(buf, e, CRLF, 0);
    AtIndex(buf, e, CRLF, 1);
    forall i | b <= i < e ensures buf[i] != CR && buf[i] != LF {
      AtIndex(buf, b, value, i - b);
    }
    TextEndAt(buf, b, e);
  }

  lemma CleanParts(line: HeaderLine)
    ensures Clean(line) ==>
      && line.name != "" && AllTokens(line.name) && AllBlank(line.pad) && OneLine(line.value)
      && (line.value != "" ==> !IsBlank(line.value[0]))
  {
    hide KindOf, AllTokens, AllBlank, OneLine;
  }

  lemma EndsAt(buf: string, p: nat, line: HeaderLine, n: nat, b: nat, e: nat)
    requires Clean(line) && n == p + |line.name| && b == n + 1 + |line.pad| && e == b + |line.value|
    requires At(buf, p, line.name) && At(buf, n, ":") && At(buf, n + 1, line.pad)
    requires At(buf, b, line.value) && At(buf, e, CRLF)
    ensures n < |buf| && NameEnd(buf, p) == n && BlankEnd(buf, n + 1) == b && TextEnd(buf, b) == e
    ensures BreakLen(buf, e) == 2 && BreakLen(buf, p) == 0 && buf[n] == ':'
  {
    hide *;
    CleanParts(line);
    NameEndsAt(buf, p, line.name);
    BlankEndsAt(buf, n + 1, line.pad, line.value);
    TextEndsAt(buf, b, line.value);
  }

  predicate Same(read: seq<Line>, lines: seq<HeaderLine>) {
    |read| == |lines| && forall i :: 0 <= i < |lines| ==> read[i].name == lines[i].name && read[i].value == lines[i].value
  }

  lemma ReadHeadStep(buf: string, p: nat, line: Line)
    requires p <= |buf| && BreakLen(buf, p) == 0 && ReadLine(buf, p) == Some(line)
    requires line.next <= |buf| && ReadHead(buf, line.next).Some?
    ensures ReadHead(buf, p)
      == Some(Head([line] + ReadHead(buf, line.next).value.lines, ReadHead(buf, line.next).value.end))
  {
    hide ReadLine, BreakLen;
  }

  lemma EmptyHeadAt(buf: string, p: nat)
    requires At(buf, p, CRLF)
    ensures ReadHead(buf, p) == Some(Head([], p + 2))
  {
    AtIndex(buf, p, CRLF, 0);
    AtIndex(buf, p, CRLF, 1);
  }

  /** The reader finds exactly the printed lines. */
  lemma {:induction false} HeadAt(buf: string, p: nat, lines: seq<HeaderLine>)
    requires forall i :: 0 <= i < |lines| ==> Clean(lines[i])
    requires At(buf, p, LineTexts(lines) + CRLF)
    ensures p <= |buf| && ReadHead(buf, p).Some?
    ensures ReadHead(buf, p).value.end == p + |LineTexts(lines)| + 2
    ensures Same(ReadHead(buf, p).value.lines, lines)
    decreases |lines|
  {
    if lines == [] {
      assert LineTexts(lines) + CRLF == CRLF;
      EmptyHeadAt(buf, p);
    } else {
      hide LineText, LineTexts, ReadHead, At, Clean, Same, ReadLine, BreakLen;
      MoreHeadAt(buf, p, lines);
      HeadAt(buf, p + |LineText(lines[0])|, lines[1..]);
      SameMore(buf, p, lines);
    }
  }

  lemma MoreHeadAt(buf: string, p: nat, lines: seq<HeaderLine>)
    requires lines != [] && Clean(lines[0]) && At(buf, p, LineTexts(lines) + CRLF)
    ensures p + |LineText(lines[0])| <= |buf| && BreakLen(buf, p) == 0
    ensures At(buf, p + |LineText(lines[0])|, LineTexts(lines[1..]) + CRLF)
    ensures ReadLine(buf, p).Some?
    ensures var line := ReadLine(buf, p).value;
      line.name == lines[0].name && line.value == lines[0].value && line.next == p + |LineText(lines[0])|
    ensures |LineTexts(lines)| == |LineText(lines[0])| + |LineTexts(lines[1..])|
  {
    hide LineText, LineTexts, ReadLine, BreakLen, Clean;
    FirstLine(lines);
    Assoc(LineText(lines[0]), LineTexts(lines[1..]), CRLF);
    AtSplit(buf, p, LineText(lines[0]), LineTexts(lines[1..]) + CRLF);
    LineAt(buf, p, lines[0]);
  }

  lemma SameMore(buf: string, p: nat, lines: seq<HeaderLine>)
    requires lines != [] && p + |LineText(lines[0])| <= |buf| && BreakLen(buf, p) == 0
    requires ReadLine(buf, p).Some?
    requires var line := ReadLine(buf, p).value;
      line.name == lines[0].name && line.value == lines[0].value && line.next == p + |LineText(lines[0])|
    requires ReadHead(buf, p + |LineText(lines[0])|).Some?
    requires Same(ReadHead(buf, p + |LineText(lines[0])|).value.lines, lines[1..])
    ensures ReadHead(buf, p).Some?
    ensures ReadHead(buf, p).value.end == ReadHead(buf, p + |LineText(lines[0])|).value.end
    ensures Same(ReadHead(buf, p).value.lines, lines)
  {
    ReadHeadStep(buf, p, ReadLine(buf, p).value);
    hide LineText, ReadLine, ReadHead, BreakLen;
  }

  /**
   If every line is a name of tokens, a colon, blanks, a value and a line
   break, the automaton reports exactly the lines, in order, and stops behind
   the empty line.
   */
  lemma LinesReported(m: Machine, buf: string, p: nat, lines: seq<HeaderLine>)
    requires AtLine(m) && forall i :: 0 <= i < |lines| ==> Clean(lines[i])
    requires At(buf, p, LineTexts(lines) + CRLF)
    ensures p <= |buf| && ReadHead(buf, p).Some?
    ensures var head := ReadHead(buf, p).value;
      && Same(head.lines, lines) && head.end == p + |LineTexts(lines)| + 2
      && Exec(m, buf, p).1 == head.end && HeadDone(m, Exec(m, buf, p).0, head)
  {
    HeadAt(buf, p, lines);
    hide *;
    HeadRun(m, buf, p);
  }
}
