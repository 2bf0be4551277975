/**
 A plain reader of response header lines, and the proof that the automaton
 with its three keyword tries does exactly what the reader does.
 */
module ResponseReader {

  import opened Wrappers
  import opened HttpText
  import opened ResponseAutomaton

  datatype Kind = Plain | Connection | Transfer | Length

  function KindOf(name: string): Kind {
    if SameName(name, CONNECTION) then Connection
    else if SameName(name, TRANSFER_ENCODING) then Transfer
    else if SameName(name, CONTENT_LENGTH) then Length
    else Plain
  }

  // ------------------------------------------------------------- the reader

  /** The end of the token characters from a position on. */
  function NameEnd(buf: string, p: nat): (e: nat)
    requires p <= |buf|
    ensures p <= e <= |buf|
    decreases |buf| - p
  {
    if p == |buf| || !IsToken(buf[p]) then p else NameEnd(buf, p + 1)
  }

  function BlankEnd(buf: string, p: nat): (e: nat)
    requires p <= |buf|
    ensures p <= e <= |buf|
    decreases |buf| - p
  {
    if p == |buf| || !IsBlank(buf[p]) then p else BlankEnd(buf, p + 1)
  }

  /** The next carriage return or line feed. */
  function TextEnd(buf: string, p: nat): (e: nat)
    requires p <= |buf|
    ensures p <= e <= |buf|
    decreases |buf| - p
  {
    if p == |buf| || buf[p] == CR || buf[p] == LF then p else TextEnd(buf, p + 1)
  }

  lemma {:induction false} NameEndIs(buf: string, p: nat)
    requires p <= |buf|
    ensures AllTokens(buf[p..NameEnd(buf, p)])
    ensures NameEnd(buf, p) < |buf| ==> !IsToken(buf[NameEnd(buf, p)])
    decreases |buf| - p
  {
    if p < |buf| && IsToken(buf[p]) {
      NameEndIs(buf, p + 1);
      assert buf[p..NameEnd(buf, p)] == [buf[p]] + buf[p + 1..NameEnd(buf, p)];
    }
  }

  lemma {:induction false} BlankEndIs(buf: string, p: nat)
    requires p <= |buf|
    ensures AllBlank(buf[p..BlankEnd(buf, p)])
    ensures BlankEnd(buf, p) < |buf| ==> !IsBlank(buf[BlankEnd(buf, p)])
    decreases |buf| - p
  {
    if p < |buf| && IsBlank(buf[p]) {
      BlankEndIs(buf, p + 1);
      assert buf[p..BlankEnd(buf, p)] == [buf[p]] + buf[p + 1..BlankEnd(buf, p)];
    }
  }

  lemma {:induction false} TextEndIs(buf: string, p: nat)
    requires p <= |buf|
    ensures OneLine(buf[p..TextEnd(buf, p)])
    ensures TextEnd(buf, p) < |buf| ==> buf[TextEnd(buf, p)] == CR || buf[TextEnd(buf, p)] == LF
    decreases |buf| - p
  {
    if p < |buf| && buf[p] != CR && buf[p] != LF {
      TextEndIs(buf, p + 1);
      assert buf[p..TextEnd(buf, p)] == [buf[p]] + buf[p + 1..TextEnd(buf, p)];
    }
  }

  /** A line read: its name and value, where the value starts, and where the next line starts. */
  datatype Line = Line(name: string, value: string, at: nat, next: nat)

  /** One line: a name of tokens, a colon, blanks, the value, and the line break; keywords need a value. */
  function ReadLine(buf: string, p: nat): (line: Option<Line>)
    requires p <= |buf|
    ensures line.Some? ==> p < line.value.next <= |buf|
  {
    var n := NameEnd(buf, p);
    if n == p || n == |buf| || buf[n] != ':' then None
    else
      var b := BlankEnd(buf, n + 1);
      var e := TextEnd(buf, b);
      if BreakLen(buf, e) == 0 || (KindOf(buf[p..n]) != Plain && b == e) then None
      else Some(Line(buf[p..n], buf[b..e], b, e + BreakLen(buf, e)))
  }

  datatype Head = Head(lines: seq<Line>, end: nat)

  /** All lines up to the empty one, and where the head ends. */
  function ReadHead(buf: string, p: nat): (head: Option<Head>)
    requires p <= |buf|
    ensures head.Some? ==> head.value.end <= |buf|
    decreases |buf| - p
  {
    if BreakLen(buf, p) > 0 then Some(Head([], p + BreakLen(buf, p)))
    else match ReadLine(buf, p)
      case None => None
      case Some(line) =>
        match ReadHead(buf, line.next)
        case None => None
        case Some(rest) => Some(Head([line] + rest.lines, rest.end))
  }

  function Fields(lines: seq<Line>): seq<Event> {
    if lines == [] then [] else [Field(lines[0].name, lines[0].value)] + Fields(lines[1..])
  }

  predicate SaysClose(line: Line) {
    KindOf(line.name) == Connection && SameName(line.value, CLOSE)
  }

  predicate SaysChunked(line: Line) {
    KindOf(line.name) == Transfer && SameName(line.value, CHUNKED)
  }

  predicate SaysLength(line: Line) {
    KindOf(line.name) == Length && AllDigits(line.value)
  }

  /** The last content length among the lines, or the one known before. */
  function LastLength(lines: seq<Line>, before: int): int {
    if lines == [] then before
    else LastLength(lines[1..], if SaysLength(lines[0]) then ToInt(lines[0].value) else before)
  }

  // ----------------------------------------------------- the tries explained

  /** A prefix of a keyword, ignoring case. */
  predicate Spells(w: string, keyword: string) {
    |w| <= |keyword| && LowerAll(w) == keyword[..|w|]
  }

  /** The trie node that a name read so far leads to. */
  function NameState(w: string): nat {
    if Spells(w, CONNECTION) then 24 + |w|
    else if Spells(w, TRANSFER_ENCODING) then 43 + |w|
    else if |w| >= 4 && Spells(w, CONTENT_LENGTH) then 97 + |w|
    else 21
  }

  function BlankState(kind: Kind): nat {
    match kind
    case Plain => 22
    case Connection => 35
    case Transfer => 61
    case Length => 112
  }

  /** The state after the first characters of a value. */
  function TextState(kind: Kind, x: string): nat {
    match kind
    case Plain => 23
    case Connection => if Spells(x, CLOSE) then 95 + |x| else 23
    case Transfer => if Spells(x, CHUNKED) then 80 + |x| else 23
    case Length => if AllDigits(x) then 119 else 23
  }

  lemma SpellsNext(w: string, c: char, keyword: string)
    ensures Spells(w + [c], keyword) <==> |w| < |keyword| && Spells(w, keyword) && Lower(c) == keyword[|w|]
  {
    if |w| < |keyword| {
      assert LowerAll(w + [c]) == LowerAll(w) + [Lower(c)];
      assert keyword[..|w| + 1] == keyword[..|w|] + [keyword[|w|]];
      if Spells(w + [c], keyword) {
        assert LowerAll(w + [c])[..|w|] == LowerAll(w);
        assert LowerAll(w + [c])[|w|] == Lower(c);
      }
    }
  }

  lemma NameStep(w: string, c: char)
    requires w != "" && IsToken(c)
    ensures NameNext(NameState(w), c) == NameState(w + [c])
    ensures InName(NameState(w))
  {
    SpellsNext(w, c, CONNECTION);
    SpellsNext(w, c, TRANSFER_ENCODING);
    SpellsNext(w, c, CONTENT_LENGTH);
    Distinct(w);
    hide LowerAll, IsToken;
  }

  /** The keywords part ways at their first or fourth character. */
  lemma Distinct(w: string)
    requires w != ""
    ensures !(Spells(w, CONNECTION) && Spells(w, TRANSFER_ENCODING))
    ensures !(Spells(w, CONTENT_LENGTH) && Spells(w, TRANSFER_ENCODING))
    ensures |w| <= 3 ==> (Spells(w, CONNECTION) <==> Spells(w, CONTENT_LENGTH))
    ensures |w| >= 4 ==> !(Spells(w, CONNECTION) && Spells(w, CONTENT_LENGTH))
  {
    if Spells(w, CONNECTION) || Spells(w, CONTENT_LENGTH) || Spells(w, TRANSFER_ENCODING) {
      assert LowerAll(w)[0] == Lower(w[0]);
      if |w| >= 4 {
        assert LowerAll(w)[3] == Lower(w[3]);
      }
    }
    assert CONNECTION[..3] == CONTENT_LENGTH[..3];
    if |w| <= 3 {
      assert CONNECTION[..|w|] == CONNECTION[..3][..|w|];
      assert CONTENT_LENGTH[..|w|] == CONTENT_LENGTH[..3][..|w|];
    }
  }

  lemma FirstStep(c: char)
    requires IsToken(c)
    ensures LineNext(c) == NameState([c])
  {
    SpellsNext("", c, CONNECTION);
    SpellsNext("", c, TRANSFER_ENCODING);
    assert "" + [c] == [c];
  }

  /** At the colon the trie knows which keyword the name is. */
  lemma ColonStep(w: string)
    requires w != ""
    ensures NameNext(NameState(w), ':') == BlankState(KindOf(w)) && InName(NameState(w))
  {
    Distinct(w);
    SpelledOut(w, CONNECTION);
    SpelledOut(w, TRANSFER_ENCODING);
    SpelledOut(w, CONTENT_LENGTH);
  }

  lemma SpelledOut(w: string, keyword: string)
    requires LowerAll(keyword) == keyword
    ensures SameName(w, keyword) <==> |w| == |keyword| && Spells(w, keyword)
  {
  }

  lemma TextStep(kind: Kind, x: string, c: char)
    requires x != "" && c != CR && c != LF
    ensures InText(TextState(kind, x)) && ValueNext(TextState(kind, x), c) == TextState(kind, x + [c])
  {
    SpellsNext(x, c, CLOSE);
    SpellsNext(x, c, CHUNKED);
    assert AllDigits(x + [c]) <==> AllDigits(x) && IsDigit(c) by {
      assert (x + [c])[|x|] == c;
      assert AllDigits(x + [c]) ==> AllDigits((x + [c])[..|x|]);
    }
  }

  lemma FirstTextStep(kind: Kind, c: char)
    requires !IsBlank(c) && c != CR && c != LF
    ensures ValueNext(BlankState(kind), c) == TextState(kind, [c])
  {
    SpellsNext("", c, CLOSE);
    SpellsNext("", c, CHUNKED);
    assert "" + [c] == [c];
  }

  // ------------------------------------------------------------------- runs

  lemma NameOne(m: Machine, buf: string, start: nat, p: nat)
    requires start < p < |buf| && IsToken(buf[p]) && m.cs == NameState(buf[start..p])
    ensures Exec(m, buf, p) == Exec(m.(cs := NameState(buf[start..p + 1])), buf, p + 1)
  {
    hide NameState, NameNext, Exec, Step, IsToken;
    assert buf[start..p + 1] == buf[start..p] + [buf[p]];
    NameStep(buf[start..p], buf[p]);
    StepName(m, buf, p);
  }

  lemma {:induction false} NameRun(m: Machine, buf: string, start: nat, p: nat, end: nat)
    requires start < p <= end <= |buf| && AllTokens(buf[start..end])
    requires m.cs == NameState(buf[start..p])
    ensures Exec(m, buf, p) == Exec(m.(cs := NameState(buf[start..end])), buf, end)
    decreases end - p
  {
    hide NameState, Exec, IsToken;
    if p < end {
      assert buf[p] == buf[start..end][p - start];
      NameOne(m, buf, start, p);
      NameRun(m.(cs := NameState(buf[start..p + 1])), buf, start, p + 1, end);
    }
  }

  /** A name character only changes the state. */
  lemma StepName(m: Machine, buf: string, p: nat)
    requires p < |buf| && InName(m.cs) && IsToken(buf[p])
    ensures NameNext(m.cs, buf[p]) != ERROR && Step(m, buf, p) == m.(cs := NameNext(m.cs, buf[p]))
    ensures Exec(m, buf, p) == Exec(Step(m, buf, p), buf, p + 1)
  {
  }

  lemma StepBlank(m: Machine, buf: string, p: nat, kind: Kind)
    requires p < |buf| && IsBlank(buf[p]) && m.cs == BlankState(kind)
    ensures Exec(m, buf, p) == Exec(m.(mark := p), buf, p + 1)
  {
  }

  lemma {:induction false} BlankRun(m: Machine, buf: string, p: nat, end: nat, kind: Kind)
    requires p <= end <= |buf| && AllBlank(buf[p..end]) && m.cs == BlankState(kind)
    ensures Exec(m, buf, p) == Exec(m.(mark := if p < end then end - 1 else m.mark), buf, end)
    decreases end - p
  {
    if p < end {
      assert buf[p] == buf[p..end][0];
      assert AllBlank(buf[p + 1..end]) by {
        assert buf[p + 1..end] == buf[p..end][1..];
      }
      StepBlank(m, buf, p, kind);
      hide Exec, Step, AllBlank;
      BlankRun(m.(mark := p), buf, p + 1, end, kind);
    }
  }

  lemma StepText(m: Machine, buf: string, p: nat)
    requires p < |buf| && InText(m.cs) && buf[p] != CR && buf[p] != LF
    ensures Step(m, buf, p) == m.(cs := ValueNext(m.cs, buf[p]))
    ensures Exec(m, buf, p) == Exec(Step(m, buf, p), buf, p + 1)
  {
  }

  lemma TextOne(m: Machine, buf: string, start: nat, p: nat, kind: Kind)
    requires start < p < |buf| && buf[p] != CR && buf[p] != LF && m.cs == TextState(kind, buf[start..p])
    ensures Exec(m, buf, p) == Exec(m.(cs := TextState(kind, buf[start..p + 1])), buf, p + 1)
  {
    hide TextState, ValueNext, Exec, Step;
    assert buf[start..p + 1] == buf[start..p] + [buf[p]];
    TextStep(kind, buf[start..p], buf[p]);
    StepText(m, buf, p);
  }

  lemma {:induction false} TextRun(m: Machine, buf: string, start: nat, p: nat, end: nat, kind: Kind)
    requires start < p <= end <= |buf| && OneLine(buf[start..end])
    requires m.cs == TextState(kind, buf[start..p])
    ensures Exec(m, buf, p) == Exec(m.(cs := TextState(kind, buf[start..end])), buf, end)
    decreases end - p
  {
    hide TextState, Exec;
    if p < end {
      assert buf[p] == buf[start..end][p - start];
      TextOne(m, buf, start, p, kind);
      TextRun(m.(cs := TextState(kind, buf[start..p + 1])), buf, start, p + 1, end, kind);
    }
  }

  predicate AtLine(m: Machine) {
    m.cs == 20 || m.cs == 43
  }

  /** The machine after the name at `p` and its colon. */
  function Named(m: Machine, p: nat, name: string): Machine {
    m.(cs := BlankState(KindOf(name)), close := m.close || m.cs == 43, fieldStart := p, fieldLen := |name|)
  }

  lemma NameAndColon(m: Machine, buf: string, p: nat, n: nat)
    requires AtLine(m) && 0 < n && p + n < |buf| && AllTokens(buf[p..p + n]) && buf[p + n] == ':'
    ensures Exec(m, buf, p) == Exec(Named(m, p, buf[p..p + n]), buf, p + n + 1)
  {
    hide NameState, NameNext, KindOf, Exec, Step, BlankState, InName, AllTokens, AtLine, IsToken;
    NameToEnd(m, buf, p, n);
    ColonStep(buf[p..p + n]);
    StepColon(m.(cs := NameState(buf[p..p + n]), close := m.close || m.cs == 43, fieldStart := p), buf, p + n);
  }

  lemma StepColon(m: Machine, buf: string, p: nat)
    requires p < |buf| && InName(m.cs) && buf[p] == ':' && m.fieldStart <= p
    ensures NameNext(m.cs, ':') != ERROR
    ensures Exec(m, buf, p) == Exec(m.(cs := NameNext(m.cs, ':'), fieldLen := p - m.fieldStart), buf, p + 1)
  {
  }

  lemma NameToEnd(m: Machine, buf: string, p: nat, n: nat)
    requires AtLine(m) && 0 < n && p + n <= |buf| && AllTokens(buf[p..p + n])
    ensures Exec(m, buf, p)
         == Exec(m.(cs := NameState(buf[p..p + n]), close := m.close || m.cs == 43, fieldStart := p), buf, p + n)
  {
    var c := buf[p];
    assert c == buf[p..p + n][0];
    assert buf[p..p + 1] == [c];
    FirstStep(c);
    var m1 := Step(m, buf, p);
    assert m1 == m.(cs := LineNext(c), close := m.close || m.cs == 43, fieldStart := p);
    NameRun(m1, buf, p, p + 1, p + n);
  }

  /** Blanks and the text of a value. */
  lemma ValueRun(m: Machine, buf: string, v: nat, b: nat, e: nat, kind: Kind)
    requires v <= b < e <= |buf| && m.cs == BlankState(kind)
    requires AllBlank(buf[v..b]) && !IsBlank(buf[b]) && OneLine(buf[b..e])
    ensures Exec(m, buf, v) == Exec(m.(cs := TextState(kind, buf[b..e]), mark := b), buf, e)
  {
    BlankRun(m, buf, v, b, kind);
    FirstText(m.(mark := if v < b then b - 1 else m.mark), buf, b, e, kind);
    hide *;
  }

  lemma FirstText(m: Machine, buf: string, b: nat, e: nat, kind: Kind)
    requires b < e <= |buf| && m.cs == BlankState(kind) && !IsBlank(buf[b]) && OneLine(buf[b..e])
    ensures Exec(m, buf, b) == Exec(m.(cs := TextState(kind, buf[b..e]), mark := b), buf, e)
  {
    assert buf[b] == buf[b..e][0];
    StepFirstText(m, buf, b, kind);
    assert buf[b..b + 1] == [buf[b]];
    TextRun(m.(cs := TextState(kind, [buf[b]]), mark := b), buf, b, b + 1, e, kind);
    hide *;
  }

  lemma StepFirstText(m: Machine, buf: string, p: nat, kind: Kind)
    requires p < |buf| && m.cs == BlankState(kind) && !IsBlank(buf[p]) && buf[p] != CR && buf[p] != LF
    ensures Exec(m, buf, p) == Exec(m.(cs := TextState(kind, [buf[p]]), mark := p), buf, p + 1)
  {
    FirstTextStep(kind, buf[p]);
    FirstInText(kind, buf[p]);
    hide TextState;
  }

  lemma FirstInText(kind: Kind, c: char)
    ensures InText(TextState(kind, [c]))
  {
  }

  // -------------------------------------------------------------- line ends

  /** The machine after a whole line whose value is `buf[b..e]`. */
  function Ended(m: Machine, kind: Kind, name: string, value: string, b: nat): Machine {
    m.(cs := if kind == Connection && SameName(value, CLOSE) then 43 else 20,
       mark := b,
       chunked := m.chunked || (kind == Transfer && SameName(value, CHUNKED)),
       contentLen := if kind == Length && AllDigits(value) then ToInt(value) else m.contentLen,
       events := m.events + [Field(name, value)])
  }

  /** Which keyword value a text state stands for. */
  lemma TextStateMeans(kind: Kind, x: string)
    requires x != ""
    ensures InText(TextState(kind, x))
    ensures TextState(kind, x) == 100 <==> kind == Connection && SameName(x, CLOSE)
    ensures TextState(kind, x) == 87 <==> kind == Transfer && SameName(x, CHUNKED)
    ensures TextState(kind, x) == 119 <==> kind == Length && AllDigits(x)
  {
    SpelledOut(x, CLOSE);
    SpelledOut(x, CHUNKED);
  }

  /** The character at a line break, in a state of a text or of the blanks before it. */
  lemma BreakChar(m: Machine, buf: string, e: nat)
    requires e < |buf| && (InText(m.cs) || InBlanks(m.cs)) && (buf[e] == CR || buf[e] == LF)
    ensures ValueNext(m.cs, buf[e]) != ERROR
    ensures Exec(m, buf, e) == Exec(ValueAct(m, buf, e).(cs := ValueNext(m.cs, buf[e])), buf, e + 1)
  {
    assert ValueNext(m.cs, buf[e]) != ERROR;
    hide ValueNext, ValueAct;
  }

  /** The line feed after a carriage return. */
  lemma EndChar(m: Machine, buf: string, e: nat)
    requires e < |buf| && (m.cs == 24 || m.cs == 71 || m.cs == 88) && buf[e] == LF
    ensures Exec(m, buf, e)
         == Exec(m.(cs := if m.cs == 88 then 43 else 20, chunked := m.chunked || m.cs == 71), buf, e + 1)
  {
    hide ValueNext, ValueAct, NameNext, StatusNext, StatusAct;
  }

  /** The actions on a line break after a text. */
  lemma TextActs(m: Machine, buf: string, b: nat, e: nat, kind: Kind, name: string)
    requires b < e < |buf| && m.cs == TextState(kind, buf[b..e]) && m.mark == b
    requires Slice(buf, m.fieldStart, m.fieldStart + m.fieldLen) == name && (buf[e] == CR || buf[e] == LF)
    ensures InText(m.cs)
    ensures var n := ValueAct(m, buf, e).(cs := ValueNext(m.cs, buf[e]));
      var done := Ended(m, kind, name, buf[b..e], b);
      if buf[e] == LF then n == done
      else
        && (n.cs == 24 || n.cs == 71 || n.cs == 88)
        && n.(cs := if n.cs == 88 then 43 else 20, chunked := n.chunked || n.cs == 71) == done
  {
    TextStateMeans(kind, buf[b..e]);
    hide TextState, SameName, ToInt, AllDigits, IsDigit, IsBlank, Lower;
  }

  /** The value is complete when the line break begins; what a whole break does. */
  lemma TextBreak(m: Machine, buf: string, b: nat, e: nat, kind: Kind, name: string)
    requires b < e <= |buf| && m.cs == TextState(kind, buf[b..e]) && m.mark == b
    requires Slice(buf, m.fieldStart, m.fieldStart + m.fieldLen) == name
    requires BreakLen(buf, e) > 0
    ensures Exec(m, buf, e) == Exec(Ended(m, kind, name, buf[b..e], b), buf, e + BreakLen(buf, e))
  {
    hide Exec, Slice, ValueAct, ValueNext, Ended, TextState, InText;
    TextActs(m, buf, b, e, kind, name);
    BreakChar(m, buf, e);
    if buf[e] == CR {
      EndChar(ValueAct(m, buf, e).(cs := ValueNext(m.cs, buf[e])), buf, e + 1);
    }
  }

  /** The actions on a line break straight after the blanks. */
  lemma EmptyActs(m: Machine, buf: string, e: nat, kind: Kind, name: string)
    requires e < |buf| && m.cs == BlankState(kind) && (buf[e] == CR || buf[e] == LF)
    requires Slice(buf, m.fieldStart, m.fieldStart + m.fieldLen) == name
    ensures InBlanks(m.cs)
    ensures kind != Plain ==> Outside(ValueNext(m.cs, buf[e]))
    ensures kind == Plain ==>
      var n := ValueAct(m, buf, e).(cs := ValueNext(m.cs, buf[e]));
      var done := Ended(m, kind, name, "", e);
      n == if buf[e] == LF then done else done.(cs := 24)
  {
    hide SameName, ToInt, AllDigits, IsDigit, IsBlank, Lower;
    assert Slice(buf, e, e) == "";
  }

  lemma EmptyBreak(m: Machine, buf: string, e: nat, kind: Kind, name: string)
    requires e <= |buf| && m.cs == BlankState(kind) && BreakLen(buf, e) > 0
    requires Slice(buf, m.fieldStart, m.fieldStart + m.fieldLen) == name
    ensures kind == Plain ==> Exec(m, buf, e) == Exec(Ended(m, kind, name, "", e), buf, e + BreakLen(buf, e))
    ensures kind != Plain ==> Exec(m, buf, e).0.cs != FINAL
  {
    hide Exec, Slice, ValueAct, ValueNext, BlankState, InBlanks, Outside;
    EmptyActs(m, buf, e, kind, name);
    BreakChar(m, buf, e);
    var n := ValueAct(m, buf, e).(cs := ValueNext(m.cs, buf[e]));
    if kind != Plain {
      StaysOutside(n, buf, e + 1);
    } else if buf[e] == CR {
      EndChar(n, buf, e + 1);
    }
  }

  lemma StaysOutside(m: Machine, buf: string, p: nat)
    requires p <= |buf| && Outside(m.cs)
    ensures Exec(m, buf, p).0.cs != FINAL
  {
  }

  /** Without a whole line break the automaton never finishes. */
  lemma NoBreak(m: Machine, buf: string, e: nat)
    requires e <= |buf| && (e < |buf| ==> buf[e] == CR || buf[e] == LF)
    requires BreakLen(buf, e) == 0 && (InText(m.cs) || InBlanks(m.cs) || AtLine(m))
    ensures Exec(m, buf, e).0.cs != FINAL
  {
  }

  // ------------------------------------------------------- lines and the head

  /** The machine after a whole line at `p`. */
  function AfterLine(m: Machine, p: nat, line: Line): Machine {
    Ended(Named(m, p, line.name), KindOf(line.name), line.name, line.value, line.at)
  }

  lemma TextAndBreak(m: Machine, buf: string, v: nat, b: nat, e: nat, name: string)
    requires v <= b < e <= |buf| && m.cs == BlankState(KindOf(name))
    requires AllBlank(buf[v..b]) && !IsBlank(buf[b])
    requires OneLine(buf[b..e]) && (e < |buf| ==> buf[e] == CR || buf[e] == LF)
    requires Slice(buf, m.fieldStart, m.fieldStart + m.fieldLen) == name
    ensures BreakLen(buf, e) == 0 ==> Exec(m, buf, v).0.cs != FINAL
    ensures BreakLen(buf, e) > 0 ==>
      Exec(m, buf, v) == Exec(Ended(m, KindOf(name), name, buf[b..e], b), buf, e + BreakLen(buf, e))
  {
    var kind := KindOf(name);
    var m2 := m.(cs := TextState(kind, buf[b..e]), mark := b);
    assert Ended(m2, kind, name, buf[b..e], b) == Ended(m, kind, name, buf[b..e], b);
    hide Exec, TextState, BlankState, KindOf, Ended, Slice, BreakLen, InText, AllBlank, OneLine;
    ValueRun(m, buf, v, b, e, kind);
    TextStateMeans(kind, buf[b..e]);
    if BreakLen(buf, e) == 0 {
      NoBreak(m2, buf, e);
    } else {
      TextBreak(m2, buf, b, e, kind, name);
    }
  }

  lemma EmptyAndBreak(m: Machine, buf: string, v: nat, e: nat, name: string)
    requires v <= e <= |buf| && m.cs == BlankState(KindOf(name))
    requires AllBlank(buf[v..e]) && (e < |buf| ==> buf[e] == CR || buf[e] == LF)
    requires Slice(buf, m.fieldStart, m.fieldStart + m.fieldLen) == name
    ensures BreakLen(buf, e) == 0 || KindOf(name) != Plain ==> Exec(m, buf, v).0.cs != FINAL
    ensures BreakLen(buf, e) > 0 && KindOf(name) == Plain ==>
      Exec(m, buf, v) == Exec(Ended(m, KindOf(name), name, "", e), buf, e + BreakLen(buf, e))
  {
    var kind := KindOf(name);
    var m2 := m.(mark := if v < e then e - 1 else m.mark);
    assert Ended(m2, kind, name, "", e) == Ended(m, kind, name, "", e);
    BlankIsBlank(kind);
    hide Exec, BlankState, KindOf, Ended, Slice, BreakLen, InBlanks, AllBlank;
    BlankRun(m, buf, v, e, kind);
    if BreakLen(buf, e) == 0 {
      NoBreak(m2, buf, e);
    } else {
      EmptyBreak(m2, buf, e, kind, name);
    }
  }

  lemma BlankIsBlank(kind: Kind)
    ensures InBlanks(BlankState(kind))
  {
  }

  /** The line from its value on, as the reader sees it: it ends in `m1` behind the break, or never. */
  predicate ValueRead(m: Machine, buf: string, v: nat, name: string, b: nat, e: nat, m1: Machine)
    requires v <= |buf| && b <= e <= |buf|
  {
    if BreakLen(buf, e) == 0 || (KindOf(name) != Plain && b == e) then Exec(m, buf, v).0.cs != FINAL
    else Exec(m, buf, v) == Exec(Ended(m1, KindOf(name), name, buf[b..e], b), buf, e + BreakLen(buf, e))
  }

  lemma ValueCase(m: Machine, buf: string, v: nat, name: string, b: nat, e: nat)
    requires v <= b <= e <= |buf| && m.cs == BlankState(KindOf(name))
    requires Slice(buf, m.fieldStart, m.fieldStart + m.fieldLen) == name
    requires AllBlank(buf[v..b]) && (b < |buf| ==> !IsBlank(buf[b]))
    requires OneLine(buf[b..e]) && (e < |buf| ==> buf[e] == CR || buf[e] == LF)
    ensures ValueRead(m, buf, v, name, b, e, m)
  {
    hide Exec, KindOf, BlankState, Ended, Slice, BreakLen, AllBlank, OneLine;
    if b < e {
      TextAndBreak(m, buf, v, b, e, name);
    } else {
      EmptyAndBreak(m, buf, v, e, name);
      assert buf[b..e] == "";
    }
  }

  lemma NamedSlice(m: Machine, buf: string, p: nat, n: nat)
    requires p <= n <= |buf|
    ensures var m1 := Named(m, p, buf[p..n]);
      && Slice(buf, m1.fieldStart, m1.fieldStart + m1.fieldLen) == buf[p..n]
      && m1.cs == BlankState(KindOf(buf[p..n]))
  {
    assert p + |buf[p..n]| == n;
  }

  /** A line that has a name and a colon. */
  lemma NamedLine(m: Machine, buf: string, p: nat, n: nat, b: nat, e: nat)
    requires AtLine(m) && p < n < |buf| && AllTokens(buf[p..n]) && buf[n] == ':'
    requires b == BlankEnd(buf, n + 1) && e == TextEnd(buf, b)
    ensures ValueRead(m, buf, p, buf[p..n], b, e, Named(m, p, buf[p..n]))
  {
    assert p + (n - p) == n;
    hide *;
    NamedSlice(m, buf, p, n);
    NameAndColon(m, buf, p, n - p);
    BlankEndIs(buf, n + 1);
    TextEndIs(buf, b);
    ValueCase(Named(m, p, buf[p..n]), buf, n + 1, buf[p..n], b, e);
    ValueReadFrom(m, buf, p, n + 1, buf[p..n], b, e, Named(m, p, buf[p..n]));
  }

  lemma ValueReadFrom(m: Machine, buf: string, p: nat, v: nat, name: string, b: nat, e: nat, m1: Machine)
    requires p <= |buf| && v <= |buf| && b <= e <= |buf|
    requires Exec(m, buf, p) == Exec(m1, buf, v) && ValueRead(m1, buf, v, name, b, e, m1)
    ensures ValueRead(m, buf, p, name, b, e, m1)
  {
    hide Exec, Ended, KindOf, BreakLen;
  }

  /** One line: if the reader reads it, the automaton is behind it; if not, the automaton never finishes. */
  lemma LineRun(m: Machine, buf: string, p: nat)
    requires AtLine(m) && p <= |buf| && BreakLen(buf, p) == 0
    ensures ReadLine(buf, p) == None ==> Exec(m, buf, p).0.cs != FINAL
    ensures ReadLine(buf, p).Some? ==>
      var line := ReadLine(buf, p).value;
      Exec(m, buf, p) == Exec(AfterLine(m, p, line), buf, line.next)
  {
    hide Exec, KindOf, Ended, BreakLen, AllTokens, NameEnd, BlankEnd, TextEnd, Named, AtLine, IsToken;
    var n := NameEnd(buf, p);
    NameEndIs(buf, p);
    if n == p || n == |buf| || buf[n] != ':' {
      NoName(m, buf, p, n);
    } else {
      var b := BlankEnd(buf, n + 1);
      NamedLine(m, buf, p, n, b, TextEnd(buf, b));
    }
  }

  /** A line without a name and a colon. */
  lemma NoName(m: Machine, buf: string, p: nat, n: nat)
    requires AtLine(m) && p <= |buf| && BreakLen(buf, p) == 0
    requires n == NameEnd(buf, p) && (n == p || n == |buf| || buf[n] != ':')
    ensures Exec(m, buf, p).0.cs != FINAL
  {
    NameEndIs(buf, p);
    hide NameEnd, Exec, AllTokens, IsToken;
    if n == p {
      LineStops(m, buf, p);
    } else {
      assert p + (n - p) == n;
      NameToEnd(m, buf, p, n - p);
      assert InName(NameState(buf[p..n]));
      hide NameState;
      NameStops(m.(cs := NameState(buf[p..n]), close := m.close || m.cs == 43, fieldStart := p), buf, n);
    }
  }

  lemma LineStops(m: Machine, buf: string, p: nat)
    requires AtLine(m) && p <= |buf| && BreakLen(buf, p) == 0 && (p < |buf| ==> !IsToken(buf[p]))
    ensures Exec(m, buf, p).0.cs != FINAL
  {
    if p == |buf| || buf[p] == CR {
      NoBreak(m, buf, p);
    }
  }

  lemma NameStops(m: Machine, buf: string, p: nat)
    requires InName(m.cs) && p <= |buf| && (p < |buf| ==> !IsToken(buf[p]) && buf[p] != ':')
    ensures Exec(m, buf, p).0.cs != FINAL
  {
  }

  /** What a whole head leaves in the machine. */
  ghost predicate HeadDone(m: Machine, m': Machine, head: Head) {
    && m'.cs == FINAL && m'.bodyStart == head.end
    && m'.events == m.events + Fields(head.lines)
    && m'.close == (m.close || m.cs == 43 || exists i :: 0 <= i < |head.lines| && SaysClose(head.lines[i]))
    && m'.chunked == (m.chunked || exists i :: 0 <= i < |head.lines| && SaysChunked(head.lines[i]))
    && m'.contentLen == LastLength(head.lines, m.contentLen)
    && m'.status == m.status
  }

  /**
   The automaton refines the line reader: from the start of a line it finishes
   exactly when the reader finds a whole head, it stops at the end of that
   head, and it reports the lines in order.
   */
  lemma {:induction false} HeadRun(m: Machine, buf: string, p: nat)
    requires AtLine(m) && p <= |buf|
    ensures Exec(m, buf, p).0.cs == FINAL <==> ReadHead(buf, p).Some?
    ensures ReadHead(buf, p).Some? ==>
      Exec(m, buf, p).1 == ReadHead(buf, p).value.end && HeadDone(m, Exec(m, buf, p).0, ReadHead(buf, p).value)
    decreases |buf| - p
  {
    if BreakLen(buf, p) > 0 {
      LastBreak(m, buf, p);
    } else {
      LineRun(m, buf, p);
      if ReadLine(buf, p).Some? {
        var line := ReadLine(buf, p).value;
        var m1 := AfterLine(m, p, line);
        HeadRun(m1, buf, line.next);
        hide Exec, ReadLine, BreakLen;
        if ReadHead(buf, line.next).Some? {
          MoreLines(m, p, line, Exec(m1, buf, line.next).0, ReadHead(buf, line.next).value);
        }
      }
    }
  }

  lemma LastBreak(m: Machine, buf: string, p: nat)
    requires AtLine(m) && p <= |buf| && BreakLen(buf, p) > 0
    ensures var (m', end) := Exec(m, buf, p);
      end == p + BreakLen(buf, p) && HeadDone(m, m', Head([], end))
  {
    var m1 := m.(close := m.close || m.cs == 43);
    if buf[p] == LF {
      LastFeed(m, buf, p);
    } else {
      ReturnThenFeed(m, buf, p);
    }
    hide Exec;
  }

  lemma LastFeed(m: Machine, buf: string, p: nat)
    requires AtLine(m) && p < |buf| && buf[p] == LF
    ensures Exec(m, buf, p) == (m.(cs := FINAL, close := m.close || m.cs == 43, bodyStart := p + 1), p + 1)
  {
  }

  lemma ReturnThenFeed(m: Machine, buf: string, p: nat)
    requires AtLine(m) && p + 1 < |buf| && buf[p] == CR && buf[p + 1] == LF
    ensures Exec(m, buf, p) == (m.(cs := FINAL, close := m.close || m.cs == 43, bodyStart := p + 2), p + 2)
  {
    var m1 := m.(cs := 3, close := m.close || m.cs == 43);
    assert Exec(m, buf, p) == Exec(m1, buf, p + 1);
    assert Exec(m1, buf, p + 1) == Exec(m1.(cs := FINAL, bodyStart := p + 2), buf, p + 2);
  }

  lemma MoreLines(m: Machine, p: nat, line: Line, m': Machine, rest: Head)
    requires HeadDone(AfterLine(m, p, line), m', rest)
    ensures HeadDone(m, m', Head([line] + rest.lines, rest.end))
  {
    var lines := [line] + rest.lines;
    assert lines[1..] == rest.lines;
    assert m.events + Fields(lines) == m.events + [Field(line.name, line.value)] + Fields(rest.lines);
    hide SaysClose, SaysChunked;
    SaysWhat(line);
    assert (exists i :: 0 <= i < |lines| && SaysClose(lines[i])) <==>
      SaysClose(line) || exists i :: 0 <= i < |rest.lines| && SaysClose(rest.lines[i]) by {
      assert forall i :: 0 <= i < |rest.lines| ==> lines[i + 1] == rest.lines[i];
      assert lines[0] == line;
    }
    assert (exists i :: 0 <= i < |lines| && SaysChunked(lines[i])) <==>
      SaysChunked(line) || exists i :: 0 <= i < |rest.lines| && SaysChunked(rest.lines[i]) by {
      assert forall i :: 0 <= i < |rest.lines| ==> lines[i + 1] == rest.lines[i];
      assert lines[0] == line;
    }
  }

  lemma SaysWhat(line: Line)
    ensures SaysClose(line) <==> KindOf(line.name) == Connection && SameName(line.value, CLOSE)
    ensures SaysChunked(line) <==> KindOf(line.name) == Transfer && SameName(line.value, CHUNKED)
  {
  }
}
