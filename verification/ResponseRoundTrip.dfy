/** Parsing a printed response gives the response back and leaves its body. */
module ResponseRoundTrip {

  import opened Wrappers
  import opened Callbacks
  import opened HttpText
  import opened HttpStatus
  import opened HttpMessage
  import opened ResponseAutomaton
  import opened ResponseReader
  import opened ResponseParser
  import opened PrintedText

  // --------------------------------------------------------- the status line

  /** A state of the status line in which a character only changes the state. */
  lemma QuietStep(m: Machine, buf: string, p: nat, next: nat)
    requires p < |buf| && 8 <= m.cs <= 19 && m.cs != 16 && m.cs != 18 && StatusNext(m.cs, buf[p]) == next != ERROR
    requires m.cs == 15 || m.cs == 17 ==> buf[p] != ' '
    requires m.cs == 19 ==> buf[p] != CR && buf[p] != LF
    ensures Exec(m, buf, p) == Exec(m.(cs := next), buf, p + 1)
  {
    OneStep(m, buf, p);
  }

  /** The fixed start of the line up to the major version. */
  lemma HttpSlash(buf: string)
    requires At(buf, 0, "HTTP/")
    ensures Exec(Init(), buf, 0) == Exec(Init().(cs := 12), buf, 5)
  {
    AtIndex(buf, 0, "HTTP/", 0);
    AtIndex(buf, 0, "HTTP/", 1);
    AtIndex(buf, 0, "HTTP/", 2);
    AtIndex(buf, 0, "HTTP/", 3);
    AtIndex(buf, 0, "HTTP/", 4);
    var m := Init();
    OneStep(m, buf, 0);
    assert Exec(m, buf, 0) == Exec(m.(cs := 8), buf, 1);
    hide Exec;
    QuietStep(m.(cs := 8), buf, 1, 9);
    QuietStep(m.(cs := 9), buf, 2, 10);
    QuietStep(m.(cs := 10), buf, 3, 11);
    QuietStep(m.(cs := 11), buf, 4, 12);
  }

  lemma VersionRun(buf: string, minor: char)
    requires At(buf, 0, "HTTP/") && At(buf, 5, ['1', '.', minor, ' ']) && (minor == '0' || minor == '1')
    ensures Exec(Init(), buf, 0) == Exec(Init().(cs := 16, events := [Version(buf[0..8])]), buf, 9)
  {
    HttpSlash(buf);
    var t := ['1', '.', minor, ' '];
    AtIndex(buf, 5, t, 0);
    AtIndex(buf, 5, t, 1);
    AtIndex(buf, 5, t, 2);
    AtIndex(buf, 5, t, 3);
    var m := Init();
    QuietStep(m.(cs := 12), buf, 5, 13);
    QuietStep(m.(cs := 13), buf, 6, 14);
    QuietStep(m.(cs := 14), buf, 7, 15);
    OneStep(m.(cs := 15), buf, 8);
    hide Exec;
    assert Act(m.(cs := 15), buf, 8) == m.(cs := 15, events := [Version(buf[0..8])]);
  }

  lemma {:induction false} DigitRun(m: Machine, buf: string, p: nat, end: nat)
    requires m.cs == 17 && p <= end <= |buf| && forall i :: p <= i < end ==> IsDigit(buf[i])
    ensures Exec(m, buf, p) == Exec(m, buf, end)
    decreases end - p
  {
    if p < end {
      QuietStep(m, buf, p, 17);
      DigitRun(m, buf, p + 1, end);
    }
  }

  /** The first character of the status code, and of the reason. */
  lemma MarkStep(m: Machine, buf: string, p: nat)
    requires p < |buf| && ((m.cs == 16 && IsDigit(buf[p])) || (m.cs == 18 && buf[p] != LF))
    ensures Exec(m, buf, p) == Exec(m.(cs := m.cs + 1, mark := p), buf, p + 1)
  {
    OneStep(m, buf, p);
    hide Exec;
  }

  lemma CodeBreak(m: Machine, buf: string, p: nat, e: nat)
    requires m.cs == 17 && m.mark == p <= e && At(buf, e, " ") && AllDigits(buf[p..e])
    ensures Exec(m, buf, e)
      == Exec(m.(cs := 18, status := ToInt(buf[p..e]), events := m.events + [StatusCode(buf[p..e])]), buf, e + 1)
  {
    AtIndex(buf, e, " ", 0);
    OneStep(m, buf, e);
    hide Exec, ToInt;
  }

  lemma DigitsAt(buf: string, p: nat, code: string)
    requires At(buf, p, code) && AllDigits(code)
    ensures p + |code| <= |buf| && buf[p..p + |code|] == code
    ensures forall i :: p <= i < p + |code| ==> IsDigit(buf[i])
  {
    forall i | p <= i < p + |code| ensures IsDigit(buf[i]) {
      AtIndex(buf, p, code, i - p);
    }
  }

  /** The status code and the space after it. */
  lemma CodeRun(m: Machine, buf: string, p: nat, code: string)
    requires m.cs == 16 && code != "" && AllDigits(code) && At(buf, p, code) && At(buf, p + |code|, " ")
    ensures Exec(m, buf, p)
      == Exec(m.(cs := 18, mark := p, status := ToInt(code), events := m.events + [StatusCode(code)]), buf, p + |code| + 1)
  {
    hide *;
    var e := p + |code|;
    DigitsAt(buf, p, code);
    var m1 := m.(cs := 17, mark := p);
    MarkStep(m, buf, p);
    DigitRun(m1, buf, p + 1, e);
    CodeBreak(m1, buf, p, e);
  }

  lemma {:induction false} ReasonText(m: Machine, buf: string, p: nat, end: nat)
    requires m.cs == 19 && p <= end <= |buf| && forall i :: p <= i < end ==> buf[i] != CR && buf[i] != LF
    ensures Exec(m, buf, p) == Exec(m, buf, end)
    decreases end - p
  {
    if p < end {
      QuietStep(m, buf, p, 19);
      ReasonText(m, buf, p + 1, end);
    }
  }

  lemma ReasonBreak(m: Machine, buf: string, p: nat, e: nat)
    requires m.cs == 19 && m.mark == p <= e && At(buf, e, CRLF)
    ensures Exec(m, buf, e) == Exec(m.(cs := 20, events := m.events + [Reason(buf[p..e])]), buf, e + 2)
  {
    AtIndex(buf, e, CRLF, 0);
    AtIndex(buf, e, CRLF, 1);
    OneStep(m, buf, e);
    var m2 := m.(cs := 24, events := m.events + [Reason(buf[p..e])]);
    assert Act(m, buf, e).(cs := 24) == m2;
    OneStep(m2, buf, e + 1);
    hide Exec;
  }

  lemma TextAt(buf: string, p: nat, text: string)
    requires At(buf, p, text) && OneLine(text)
    ensures p + |text| <= |buf| && buf[p..p + |text|] == text
    ensures forall i :: p <= i < p + |text| ==> buf[i] != CR && buf[i] != LF
  {
    forall i | p <= i < p + |text| ensures buf[i] != CR && buf[i] != LF {
      AtIndex(buf, p, text, i - p);
    }
  }

  /** The reason and the line break. */
  lemma ReasonRun(m: Machine, buf: string, p: nat, reason: string)
    requires m.cs == 18 && reason != "" && OneLine(reason) && At(buf, p, reason) && At(buf, p + |reason|, CRLF)
    ensures Exec(m, buf, p)
      == Exec(m.(cs := 20, mark := p, events := m.events + [Reason(reason)]), buf, p + |reason| + 2)
  {
    hide *;
    var e := p + |reason|;
    TextAt(buf, p, reason);
    var m1 := m.(cs := 19, mark := p);
    MarkStep(m, buf, p);
    ReasonText(m1, buf, p + 1, e);
    ReasonBreak(m1, buf, p, e);
  }

  /** The machine behind the status line. */
  function AfterStatus(r: Response): Machine
    requires r.status >= 0
  {
    var at := |VersionText(r.version) + " " + Decimal(r.status) + " "|;
    Init().(cs := 20, mark := at, status := r.status,
            events := [Version(VersionText(r.version)), StatusCode(Decimal(r.status)), Reason(PrintedReason(r))])
  }

  lemma SmallNumber(n: nat)
    requires n < 0x8000_0000
    ensures ToInt(Decimal(n)) == n
  {
    DecimalRoundTrip(n);
  }

  lemma StatusRun(buf: string, r: Response)
    requires (r.version == 0x10 || r.version == 0x11) && 0 <= r.status < 0x8000_0000
    requires PrintedReason(r) != "" && OneLine(PrintedReason(r))
    requires At(buf, 0, StatusLine(r))
    ensures Exec(Init(), buf, 0) == Exec(AfterStatus(r), buf, |StatusLine(r)|)
  {
    hide *;
    var v, code, reason := VersionText(r.version), Decimal(r.status), PrintedReason(r);
    var minor := VersionForm(r.version);
    StatusLineIs(r);
    SmallNumber(r.status);
    StatusAt(buf, v, code, reason);
    VersionAt(buf, v, minor);
    VersionRun(buf, minor);
    StatusParts(buf, r.status, v, code, reason);
    AfterStatusIs(r);
  }

  lemma StatusLineIs(r: Response)
    requires r.status >= 0
    ensures StatusLine(r)
      == VersionText(r.version) + " " + Decimal(r.status) + " " + PrintedReason(r) + CRLF
  {
    hide VersionText, Decimal, PrintedReason;
  }

  lemma AfterStatusIs(r: Response)
    requires r.status >= 0 && |VersionText(r.version)| == 8
    ensures var code, reason := Decimal(r.status), PrintedReason(r);
      && |StatusLine(r)| == 12 + |code| + |reason|
      && AfterStatus(r) == Init().(cs := 20, mark := 10 + |code|, status := r.status,
           events := [Version(VersionText(r.version)), StatusCode(code), Reason(reason)])
  {
    hide VersionText, Decimal, PrintedReason;
  }

  lemma StatusAt(buf: string, v: string, code: string, reason: string)
    requires At(buf, 0, v + " " + code + " " + reason + CRLF)
    ensures At(buf, 0, v + " ") && At(buf, |v| + 1, code) && At(buf, |v| + 1 + |code|, " ")
    ensures At(buf, |v| + |code| + 2, reason) && At(buf, |v| + |code| + 2 + |reason|, CRLF)
  {
    hide At;
    AtSplit(buf, 0, v + " " + code + " " + reason, CRLF);
    AtSplit(buf, 0, v + " " + code + " ", reason);
    AtSplit(buf, 0, v + " " + code, " ");
    AtSplit(buf, 0, v + " ", code);
  }

  lemma VersionAt(buf: string, v: string, minor: char)
    requires v + " " == "HTTP/" + ['1', '.', minor, ' '] && At(buf, 0, v + " ")
    ensures At(buf, 0, "HTTP/") && At(buf, 5, ['1', '.', minor, ' ']) && |v| == 8 && |buf| >= 9 && buf[0..8] == v
  {
    AtSplit(buf, 0, "HTTP/", ['1', '.', minor, ' ']);
    AtSplit(buf, 0, v, " ");
  }

  lemma StatusParts(buf: string, status: nat, v: string, code: string, reason: string)
    requires |v| == 8 && code != "" && AllDigits(code) && ToInt(code) == status && reason != "" && OneLine(reason)
    requires At(buf, 9, code) && At(buf, 9 + |code|, " ") && At(buf, 10 + |code|, reason) && At(buf, 10 + |code| + |reason|, CRLF)
    ensures Exec(Init().(cs := 16, events := [Version(v)]), buf, 9)
      == Exec(Init().(cs := 20, mark := 10 + |code|, status := status,
                      events := [Version(v), StatusCode(code), Reason(reason)]), buf, 12 + |code| + |reason|)
  {
    hide Exec, AllDigits, OneLine, ToInt, At;
    var m := Init().(cs := 16, events := [Version(v)]);
    CodeRun(m, buf, 9, code);
    var m1 := m.(cs := 18, mark := 9, status := status, events := m.events + [StatusCode(code)]);
    ReasonRun(m1, buf, 10 + |code|, reason);
    assert m1.events + [Reason(reason)] == [Version(v), StatusCode(code), Reason(reason)];
  }

  // -------------------------------------------------------------- callbacks

  function FieldEvents(lines: seq<HeaderLine>): (events: seq<Event>)
    ensures |events| == |lines| && forall i :: 0 <= i < |lines| ==> events[i] == Field(lines[i].name, lines[i].value)
  {
    Reports(lines, (name, value) => Field(name, value))
  }

  lemma {:induction false} FieldsAre(read: seq<Line>, lines: seq<HeaderLine>)
    requires Same(read, lines)
    ensures Fields(read) == FieldEvents(lines)
  {
    if read != [] {
      FieldsAre(read[1..], lines[1..]);
      assert FieldEvents(lines) == [Field(lines[0].name, lines[0].value)] + FieldEvents(lines[1..]);
    }
  }

  lemma FieldsSet(x: Parsed<Response>, lines: seq<HeaderLine>)
    requires forall i :: 0 <= i < |lines| ==> lines[i].name != ""
    ensures OnEvents(x, FieldEvents(lines)) == x.(data := x.data.(headers := SetAll(x.data.headers, lines)))
  {
    ReportsSet(x, lines, (name, value) => Field(name, value), OnEvent,
               h => x.(data := x.data.(headers := h)), x.data.headers);
  }

  // ------------------------------------------------------ what the lines say

  /** A response whose printed form can be read back. */
  predicate Printable(r: Response) {
    && (r.version == 0x10 || r.version == 0x11) && 0 <= r.status < 0x8000_0000 && |r.body| < 0x8000_0000
    && OneLine(r.reason) && WellKeyed(r.headers)
    && (forall k :: k in r.headers && k != CONNECTION_KEY ==> Clean(HeaderLine(r.headers[k].0, "", r.headers[k].1)))
    && (r.body == "" ==> CONTENT_LENGTH !in r.headers)
  }

  lemma {:induction false} MapLineIs(order: seq<string>, h: Headers, i: nat) returns (k: string)
    requires (forall k :: k in order ==> k in h) && i < |MapLines(order, h)|
    ensures k in order && k in h && k != CONNECTION_KEY && MapLines(order, h)[i] == HeaderLine(h[k].0, "", h[k].1)
    decreases |order|
  {
    var front := order[..|order| - 1];
    if i < |MapLines(front, h)| {
      k := MapLineIs(front, h, i);
    } else {
      k := order[|order| - 1];
    }
  }

  /** The kinds of the two names that the printer adds. */
  lemma OwnNames()
    ensures KindOf("connection") == Connection && KindOf("content-length") == Length
    ensures AllTokens("connection") && AllTokens("content-length")
  {
    assert LowerAll("connection") == "connection" && LowerAll(CONNECTION) == "connection";
    assert LowerAll("content-length") == "content-length" && LowerAll(CONTENT_LENGTH) == "content-length";
    assert LowerAll(TRANSFER_ENCODING) == TRANSFER_ENCODING;
    assert |CONNECTION| == 10 && |CONTENT_LENGTH| == 14 && |TRANSFER_ENCODING| == 17;
  }

  lemma OwnValues(close: bool)
    ensures var v := ConnectionLine(close).value;
      v != "" && OneLine(v) && !IsBlank(v[0]) && (SameName(v, CLOSE) <==> close)
  {
    assert |LowerAll("keep-alive")| == 10 && |LowerAll(CLOSE)| == 5;
  }

  lemma AddedClean(close: bool, body: string)
    ensures Clean(ConnectionLine(close))
    ensures forall i :: 0 <= i < |LengthLines(body)| ==> Clean(LengthLines(body)[i])
  {
    OwnNames();
    OwnValues(close);
    assert AllBlank(" ");
    if body != "" {
      assert IsDigit(Decimal(|body|)[0]);
      assert OneLine(Decimal(|body|)) by {
        hide Decimal;
      }
    }
    hide Decimal, KindOf;
  }

  lemma LinesClean(r: Response, order: seq<string>)
    requires Printable(r) && Enumerates(order, r.headers)
    ensures forall i :: 0 <= i < |ResponseLines(r, order)| ==> Clean(ResponseLines(r, order)[i])
  {
    AddedClean(r.close, r.body);
    var maps := MapLines(order, r.headers);
    forall i | 0 <= i < |maps|
      ensures Clean(maps[i])
    {
      var k := MapLineIs(order, r.headers, i);
    }
    hide Clean, MapLines, LengthLines;
  }

  /** The name of a map line is the keyword its key is. */
  lemma KeyKind(h: Headers, k: string)
    requires WellKeyed(h) && k in h
    ensures KindOf(h[k].0) == Connection <==> k == CONNECTION_KEY
    ensures KindOf(h[k].0) == Transfer <==> k == TRANSFER_ENCODING
    ensures KindOf(h[k].0) == Length <==> k == CONTENT_LENGTH
  {
    assert LowerAll(CONNECTION) == CONNECTION && LowerAll(CONTENT_LENGTH) == CONTENT_LENGTH;
    assert LowerAll(TRANSFER_ENCODING) == TRANSFER_ENCODING;
    assert |CONNECTION| == 10 && |CONTENT_LENGTH| == 14 && |TRANSFER_ENCODING| == 17;
  }

  /** What the map lines say about the connection, the coding and the length. */
  lemma MapLinesSay(r: Response, order: seq<string>, i: nat)
    requires Printable(r) && Enumerates(order, r.headers) && i < |MapLines(order, r.headers)|
    ensures var kind := KindOf(MapLines(order, r.headers)[i].name);
      && kind != Connection
      && (TRANSFER_ENCODING !in r.headers ==> kind != Transfer)
      && (r.body == "" ==> kind != Length)
  {
    var k := MapLineIs(order, r.headers, i);
    KeyKind(r.headers, k);
  }

  lemma {:induction false} LastLengthPush(lines: seq<Line>, last: Line, before: int)
    ensures LastLength(lines + [last], before)
      == if SaysLength(last) then ToInt(last.value) else LastLength(lines, before)
  {
    if lines == [] {
      assert [last][1..] == [];
    } else {
      assert (lines + [last])[1..] == lines[1..] + [last];
      LastLengthPush(lines[1..], last, if SaysLength(lines[0]) then ToInt(lines[0].value) else before);
    }
  }

  lemma {:induction false} NoLength(lines: seq<Line>, before: int)
    requires forall i :: 0 <= i < |lines| ==> !SaysLength(lines[i])
    ensures LastLength(lines, before) == before
  {
    if lines != [] {
      NoLength(lines[1..], before);
    }
  }

  /** The connection header is the only line that says close, and says so exactly if the flag is set. */
  lemma CloseSaid(r: Response, order: seq<string>, read: seq<Line>)
    requires Printable(r) && Enumerates(order, r.headers) && Same(read, ResponseLines(r, order))
    ensures (exists i :: 0 <= i < |read| && SaysClose(read[i])) <==> r.close
  {
    var n := |MapLines(order, r.headers)|;
    OwnNames();
    OwnValues(r.close);
    forall i | 0 <= i < |read| && i != n
      ensures !SaysClose(read[i])
    {
      if i < n {
        MapLinesSay(r, order, i);
      }
      hide KindOf;
    }
    assert SaysClose(read[n]) <==> r.close by {
      hide KindOf, MapLines;
    }
  }

  lemma NotChunked(r: Response, order: seq<string>, read: seq<Line>)
    requires Printable(r) && Enumerates(order, r.headers) && Same(read, ResponseLines(r, order))
    requires TRANSFER_ENCODING !in r.headers
    ensures forall i :: 0 <= i < |read| ==> !SaysChunked(read[i])
  {
    var n := |MapLines(order, r.headers)|;
    OwnNames();
    forall i | 0 <= i < |read|
      ensures !SaysChunked(read[i])
    {
      if i < n {
        MapLinesSay(r, order, i);
      }
      hide KindOf;
    }
  }

  /** The last length said is that of the body. */
  lemma LengthSaid(r: Response, order: seq<string>, read: seq<Line>)
    requires Printable(r) && Enumerates(order, r.headers) && Same(read, ResponseLines(r, order))
    ensures LastLength(read, -1) == if r.body == "" then -1 else |r.body|
  {
    var n := |MapLines(order, r.headers)|;
    OwnNames();
    if r.body == "" {
      forall i | 0 <= i < |read|
        ensures !SaysLength(read[i])
      {
        if i < n {
          MapLinesSay(r, order, i);
        }
        hide KindOf;
      }
      NoLength(read, -1);
    } else {
      assert |read| == n + 2 && read[n + 1].name == "content-length" && read[n + 1].value == Decimal(|r.body|);
      hide *;
      SmallNumber(|r.body|);
      LastIsLength(read, n + 1, |r.body|);
    }
  }

  lemma LastIsLength(read: seq<Line>, n: nat, length: nat)
    requires |read| == n + 1 && KindOf(read[n].name) == Length && read[n].value == Decimal(length)
    requires ToInt(Decimal(length)) == length
    ensures LastLength(read, -1) == length
  {
    hide KindOf, Decimal, ToInt, LastLength;
    assert read == read[..n] + [read[n]];
    LastLengthPush(read[..n], read[n], -1);
  }

  // ------------------------------------------------------- the headers read

  /** What the parser restores: all but the body, which is left in the buffer, and the flag, which the automaton has. */
  function Restored(r: Response): Parsed<Response> {
    Parsed(Response(r.version, r.status, true, PrintedReason(r), "", Rewritten(r.headers, r.close, r.body)), 0)
  }

  lemma CallbacksRestore(r: Response, order: seq<string>, read: seq<Line>)
    requires Printable(r) && Enumerates(order, r.headers) && Same(read, ResponseLines(r, order))
    ensures OnEvents(Fresh(), AfterStatus(r).events + Fields(read)) == Restored(r)
  {
    var lines := ResponseLines(r, order);
    LinesClean(r, order);
    ConnectionLast(r.headers, order, r.close, r.body);
    assert SetAll(map[], lines) == Rewritten(r.headers, r.close, r.body);
    assert r.status >= 0 && Same(read, lines) && forall i :: 0 <= i < |lines| ==> lines[i].name != "";
    hide *;
    var x := AfterStatus(r).events;
    StatusRestores(r);
    LinesRestore(OnEvents(Fresh(), x), read, lines);
    OnEventsConcat(x, Fields(read));
    RestoredIs(r);
  }

  lemma LinesRestore(x: Parsed<Response>, read: seq<Line>, lines: seq<HeaderLine>)
    requires Same(read, lines) && forall i :: 0 <= i < |lines| ==> lines[i].name != ""
    ensures OnEvents(x, Fields(read)) == x.(data := x.data.(headers := SetAll(x.data.headers, lines)))
  {
    hide *;
    FieldsAre(read, lines);
    FieldsSet(x, lines);
  }

  lemma OnEventsConcat(a: seq<Event>, b: seq<Event>)
    ensures OnEvents(Fresh(), a + b) == OnEvents(OnEvents(Fresh(), a), b)
  {
    AllConcat(Fresh(), a, b, OnEvent);
  }

  lemma RestoredIs(r: Response)
    ensures Restored(r)
      == Parsed(Response(r.version, r.status, true, PrintedReason(r), "", Rewritten(r.headers, r.close, r.body)), 0)
  {
  }

  lemma StatusRestores(r: Response)
    requires Printable(r)
    ensures OnEvents(Fresh(), AfterStatus(r).events)
      == Parsed(Response(r.version, r.status, true, PrintedReason(r), "", map[]), 0)
  {
    hide VersionText, Decimal, ToInt, PrintedReason, VersionOf, SetHeader, OnEvents;
    var v, code, reason := VersionText(r.version), Decimal(r.status), PrintedReason(r);
    VersionRead(r.version);
    SmallNumber(r.status);
    ThreeEvents(v, code, reason);
  }

  lemma ThreeEvents(v: string, code: string, reason: string)
    ensures OnEvents(Fresh(), [Version(v), StatusCode(code), Reason(reason)])
      == OnEvent(OnEvent(OnVersion(Fresh(), v), StatusCode(code)), Reason(reason))
  {
    AllTwo(Fresh(), Version(v), StatusCode(code), OnEvent);
    AllPush(Fresh(), [Version(v), StatusCode(code)], Reason(reason), OnEvent);
    assert [Version(v), StatusCode(code)] + [Reason(reason)] == [Version(v), StatusCode(code), Reason(reason)];
    hide OnVersion, ToInt;
  }

  // -------------------------------------------------------------- round trip

  /**
   Parsing what `dump` printed finishes, leaves exactly the body, and restores
   version, status, reason and headers; the automaton's flags agree with the
   response.
   */
  lemma ResponseRestored(r: Response, order: seq<string>)
    requires Printable(r) && Enumerates(order, r.headers)
    ensures var text := ResponseText(r, order);
      var (m, end) := Exec(Init(), text, 0);
      && m.cs == FINAL && m.bodyStart == end <= |text| && text[end..] == r.body
      && OnEvents(Fresh(), m.events) == Restored(r)
      && m.close == r.close && m.status == r.status
      && m.contentLen == (if r.body == "" then -1 else |r.body|)
      && (TRANSFER_ENCODING !in r.headers ==> !m.chunked)
  {
    var text := ResponseText(r, order);
    var lines := ResponseLines(r, order);
    var n := |StatusLine(r)|;
    TextIs(r, order);
    PartsOf(StatusLine(r), LineTexts(lines), r.body);
    ReasonPrinted(r);
    StatusRun(text, r);
    LinesClean(r, order);
    HeadAt(text, n, lines);
    var m0 := AfterStatus(r);
    HeadRun(m0, text, n);
    var head := ReadHead(text, n).value;
    CloseSaid(r, order, head.lines);
    LengthSaid(r, order, head.lines);
    CallbacksRestore(r, order, head.lines);
    if TRANSFER_ENCODING !in r.headers {
      NotChunked(r, order, head.lines);
    }
    hide *;
    HeadGives(r, text, n, head);
  }

  lemma ReasonPrinted(r: Response)
    requires Printable(r)
    ensures PrintedReason(r) != "" && OneLine(PrintedReason(r))
  {
    StatusPrinted(r.status);
    hide StatusText;
  }

  lemma HeadGives(r: Response, text: string, n: nat, head: Head)
    requires r.status >= 0 && n <= |text|
    requires HeadDone(AfterStatus(r), Exec(AfterStatus(r), text, n).0, head)
    ensures var m := Exec(AfterStatus(r), text, n).0;
      && m.cs == FINAL && m.bodyStart == head.end && m.status == r.status
      && m.events == AfterStatus(r).events + Fields(head.lines)
      && m.close == (exists i :: 0 <= i < |head.lines| && SaysClose(head.lines[i]))
      && m.chunked == (exists i :: 0 <= i < |head.lines| && SaysChunked(head.lines[i]))
      && m.contentLen == LastLength(head.lines, -1)
  {
    hide Exec, SaysClose, SaysChunked, VersionText, Decimal, PrintedReason;
  }

  lemma TextIs(r: Response, order: seq<string>)
    requires Printable(r) && Enumerates(order, r.headers)
    ensures ResponseText(r, order) == StatusLine(r) + LineTexts(ResponseLines(r, order)) + CRLF + r.body
  {
    hide StatusLine, LineTexts, ResponseLines;
  }

  lemma PartsOf(a: string, b: string, body: string)
    ensures var text := a + b + CRLF + body;
      && At(text, 0, a) && At(text, |a|, b + CRLF)
      && |a| + |b| + 2 <= |text| && text[|a| + |b| + 2..] == body
  {
    var text := a + b + CRLF + body;
    assert text[0..|a|] == a;
    assert text[|a|..|a| + |b| + 2] == b + CRLF;
  }
}
