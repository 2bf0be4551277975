/** Requests and responses, their header maps, and how they are printed. */
module HttpMessage {

  import opened HttpText
  import opened HttpStatus

  // ------------------------------------------------------------- header maps

  /**
   A map ordered by the case-insensitive comparator: the key is the name in
   lower case, the entry holds the spelling first used and the value.
   */
  type Headers = map<string, (string, string)>

  predicate WellKeyed(h: Headers) {
    forall k :: k in h ==> k == LowerAll(h[k].0)
  }

  /** `m_headers[key] = val`: a known name keeps its first spelling. */
  function SetHeader(h: Headers, name: string, value: string): Headers {
    var k := LowerAll(name);
    h[k := (if k in h then h[k].0 else name, value)]
  }

  /** Two names that differ in case are one header: the first spelling and the last value stay. */
  lemma SetHeaderTwice(h: Headers, a: string, x: string, b: string, y: string)
    requires LowerAll(a) !in h
    ensures var g := SetHeader(SetHeader(h, a, x), b, y);
      && (SameName(a, b) ==> g == h[LowerAll(a) := (a, y)])
      && (!SameName(a, b) ==> LowerAll(a) in g && g[LowerAll(a)] == (a, x) && g[LowerAll(b)].1 == y)
  {
    hide LowerAll;
  }

  /** Setting a header leaves all others as they were. */
  lemma SetHeaderOthers(h: Headers, name: string, value: string, k: string)
    requires k != LowerAll(name)
    ensures k in SetHeader(h, name, value) <==> k in h
    ensures k in h ==> SetHeader(h, name, value)[k] == h[k]
  {
    hide LowerAll;
  }

  /** Some order in which every entry of the map comes exactly once. */
  ghost predicate Enumerates(order: seq<string>, h: Headers) {
    && (forall i, j :: 0 <= i < j < |order| ==> order[i] != order[j])
    && (forall k :: k in order <==> k in h)
  }

  // ------------------------------------------------------------------- lines

  const CRLF := "\r\n"

  /** A header line as printed, with the blanks after its colon. */
  datatype HeaderLine = HeaderLine(name: string, pad: string, value: string)

  function LineText(line: HeaderLine): string {
    line.name + ":" + line.pad + line.value + CRLF
  }

  function LineTexts(lines: seq<HeaderLine>): string {
    if lines == [] then "" else LineTexts(lines[..|lines| - 1]) + LineText(lines[|lines| - 1])
  }

  const CONNECTION_KEY := "connection"

  /** The lines of the header map but the connection header, which is printed from the flag. */
  function MapLines(order: seq<string>, h: Headers): (lines: seq<HeaderLine>)
    requires forall k :: k in order ==> k in h
  {
    if order == [] then []
    else
      var k := order[|order| - 1];
      MapLines(order[..|order| - 1], h) + if k == CONNECTION_KEY then [] else [HeaderLine(h[k].0, "", h[k].1)]
  }

  function ConnectionLine(close: bool): HeaderLine {
    HeaderLine("connection", " ", if close then "close" else "keep-alive")
  }

  function LengthLines(body: string): seq<HeaderLine> {
    if body == "" then [] else [HeaderLine("content-length", " ", Decimal(|body|))]
  }

  lemma Assoc(a: string, b: string, c: string)
    ensures (a + b) + c == a + (b + c)
  {
  }

  lemma {:induction false} LineTextsConcat(a: seq<HeaderLine>, b: seq<HeaderLine>)
    ensures LineTexts(a + b) == LineTexts(a) + LineTexts(b)
  {
    hide LineText;
    if b == [] {
      assert a + b == a;
    } else {
      var front := b[..|b| - 1];
      LineTextsConcat(a, front);
      assert (a + b)[..|a + b| - 1] == a + front;
      assert (a + b)[|a + b| - 1] == b[|b| - 1];
      Assoc(LineTexts(a), LineTexts(front), LineText(b[|b| - 1]));
    }
  }

  lemma LineTextsPush(lines: seq<HeaderLine>, line: HeaderLine)
    ensures LineTexts(lines + [line]) == LineTexts(lines) + LineText(line)
  {
    hide LineText;
    assert (lines + [line])[..|lines|] == lines;
  }

  lemma OneLineText(line: HeaderLine)
    ensures LineTexts([line]) == LineText(line)
  {
    hide LineText;
    assert [line][..0] == [];
  }

  /** Writing the parts of a line one after the other writes the line. */
  lemma PartByPart(os: string, name: string, value: string)
    ensures (((os + name) + ":") + value) + CRLF == os + LineText(HeaderLine(name, "", value))
  {
    assert name + ":" + "" == name + ":";
    FourParts(os, name, ":", value, CRLF);
  }

  lemma FourParts(os: string, a: string, b: string, c: string, d: string)
    ensures (((os + a) + b) + c) + d == os + (a + b + c + d)
  {
  }

  lemma ConnectionText(os: string, close: bool)
    ensures ((os + "connection: ") + (if close then "close" else "keep-alive")) + CRLF == os + LineText(ConnectionLine(close))
  {
    var line := ConnectionLine(close);
    assert line.name + ":" + line.pad == "connection: ";
    ThreeParts(os, "connection: ", line.value, CRLF);
  }

  lemma ThreeParts(os: string, a: string, b: string, c: string)
    ensures ((os + a) + b) + c == os + (a + b + c)
  {
  }

  lemma LengthText(os: string, n: nat)
    ensures ((os + "content-length: ") + Decimal(n)) + "\r\n\r\n"
         == (os + LineText(HeaderLine("content-length", " ", Decimal(n)))) + CRLF
  {
    var line := HeaderLine("content-length", " ", Decimal(n));
    hide Decimal;
    assert line.name + ":" + line.pad == "content-length: ";
    assert "\r\n\r\n" == CRLF + CRLF;
    ThreeParts(os, "content-length: ", line.value, CRLF);
    Assoc((os + "content-length: ") + line.value, CRLF, CRLF);
  }

  // --------------------------------------------------------------- responses

  datatype Response = Response(version: nat, status: int, close: bool, reason: string, body: string, headers: Headers)

  /** The reason as printed: its own text, or the standard text of its status. */
  function PrintedReason(r: Response): string {
    if r.reason == "" then StatusText(r.status) else r.reason
  }

  function VersionText(version: nat): string {
    "HTTP/" + Decimal(version / 16) + "." + Decimal(version % 16)
  }

  function StatusLine(r: Response): string
    requires r.status >= 0
  {
    VersionText(r.version) + " " + Decimal(r.status) + " " + PrintedReason(r) + CRLF
  }

  function ResponseLines(r: Response, order: seq<string>): seq<HeaderLine>
    requires forall k :: k in order ==> k in r.headers
  {
    MapLines(order, r.headers) + [ConnectionLine(r.close)] + LengthLines(r.body)
  }

  function ResponseText(r: Response, order: seq<string>): string
    requires r.status >= 0 && forall k :: k in order ==> k in r.headers
  {
    StatusLine(r) + LineTexts(ResponseLines(r, order)) + CRLF + r.body
  }

  /** `HttpRespond::dump`. */
  method DumpResponse(r: Response, order: seq<string>) returns (os: string)
    requires r.status >= 0 && Enumerates(order, r.headers)
    ensures os == ResponseText(r, order)
  {
    os := "HTTP/" + Decimal(r.version / 16) + "." + Decimal(r.version % 16)
      + " " + Decimal(r.status)
      + " " + (if r.reason == "" then StatusText(r.status) else r.reason) + CRLF;
    assert os == StatusLine(r);
    hide *;
    ghost var head, maps := os, MapLines(order, r.headers);
    os := PrintMap(order, r.headers, os);
    ConnectionText(os, r.close);
    os := os + "connection: " + (if r.close then "close" else "keep-alive") + CRLF;
    LineTextsPush(maps, ConnectionLine(r.close));
    Assoc(head, LineTexts(maps), LineText(ConnectionLine(r.close)));
    os := PrintBody(r.body, head, maps + [ConnectionLine(r.close)], os);
    ResponseTextIs(r, order);
  }

  lemma ResponseTextIs(r: Response, order: seq<string>)
    requires r.status >= 0 && forall k :: k in order ==> k in r.headers
    ensures ResponseText(r, order)
      == StatusLine(r) + LineTexts(MapLines(order, r.headers) + [ConnectionLine(r.close)] + LengthLines(r.body)) + CRLF + r.body
  {
  }

  /** The loop over the header map. */
  method PrintMap(order: seq<string>, h: Headers, before: string) returns (os: string)
    requires Enumerates(order, h)
    ensures os == before + LineTexts(MapLines(order, h))
  {
    os := before;
    var i := 0;
    assert LineTexts(MapLines(order[..0], h)) == "";
    hide LineTexts, LineText, MapLines;
    while i < |order|
      invariant i <= |order|
      invariant os == before + LineTexts(MapLines(order[..i], h))
    {
      var k := order[i];
      ghost var lines := MapLines(order[..i], h);
      MapLinesNext(order, h, i);
      if k != CONNECTION_KEY {
        PartByPart(os, h[k].0, h[k].1);
        LineTextsPush(lines, HeaderLine(h[k].0, "", h[k].1));
        Assoc(before, LineTexts(lines), LineText(HeaderLine(h[k].0, "", h[k].1)));
        os := os + h[k].0 + ":" + h[k].1 + CRLF;
      } else {
        assert lines + [] == lines;
      }
      i := i + 1;
    }
    assert order[..i] == order;
  }

  lemma MapLinesNext(order: seq<string>, h: Headers, i: nat)
    requires i < |order| && forall k :: k in order ==> k in h
    ensures MapLines(order[..i + 1], h)
      == MapLines(order[..i], h) + if order[i] == CONNECTION_KEY then [] else [HeaderLine(h[order[i]].0, "", h[order[i]].1)]
  {
    assert order[..i + 1][..i] == order[..i];
    hide Enumerates;
  }

  /** The length of a body that is not empty, the empty line, and the body. */
  method PrintBody(body: string, ghost head: string, ghost lines: seq<HeaderLine>, before: string) returns (os: string)
    requires before == head + LineTexts(lines)
    ensures os == head + LineTexts(lines + LengthLines(body)) + CRLF + body
  {
    if body != "" {
      ghost var line := HeaderLine("content-length", " ", Decimal(|body|));
      assert LengthLines(body) == [line];
      hide Decimal, LineTexts, LineText, LengthLines;
      LineTextsPush(lines, line);
      Assoc(head, LineTexts(lines), LineText(line));
      LengthText(before, |body|);
      os := before + "content-length: " + Decimal(|body|) + "\r\n\r\n" + body;
    } else {
      assert lines + LengthLines(body) == lines;
      os := before + CRLF;
    }
  }

  // ---------------------------------------------------- printed text in place

  /** Where the parts of a printed line lie. */
  lemma PartsAt(buf: string, p: nat, line: HeaderLine)
    requires At(buf, p, LineText(line))
    ensures var n := p + |line.name|;
      var b := n + 1 + |line.pad|;
      var e := b + |line.value|;
      && At(buf, p, line.name) && At(buf, n, ":") && At(buf, n + 1, line.pad)
      && At(buf, b, line.value) && At(buf, e, CRLF) && |LineText(line)| == e + 2 - p
  {
    var l0, l1, l2, l3 := line.name, line.name + ":", line.name + ":" + line.pad, line.name + ":" + line.pad + line.value;
    AtSplit(buf, p, l3, CRLF);
    AtSplit(buf, p, l2, line.value);
    AtSplit(buf, p, l1, line.pad);
    AtSplit(buf, p, l0, ":");
  }

  lemma FirstLine(lines: seq<HeaderLine>)
    requires lines != []
    ensures LineTexts(lines) == LineText(lines[0]) + LineTexts(lines[1..])
  {
    assert lines == [lines[0]] + lines[1..];
    LineTextsConcat([lines[0]], lines[1..]);
    OneLineText(lines[0]);
  }

  /** The text of a version differs in one character only. */
  lemma VersionForm(version: nat) returns (minor: char)
    requires version == 0x10 || version == 0x11
    ensures (minor == '0' || minor == '1') && |VersionText(version)| == 8
    ensures VersionText(version) == "HTTP/" + ['1', '.', minor]
    ensures VersionText(version) + " " == "HTTP/" + ['1', '.', minor, ' ']
  {
    assert Decimal(1) == "1" && Decimal(0) == "0";
    minor := if version == 0x11 then '1' else '0';
  }

  /** Each version matches its own text and not the other. */
  lemma VersionMatches(version: nat)
    requires version == 0x10 || version == 0x11
    ensures MatchesVersion(VersionText(version), "HTTP/1.1") <==> version == 0x11
    ensures MatchesVersion(VersionText(version), "HTTP/1.0") <==> version == 0x10
  {
    assert Decimal(1) == "1" && Decimal(0) == "0";
    assert VersionText(version) == if version == 0x11 then "HTTP/1.1" else "HTTP/1.0";
    hide VersionText;
    var one, zero := "HTTP/1.1", "HTTP/1.0";
    assert one[..8] == one && zero[..8] == zero;
    assert one[7] == '1' && zero[7] == '0';
  }

  // ------------------------------------------------- the map behind the lines

  /** The header map after the lines have been reported. */
  function SetAll(h: Headers, lines: seq<HeaderLine>): Headers {
    if lines == [] then h
    else SetHeader(SetAll(h, lines[..|lines| - 1]), lines[|lines| - 1].name, lines[|lines| - 1].value)
  }

  /** The part of a map that some keys select, without the connection header. */
  function Restrict(h: Headers, keys: seq<string>): Headers {
    map k | k in keys && k in h && k != CONNECTION_KEY :: h[k]
  }

  lemma SetAllPush(h: Headers, lines: seq<HeaderLine>, line: HeaderLine)
    ensures SetAll(h, lines + [line]) == SetHeader(SetAll(h, lines), line.name, line.value)
  {
    hide SetHeader;
    assert (lines + [line])[..|lines|] == lines;
  }

  lemma {:induction false} SetAllConcat(h: Headers, a: seq<HeaderLine>, b: seq<HeaderLine>)
    ensures SetAll(h, a + b) == SetAll(SetAll(h, a), b)
  {
    if b == [] {
      assert a + b == a;
    } else {
      hide SetHeader;
      var front := b[..|b| - 1];
      SetAllConcat(h, a, front);
      assert (a + b)[..|a + b| - 1] == a + front;
    }
  }

  lemma NoKeys(h: Headers, order: seq<string>, first: Headers)
    ensures MapLines(order[..0], h) == [] && first + Restrict(h, order[..0]) == first && SetAll(first, []) == first
  {
  }

  lemma SkipConnection(h: Headers, keys: seq<string>)
    ensures Restrict(h, keys + [CONNECTION_KEY]) == Restrict(h, keys)
  {
  }

  lemma AllKeys(order: seq<string>, h: Headers, n: nat)
    ensures Enumerates(order, h) && n < |order| ==>
      order[n] in h && (forall k :: k in order ==> k in h) && order[..n + 1] == order[..n] + [order[n]]
  {
  }

  lemma MapLinesSetStep(order: seq<string>, h: Headers, n: nat, first: Headers)
    requires Enumerates(order, h) && WellKeyed(h) && n < |order| && first.Keys <= {CONNECTION_KEY}
    requires SetAll(first, MapLines(order[..n], h)) == first + Restrict(h, order[..n])
    ensures SetAll(first, MapLines(order[..n + 1], h)) == first + Restrict(h, order[..n + 1])
  {
    hide *;
    var k := order[n];
    AllKeys(order, h, n);
    MapLinesNext(order, h, n);
    if k != CONNECTION_KEY {
      NewKey(h, order, n, first);
    }
    NextKey(order[..n], order[..n + 1], k, h, first, MapLines(order[..n], h), MapLines(order[..n + 1], h));
  }

  lemma NextKey(keys: seq<string>, more: seq<string>, k: string, h: Headers, first: Headers,
                lines: seq<HeaderLine>, moreLines: seq<HeaderLine>)
    requires more == keys + [k] && k in h
    requires moreLines == lines + if k == CONNECTION_KEY then [] else [HeaderLine(h[k].0, "", h[k].1)]
    requires SetAll(first, lines) == first + Restrict(h, keys)
    requires k != CONNECTION_KEY ==>
      SetHeader(first + Restrict(h, keys), h[k].0, h[k].1) == first + Restrict(h, more)
    ensures SetAll(first, moreLines) == first + Restrict(h, more)
  {
    hide SetAll, Restrict, SetHeader;
    if k == CONNECTION_KEY {
      SkipConnection(h, keys);
      assert lines + [] == lines;
    } else {
      SetAllPush(first, lines, HeaderLine(h[k].0, "", h[k].1));
    }
  }

  lemma {:induction false} MapLinesSet(order: seq<string>, h: Headers, n: nat, first: Headers)
    requires Enumerates(order, h) && WellKeyed(h) && n <= |order| && first.Keys <= {CONNECTION_KEY}
    ensures SetAll(first, MapLines(order[..n], h)) == first + Restrict(h, order[..n])
  {
    if n == 0 {
      NoKeys(h, order, first);
    } else {
      MapLinesSet(order, h, n - 1, first);
      MapLinesSetStep(order, h, n - 1, first);
    }
  }

  lemma NewKey(h: Headers, order: seq<string>, n: nat, first: Headers)
    requires Enumerates(order, h) && WellKeyed(h) && n < |order| && order[n] != CONNECTION_KEY
    requires first.Keys <= {CONNECTION_KEY}
    ensures SetHeader(first + Restrict(h, order[..n]), h[order[n]].0, h[order[n]].1)
      == first + Restrict(h, order[..n] + [order[n]])
  {
    var k := order[n];
    assert k in h && k == LowerAll(h[k].0);
    assert k !in order[..n];
    assert k !in first.Keys;
  }

  /** The header map as printed: the connection header from its flag, the length of a body that is not empty. */
  function Rewritten(h: Headers, close: bool, body: string): Headers {
    var c := h[CONNECTION_KEY := ("connection", ConnectionLine(close).value)];
    if body == "" then c else SetHeader(c, "content-length", Decimal(|body|))
  }

  lemma ConnectionSet(h: Headers, order: seq<string>, close: bool)
    requires Enumerates(order, h)
    ensures var v := ConnectionLine(close).value;
      && SetHeader(Restrict(h, order), "connection", v) == h[CONNECTION_KEY := ("connection", v)]
      && SetHeader(map[], "connection", v) == map[CONNECTION_KEY := ("connection", v)]
      && map[CONNECTION_KEY := ("connection", v)] + Restrict(h, order) == h[CONNECTION_KEY := ("connection", v)]
  {
    assert LowerAll("connection") == CONNECTION_KEY;
  }

  lemma LengthSet(h: Headers, lines: seq<HeaderLine>, body: string)
    ensures SetAll(h, lines + LengthLines(body))
      == if body == "" then SetAll(h, lines) else SetHeader(SetAll(h, lines), "content-length", Decimal(|body|))
  {
    hide SetAll, SetHeader, Decimal;
    if body == "" {
      assert lines + LengthLines(body) == lines;
    } else {
      SetAllPush(h, lines, HeaderLine("content-length", " ", Decimal(|body|)));
    }
  }

  /** A response prints its connection header behind the map. */
  lemma ConnectionLast(h: Headers, order: seq<string>, close: bool, body: string)
    requires Enumerates(order, h) && WellKeyed(h)
    ensures SetAll(map[], MapLines(order, h) + [ConnectionLine(close)] + LengthLines(body)) == Rewritten(h, close, body)
  {
    assert order[..|order|] == order;
    ConnectionSet(h, order, close);
    assert Rewritten(h, close, body) == var c := h[CONNECTION_KEY := ("connection", ConnectionLine(close).value)];
      if body == "" then c else SetHeader(c, "content-length", Decimal(|body|));
    assert ConnectionLine(close).name == "connection";
    MapLinesSet(order, h, |order|, map[]);
    hide *;
    var maps := MapLines(order, h);
    SetAllPush(map[], maps, ConnectionLine(close));
    LengthSet(map[], maps + [ConnectionLine(close)], body);
    assert map[] + Restrict(h, order) == Restrict(h, order);
  }

  /** A request prints it in front of the map. */
  lemma ConnectionFirst(h: Headers, order: seq<string>, close: bool, body: string)
    requires Enumerates(order, h) && WellKeyed(h)
    ensures SetAll(map[], [ConnectionLine(close)] + MapLines(order, h) + LengthLines(body)) == Rewritten(h, close, body)
  {
    var maps, conn := MapLines(order, h), ConnectionLine(close);
    var first := map[CONNECTION_KEY := ("connection", conn.value)];
    assert order[..|order|] == order;
    ConnectionSet(h, order, close);
    MapLinesSet(order, h, |order|, first);
    SetAllPush(map[], [], conn);
    assert [] + [conn] == [conn];
    assert SetAll(map[], []) == map[];
    SetAllConcat(map[], [conn], maps);
    LengthSet(map[], [conn] + maps, body);
    hide MapLines, SetAll, Restrict, SetHeader, Decimal, LengthLines;
  }
}
