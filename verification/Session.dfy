/** Receiving one request over a stream: the head, and then the body in whatever pieces it comes. */
module Session {

  import opened Wrappers
  import opened Callbacks
  import opened HttpText
  import opened HttpMessage
  import opened HttpMethods
  import opened RequestMessage
  import opened RequestAutomaton
  import opened RequestParser
  import RoundTrip = RequestRoundTrip
  import opened Streams

  const BUFFER_SIZE: nat := 4096

  /** A request, or none because the stream was closed; or the head did not come in one read. */
  datatype Outcome = Received(request: Request) | Closed | Unfinished

  /** An unsigned 64-bit number as a signed one. */
  function AsLong(n: nat): int {
    var low := n % 0x1_0000_0000_0000_0000;
    if low < 0x8000_0000_0000_0000 then low else low - 0x1_0000_0000_0000_0000
  }

  lemma AsLongIs(n: nat)
    requires n < 0x1_0000_0000_0000_0000
    ensures AsLong(n) == n <==> n < 0x8000_0000_0000_0000
    ensures AsLong(n) > 0 <==> 0 < n < 0x8000_0000_0000_0000
  {
  }

  /** The content length as `cast` reads it; 0 if there is none or it is not a number. */
  function ContentLength(h: Headers, cast: string -> Option<nat>): (n: nat)
    ensures n > 0 ==> "content-length" in h && cast(h["content-length"].1) == Some(n)
    ensures n == 0 ==> "content-length" !in h || cast(h["content-length"].1) == None || cast(h["content-length"].1) == Some(0)
  {
    if "content-length" !in h then 0
    else match cast(h["content-length"].1)
      case None => 0
      case Some(n) => n
  }

  /** What is received if the first read brings `k` bytes of the text. */
  function Receive(text: string, k: nat, cast: string -> Option<nat>): Outcome
    requires k <= |text|
  {
    var (m, end) := Exec(Init(), text[..k], 0);
    var parsed := OnEvents(Fresh(), m.events);
    if k == 0 || parsed.error != 0 || m.cs == ERROR || k - end == BUFFER_SIZE then Closed
    else if m.cs != FINAL then Unfinished
    else WithBody(text, k, end, parsed.data, AsLong(ContentLength(parsed.data.headers, cast)))
  }

  /** The body is the next `length` bytes behind the head, if they come and their number fits an `int`. */
  function WithBody(text: string, k: nat, end: nat, data: Request, length: int): Outcome
    requires k <= |text|
  {
    if length <= 0 then Received(data)
    else
      var missing := length - (k - end);
      if missing > 0 && (|text| < end + length || AsInt(missing) <= 0) then Closed
      else if end + length <= |text| then Received(data.(body := text[end..end + length]))
      else Closed
  }

  /** The first read brings a whole head that the parser accepts. */
  predicate HeadCame(text: string, k: nat)
    requires k <= |text|
  {
    var (m, end) := Exec(Init(), text[..k], 0);
    0 < k && m.cs == FINAL && OnEvents(Fresh(), m.events).error == 0 && k - end != BUFFER_SIZE
  }

  /** The count that `readFixSize` returns for so many bytes is positive as an `int`. */
  predicate Countable(missing: int) {
    0 < missing % 0x1_0000_0000 < 0x8000_0000
  }

  /**
   `HttpSession::recvRequest`. If the first read brings the head, the request is
   received exactly if as many bytes as its content length come behind the head,
   and they are its body; else the stream is closed. Without a content length
   the body is empty and nothing more is read.
   */
  method RecvRequest(stream: Stream, cast: string -> Option<nat>) returns (outcome: Outcome)
    modifies stream`incoming, stream`calls
    ensures var text, k := old(stream.incoming), old(stream.Piece(BUFFER_SIZE, |stream.incoming|));
      var (m, end) := Exec(Init(), text[..k], 0);
      var data := OnEvents(Fresh(), m.events).data;
      var n := AsLong(ContentLength(data.headers, cast));
      && outcome == Receive(text, k, cast) && end <= k
      && (outcome.Received? <==> HeadCame(text, k) && (n > 0 ==> end + n <= |text| && (n > k - end ==> Countable(n - (k - end)))))
      && (HeadCame(text, k) && n > 0 && |text| - end < n ==> outcome == Closed)
      && (outcome.Received? ==> outcome.request == data.(body := if n > 0 then text[end..end + n] else ""))
      && (outcome.Received? ==> stream.incoming == if n > k - end then text[end + n..] else text[k..])
  {
    hide Exec, OnEvents, WithBody, ContentLength, AsLong, Countable, Fresh, Stopped;
    ghost var text := stream.incoming;
    var buffer := new char[BUFFER_SIZE];
    var len := stream.Read(buffer, 0, BUFFER_SIZE);
    if len == 0 {
      ExecEnds(Init(), text[..0], 0);
      return Closed;
    }
    var parser := new RequestLoop();
    var data := buffer[..len];
    assert data == text[..len];
    var nparser, rest := parser.ExecuteAndShift(data);
    if parser.parsed.error != 0 || parser.machine.cs == ERROR {
      return Closed;
    }
    var offset := len - nparser;
    if offset == BUFFER_SIZE {
      return Closed;
    }
    ExecInRange(Init(), data, 0);
    FreshBody(parser.machine.events);
    var finished := parser.Finish();
    if finished != 1 {
      return Unfinished;
    }
    var length := AsLong(ContentLength(parser.parsed.data.headers, cast));
    outcome := ReadBody(stream, text, len, nparser, rest, parser.parsed.data, length);
  }

  /** No callback touches the body. */
  lemma {:induction false} NoBody(x: Parsed<Request>, events: seq<Event>)
    requires x.data.body == ""
    ensures OnEvents(x, events).data.body == ""
  {
    if events != [] {
      NoBody(x, events[..|events| - 1]);
      OneNoBody(OnEvents(x, events[..|events| - 1]), events[|events| - 1]);
    }
  }

  lemma FreshBody(events: seq<Event>)
    ensures OnEvents(Fresh(), events).data.body == ""
  {
    NoBody(Fresh(), events);
    hide OnEvents;
  }

  lemma OneNoBody(x: Parsed<Request>, e: Event)
    ensures OnEvent(x, e).data.body == x.data.body
  {
    hide FirstMethod, VersionOf, SetHeader;
  }

  /** The part of the body that came with the head, and the rest of it from the stream. */
  method ReadBody(stream: Stream, ghost text: string, ghost k: nat, ghost end: nat,
                  rest: string, data: Request, length: int) returns (outcome: Outcome)
    requires end <= k <= |text| && rest == text[end..k] && stream.incoming == text[k..]
    modifies stream`incoming, stream`calls
    ensures outcome == WithBody(text, k, end, data, length) && !outcome.Unfinished?
    ensures outcome.Received? <==>
      (length > 0 ==> end + length <= |text| && (length > k - end ==> Countable(length - (k - end))))
    ensures outcome.Received? ==> outcome.request == if length > 0 then data.(body := text[end..end + length]) else data
    ensures outcome.Received? ==> stream.incoming == if length > k - end then text[end + length..] else text[k..]
  {
    if length <= 0 {
      return Received(data);
    }
    var offset := |rest|;
    var body := new char[length];
    var len := if length >= offset then offset else length;
    forall i | 0 <= i < len {
      body[i] := rest[i];
    }
    assert body[..len] == rest[..len];
    var missing := length - offset;
    if missing > 0 {
      var rt := stream.ReadFixSize(body, len, missing);
      if rt <= 0 {
        return Closed;
      }
      assert body[..] == text[end..end + length];
    } else {
      assert body[..] == text[end..end + length];
    }
    return Received(data.(body := body[..]));
  }

  /** `HttpSession::sendRespond`: the peer gets the printed response, or the prefix it accepts. */
  method SendResponse(stream: Stream, r: Response, order: seq<string>) returns (rt: int)
    requires r.status >= 0 && Enumerates(order, r.headers)
    modifies stream`written, stream`room, stream`calls
    ensures var text := ResponseText(r, order);
      && stream.written == old(stream.written) + text[..Min(|text|, old(stream.room))]
      && (rt == if old(stream.room) >= |text| then AsInt(|text|) else 0)
      && (|text| < 0x8000_0000 ==> rt == if old(stream.room) >= |text| then |text| else 0)
  {
    var data := DumpResponse(r, order);
    rt := stream.WriteFixSize(data);
  }

  // -------------------------------------------------------------- round trip

  /** The position of the body in the printed request. */
  function HeadLength(r: Request, order: seq<string>): nat
    requires forall k :: k in order ==> k in r.headers
  {
    |MethodName(r.verb)| + |Target(r)| + |VersionText(r.version)| + |LineTexts(RequestLines(r, order))| + 6
  }

  lemma Within(buf: string, more: string, k: nat, p: nat, t: string)
    requires At(buf, p, t) && p + |t| <= k <= |buf + more|
    ensures At((buf + more)[..k], p, t)
  {
    assert (buf + more)[..k][p..p + |t|] == buf[p..p + |t|];
  }

  /** The automaton behind the head, if the first read brings the head and maybe more. */
  lemma HeadReceived(r: Request, order: seq<string>, more: string, k: nat) returns (m: Machine)
    requires RoundTrip.Printable(r) && r.verb != M_SEARCH && Enumerates(order, r.headers)
    requires forall k :: k in order ==> k in r.headers
    requires HeadLength(r, order) <= k <= |RequestText(r, order) + more|
    ensures Exec(Init(), (RequestText(r, order) + more)[..k], 0) == (m, HeadLength(r, order))
    ensures m.cs == FINAL && m.events == RoundTrip.AllEvents(r, RequestLines(r, order))
  {
    hide *;
    var text := RequestText(r, order);
    var name, target, version := MethodName(r.verb), Target(r), VersionText(r.version);
    var lines := LineTexts(RequestLines(r, order));
    var a := |name| + 1;
    var b := a + |target| + 1;
    var c := b + |version| + 2;
    HeadLengthIs(r, order);
    RoundTrip.RequestParts(r, order);
    Within(text, more, k, 0, name);
    Within(text, more, k, |name|, " ");
    Within(text, more, k, a, target + " ");
    Within(text, more, k, b, version + CRLF);
    Within(text, more, k, c, lines);
    Within(text, more, k, c + |lines|, CRLF);
    RoundTrip.PrintableParts(r);
    RoundTrip.LinesClean(r, order);
    NameFacts(r.verb);
    var end;
    m, end := RoundTrip.HeadFrom((text + more)[..k], r, RequestLines(r, order));
  }

  lemma HeadLengthIs(r: Request, order: seq<string>)
    requires forall k :: k in order ==> k in r.headers
    ensures HeadLength(r, order)
      == |MethodName(r.verb)| + |Target(r)| + |VersionText(r.version)| + |LineTexts(RequestLines(r, order))| + 6
    ensures |CRLF| == 2
  {
    hide MethodName, Target, VersionText, LineTexts, RequestLines;
  }

  lemma LengthKey(h: Headers, close: bool, body: string)
    ensures body != "" ==>
      && "content-length" in Rewritten(h, close, body)
      && Rewritten(h, close, body)["content-length"].1 == Decimal(|body|)
    ensures body == "" ==> ("content-length" in Rewritten(h, close, body) <==> "content-length" in h)
  {
    assert LowerAll("content-length") == "content-length";
    assert |CONNECTION_KEY| == 10 && |"content-length"| == 14;
    hide Decimal, LowerAll;
  }

  lemma LengthRead(h: Headers, close: bool, body: string, cast: string -> Option<nat>)
    requires body == "" ==> "content-length" !in h
    requires cast(Decimal(|body|)) == Some(|body|) && |body| < 0x8000_0000
    ensures AsLong(ContentLength(Rewritten(h, close, body), cast)) == |body|
  {
    hide Rewritten, Decimal, AsLong;
    LengthKey(h, close, body);
    SmallLong(|body|);
  }

  lemma SmallLong(n: nat)
    ensures n < 0x8000_0000 ==> AsLong(n) == n && AsLong(0) == 0
  {
  }

  lemma ReceiveIs(text: string, k: nat, cast: string -> Option<nat>, m: Machine, end: nat, data: Request)
    requires 0 < k <= |text| && k <= BUFFER_SIZE && 0 < end
    requires Exec(Init(), text[..k], 0) == (m, end) && m.cs == FINAL && OnEvents(Fresh(), m.events) == Parsed(data, 0)
    ensures Receive(text, k, cast) == WithBody(text, k, end, data, AsLong(ContentLength(data.headers, cast)))
  {
    hide Exec, OnEvents, WithBody, ContentLength, AsLong, Init, Fresh;
  }

  lemma WithBodyIs(text: string, k: nat, end: nat, data: Request, body: string)
    requires end <= k <= |text| && end + |body| <= |text| && text[end..end + |body|] == body
    requires |body| < 0x8000_0000 && data.body == ""
    ensures WithBody(text, k, end, data, |body|) == Received(data.(body := body))
  {
  }

  /**
   A printed request that is received gives the request with its body, however
   the stream cuts it, if the first read holds the whole head.
   */
  lemma RequestReceived(r: Request, order: seq<string>, more: string, k: nat, cast: string -> Option<nat>)
    requires RoundTrip.Printable(r) && r.verb != M_SEARCH && Enumerates(order, r.headers)
    requires forall k :: k in order ==> k in r.headers
    requires (r.body == "" ==> "content-length" !in r.headers) && |r.body| < 0x8000_0000
    requires cast(Decimal(|r.body|)) == Some(|r.body|)
    requires HeadLength(r, order) <= k <= BUFFER_SIZE && k <= |RequestText(r, order) + more|
    ensures Receive(RequestText(r, order) + more, k, cast)
      == Received(RoundTrip.Restored(r).data.(body := r.body))
  {
    var restored := RoundTrip.Restored(r);
    assert restored.data.body == "" && restored.data.headers == Rewritten(r.headers, r.close, r.body);
    assert restored == Parsed(restored.data, 0);
    hide *;
    var text, end := RequestText(r, order) + more, HeadLength(r, order);
    var m := HeadReceived(r, order, more, k);
    RoundTrip.LinesClean(r, order);
    LinesSet(r, order);
    RoundTrip.PrintableParts(r);
    RoundTrip.CallbacksRestore(r, RequestLines(r, order));
    LengthRead(r.headers, r.close, r.body, cast);
    BodyBehind(r, order, more);
    ReceiveIs(text, k, cast, m, end, RoundTrip.Restored(r).data);
    WithBodyIs(text, k, end, RoundTrip.Restored(r).data, r.body);
  }

  lemma LinesSet(r: Request, order: seq<string>)
    requires RoundTrip.Printable(r) && Enumerates(order, r.headers)
    ensures SetAll(map[], RequestLines(r, order)) == Rewritten(r.headers, r.close, r.body)
  {
    ConnectionFirst(r.headers, order, r.close, r.body);
    hide MapLines, SetAll, Rewritten, LengthLines;
  }

  lemma BodyBehind(r: Request, order: seq<string>, more: string)
    requires Enumerates(order, r.headers)
    ensures var end := HeadLength(r, order);
      && 0 < end && end + |r.body| <= |RequestText(r, order) + more|
      && (RequestText(r, order) + more)[end..end + |r.body|] == r.body
  {
    RoundTrip.RequestParts(r, order);
    var text, end := RequestText(r, order), HeadLength(r, order);
    assert end == |MethodName(r.verb)| + 1 + |Target(r)| + 1 + |VersionText(r.version)| + 2 + |LineTexts(RequestLines(r, order))| + 2;
    hide RequestText, MethodName, Target, VersionText, LineTexts, RequestLines, HeadLength;
    assert |text| == end + |r.body|;
    assert (text + more)[end..end + |r.body|] == text[end..];
  }
}
