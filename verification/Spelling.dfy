/** Printed messages spelled out, without the records the printers and the round trips share. */
module Spelling {

  import opened HttpText
  import opened HttpMessage
  import opened HttpMethods
  import opened HttpStatus
  import opened RequestMessage

  /** The headers of a map in some order, but the connection header. */
  function Joined(order: seq<string>, h: Headers): string
    requires forall k :: k in order ==> k in h
  {
    if order == [] then ""
    else (if order[0] == "connection" then "" else h[order[0]].0 + ":" + h[order[0]].1 + "\r\n") + Joined(order[1..], h)
  }

  lemma {:induction false} JoinedLines(order: seq<string>, h: Headers, n: nat)
    requires n <= |order| && forall k :: k in order ==> k in h
    ensures LineTexts(MapLines(order[..n], h)) == Joined(order[..n], h)
  {
    if n > 0 {
      assert order[..n] == order[..n - 1] + [order[n - 1]];
      assert order[..n][..n - 1] == order[..n - 1];
      hide LineText, LineTexts, Joined, MapLines;
      JoinedLines(order, h, n - 1);
      JoinedPush(order[..n - 1], order[n - 1], h);
      MapLinesPush(order[..n - 1], order[n - 1], h);
    }
  }

  /** One more entry is one more printed line, or none for the connection header. */
  lemma MapLinesPush(order: seq<string>, k: string, h: Headers)
    requires k in h && forall j :: j in order ==> j in h
    ensures LineTexts(MapLines(order + [k], h))
      == LineTexts(MapLines(order, h)) + if k == "connection" then "" else h[k].0 + ":" + h[k].1 + "\r\n"
  {
    assert (order + [k])[..|order|] == order;
    hide LineText, LineTexts;
    var lines := MapLines(order, h);
    if k != CONNECTION_KEY {
      LineTextsPush(lines, HeaderLine(h[k].0, "", h[k].1));
      HeaderForm(h[k].0, h[k].1);
    } else {
      assert lines + [] == lines;
    }
  }

  lemma HeaderForm(name: string, value: string)
    ensures LineText(HeaderLine(name, "", value)) == name + ":" + value + "\r\n"
  {
    assert name + ":" + "" == name + ":";
  }

  lemma {:induction false} JoinedPush(order: seq<string>, k: string, h: Headers)
    requires k in h && forall j :: j in order ==> j in h
    ensures Joined(order + [k], h) == Joined(order, h) + if k == "connection" then "" else h[k].0 + ":" + h[k].1 + "\r\n"
  {
    if order != [] {
      assert (order + [k])[1..] == order[1..] + [k];
      JoinedPush(order[1..], k, h);
    } else {
      assert [k][1..] == [];
    }
  }

  lemma ConnectionForm(close: bool)
    ensures LineText(ConnectionLine(close)) == if close then "connection: close\r\n" else "connection: keep-alive\r\n"
  {
    assert "connection" + ":" + " " == "connection: ";
    assert "connection: " + "close" == "connection: close" && "connection: close" + CRLF == "connection: close\r\n";
    assert "connection: " + "keep-alive" == "connection: keep-alive";
    assert "connection: keep-alive" + CRLF == "connection: keep-alive\r\n";
  }

  lemma LengthForm(body: string)
    ensures LineTexts(LengthLines(body)) == if body == "" then "" else "content-length: " + Decimal(|body|) + "\r\n"
  {
    hide Decimal, LineText, LineTexts;
    if body == "" {
      NoLines();
    } else {
      OneLineText(HeaderLine("content-length", " ", Decimal(|body|)));
      LengthLine(Decimal(|body|));
    }
  }

  lemma NoLines()
    ensures LineTexts([]) == ""
  {
  }

  lemma LengthLine(n: string)
    ensures LineText(HeaderLine("content-length", " ", n)) == "content-length: " + n + "\r\n"
  {
    var name := "content-length";
    assert name + ":" + " " == "content-length: ";
    hide *;
    assert CRLF == "\r\n" by {
      LineBreakIs();
    }
    LineTextIs(name, " ", n);
  }

  lemma LineTextIs(name: string, pad: string, value: string)
    ensures LineText(HeaderLine(name, pad, value)) == name + ":" + pad + value + CRLF
  {
  }

  /** A request: the request line, the connection, the headers, the length of a body that is not empty, and the body. */
  lemma RequestSpelled(r: Request, order: seq<string>)
    requires Enumerates(order, r.headers)
    ensures forall k :: k in order ==> k in r.headers
    ensures RequestText(r, order)
      == (MethodName(r.verb) + " "
          + (r.path + (if r.query == "" then "" else "?" + r.query) + (if r.fragment == "" then "" else "#" + r.fragment)) + " "
          + ("HTTP/" + Decimal(r.version / 16) + "." + Decimal(r.version % 16)) + "\r\n")
         + ((if r.close then "connection: close\r\n" else "connection: keep-alive\r\n") + Joined(order, r.headers)
            + (if r.body == "" then "" else "content-length: " + Decimal(|r.body|) + "\r\n"))
         + "\r\n" + r.body
  {
    var maps, length := MapLines(order, r.headers), LengthLines(r.body);
    assert RequestLine(r) == MethodName(r.verb) + " "
        + (r.path + (if r.query == "" then "" else "?" + r.query) + (if r.fragment == "" then "" else "#" + r.fragment)) + " "
        + ("HTTP/" + Decimal(r.version / 16) + "." + Decimal(r.version % 16)) + "\r\n" by {
      hide Decimal, MethodName;
    }
    assert order[..|order|] == order;
    assert forall k :: k in order ==> k in r.headers;
    hide *;
    ConnectionForm(r.close);
    JoinedLines(order, r.headers, |order|);
    LengthForm(r.body);
    LineTextsConcat([ConnectionLine(r.close)], maps);
    LineTextsConcat([ConnectionLine(r.close)] + maps, length);
    OneLineText(ConnectionLine(r.close));
    RequestTextIs(r, order);
    LineBreakIs();
  }

  lemma LineBreakIs()
    ensures CRLF == "\r\n"
  {
  }

  /** A response: the status line, the headers, the connection, the length of a body that is not empty, and the body. */
  lemma ResponseSpelled(r: Response, order: seq<string>)
    requires r.status >= 0 && Enumerates(order, r.headers)
    ensures forall k :: k in order ==> k in r.headers
    ensures ResponseText(r, order)
      == (("HTTP/" + Decimal(r.version / 16) + "." + Decimal(r.version % 16)) + " " + Decimal(r.status) + " "
          + (if r.reason == "" then StatusText(r.status) else r.reason) + "\r\n")
         + (Joined(order, r.headers) + (if r.close then "connection: close\r\n" else "connection: keep-alive\r\n")
            + (if r.body == "" then "" else "content-length: " + Decimal(|r.body|) + "\r\n"))
         + "\r\n" + r.body
  {
    var maps, length := MapLines(order, r.headers), LengthLines(r.body);
    assert StatusLine(r) == ("HTTP/" + Decimal(r.version / 16) + "." + Decimal(r.version % 16)) + " " + Decimal(r.status) + " "
        + (if r.reason == "" then StatusText(r.status) else r.reason) + "\r\n" by {
      hide Decimal, StatusText;
    }
    assert order[..|order|] == order;
    assert forall k :: k in order ==> k in r.headers;
    hide *;
    ConnectionForm(r.close);
    JoinedLines(order, r.headers, |order|);
    LengthForm(r.body);
    LineTextsConcat(maps, [ConnectionLine(r.close)]);
    LineTextsConcat(maps + [ConnectionLine(r.close)], length);
    OneLineText(ConnectionLine(r.close));
    ResponseTextIs(r, order);
    LineBreakIs();
  }
}
