/** Requests and how they are printed. */
module RequestMessage {

  import opened HttpText
  import opened HttpMethods
  import opened HttpMessage

  datatype Request = Request(
    verb: nat,
    path: string,
    query: string,
    fragment: string,
    version: nat,
    close: bool,
    body: string,
    headers: Headers)

  /** A part that is printed behind its separator, or not at all if it is empty. */
  function Marked(separator: string, part: string): string {
    if part == "" then "" else separator + part
  }

  function Target(r: Request): string {
    r.path + Marked("?", r.query) + Marked("#", r.fragment)
  }

  function RequestLine(r: Request): string {
    MethodName(r.verb) + " " + Target(r) + " " + VersionText(r.version) + CRLF
  }

  function RequestLines(r: Request, order: seq<string>): seq<HeaderLine>
    requires forall k :: k in order ==> k in r.headers
  {
    [ConnectionLine(r.close)] + MapLines(order, r.headers) + LengthLines(r.body)
  }

  function RequestText(r: Request, order: seq<string>): string
    requires forall k :: k in order ==> k in r.headers
  {
    RequestLine(r) + LineTexts(RequestLines(r, order)) + CRLF + r.body
  }

  lemma MarkedParts(os: string, separator: string, part: string)
    ensures (os + (if part == "" then "" else separator)) + part == os + Marked(separator, part)
  {
  }

  lemma TargetParts(os: string, r: Request)
    ensures ((os + r.path) + Marked("?", r.query)) + Marked("#", r.fragment) == os + Target(r)
  {
    hide Marked;
    ThreeParts(os, r.path, Marked("?", r.query), Marked("#", r.fragment));
  }

  lemma VersionParts(os: string, major: string, minor: string)
    ensures (((os + " HTTP/") + major) + ".") + minor == (os + " ") + ("HTTP/" + major + "." + minor)
  {
    assert os + " HTTP/" == (os + " ") + "HTTP/";
    FourParts(os + " ", "HTTP/", major, ".", minor);
  }

  /** The first line as `HttpRequest::dump` writes it, part by part. */
  method PrintLine(r: Request) returns (os: string)
    ensures os == RequestLine(r)
  {
    hide MethodName, Decimal, Marked, Target;
    os := MethodName(r.verb) + " ";
    ghost var before := os;
    MarkedParts(os + r.path, "?", r.query);
    os := os + r.path + (if r.query == "" then "" else "?") + r.query;
    MarkedParts(os, "#", r.fragment);
    os := os + (if r.fragment == "" then "" else "#") + r.fragment;
    TargetParts(before, r);
    VersionParts(os, Decimal(r.version / 16), Decimal(r.version % 16));
    os := os + " HTTP/" + Decimal(r.version / 16) + "." + Decimal(r.version % 16) + CRLF;
  }

  /** `HttpRequest::dump`. */
  method DumpRequest(r: Request, order: seq<string>) returns (os: string)
    requires Enumerates(order, r.headers)
    ensures os == RequestText(r, order)
  {
    assert forall k :: k in order ==> k in r.headers;
    hide *;
    os := PrintLine(r);
    ghost var head, conn, maps := os, ConnectionLine(r.close), MapLines(order, r.headers);
    ConnectionText(os, r.close);
    OneLineText(conn);
    os := os + "connection: " + (if r.close then "close" else "keep-alive") + CRLF;
    os := PrintMap(order, r.headers, os);
    Assoc(head, LineTexts([conn]), LineTexts(maps));
    LineTextsConcat([conn], maps);
    os := PrintBody(r.body, head, [conn] + maps, os);
    RequestTextIs(r, order);
  }

  lemma RequestTextIs(r: Request, order: seq<string>)
    requires forall k :: k in order ==> k in r.headers
    ensures RequestText(r, order)
      == RequestLine(r) + LineTexts([ConnectionLine(r.close)] + MapLines(order, r.headers) + LengthLines(r.body)) + CRLF + r.body
  {
  }
}
