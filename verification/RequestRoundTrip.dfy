/** Parsing a printed request gives the request back and leaves its body. */
module RequestRoundTrip {

  import opened Callbacks
  import opened HttpText
  import opened HttpMessage
  import opened HttpMethods
  import opened RequestMessage
  import opened RequestAutomaton
  import opened RequestParser

  // -------------------------------------------------------------- the method

  /** The state after so many characters of the method. */
  function MethodState(n: nat): nat {
    if n == 1 then 2 else 173 + n
  }

  lemma MethodOne(m: Machine, buf: string, n: nat)
    requires 0 < n < 20 && n < |buf| && m.cs == MethodState(n) && IsMethodChar(buf[n])
    ensures Exec(m, buf, n) == Exec(m.(cs := MethodState(n + 1)), buf, n + 1)
  {
    OneStep(m, buf, n);
    hide Exec;
  }

  lemma {:induction false} MethodChars(m: Machine, buf: string, n: nat, end: nat)
    requires 0 < n <= end <= 20 && end <= |buf| && m.cs == MethodState(n)
    requires forall i :: n <= i < end ==> IsMethodChar(buf[i])
    ensures Exec(m, buf, n) == Exec(m.(cs := MethodState(end)), buf, end)
    decreases end - n
  {
    hide Exec, IsMethodChar;
    if n < end {
      MethodOne(m, buf, n);
      MethodChars(m.(cs := MethodState(n + 1)), buf, n + 1, end);
    }
  }

  lemma MethodAt(buf: string, name: string)
    requires IsMethodText(name) && At(buf, 0, name) && At(buf, |name|, " ")
    ensures |name| < |buf| && buf[0..|name|] == name && buf[|name|] == ' '
    ensures forall i :: 0 <= i < |name| ==> IsMethodChar(buf[i])
  {
    AtIndex(buf, |name|, " ", 0);
    forall i | 0 <= i < |name| ensures IsMethodChar(buf[i]) {
      AtIndex(buf, 0, name, i);
    }
  }

  lemma MethodRun(buf: string, name: string)
    requires IsMethodText(name) && At(buf, 0, name) && At(buf, |name|, " ")
    ensures Exec(Init(), buf, 0) == Exec(Init().(cs := 3, events := [Method(name)]), buf, |name| + 1)
  {
    MethodAt(buf, name);
    assert 0 < |name| <= 20;
    assert Init().cs == 1 && Init().mark == 0 && Init().events == [];
    MethodFirst(buf);
    hide At, IsMethodText, Exec, IsMethodChar, Init, MethodState;
    MethodSecond(buf, |name|);
    MethodEnd(Init().(cs := MethodState(|name|)), buf, |name|);
    assert [] + [Method(name)] == [Method(name)];
  }

  lemma MethodFirst(buf: string)
    requires buf != "" && IsMethodChar(buf[0])
    ensures Exec(Init(), buf, 0) == Exec(Init().(cs := MethodState(1)), buf, 1)
  {
    OneStep(Init(), buf, 0);
    hide Exec;
  }

  lemma MethodSecond(buf: string, end: nat)
    requires 0 < end <= 20 && end <= |buf| && forall i :: 0 <= i < end ==> IsMethodChar(buf[i])
    ensures Exec(Init().(cs := MethodState(1)), buf, 1) == Exec(Init().(cs := MethodState(end)), buf, end)
  {
    hide Exec, IsMethodChar, MethodState;
    MethodChars(Init().(cs := MethodState(1)), buf, 1, end);
  }

  lemma MethodEnd(m: Machine, buf: string, n: nat)
    requires 0 < n <= 20 && n < |buf| && m.cs == MethodState(n) && m.mark == 0 && buf[n] == ' '
    ensures Exec(m, buf, n) == Exec(m.(cs := 3, events := m.events + [Method(buf[0..n])]), buf, n + 1)
  {
    OneStep(m, buf, n);
    hide Exec;
  }

  // -------------------------------------------------------------- the target

  datatype Part = InPath | InQuery | InFragment

  predicate OwnChar(part: Part, c: char) {
    if part.InPath? then IsPathChar(c) else IsQueryChar(c)
  }

  /** Characters that stand for themselves and percent escapes. */
  predicate Escaped(part: Part, s: string) {
    s == ""
    || (|s| >= 3 && s[0] == '%' && IsHex(s[1]) && IsHex(s[2]) && Escaped(part, s[3..]))
    || (OwnChar(part, s[0]) && Escaped(part, s[1..]))
  }

  function First(part: Part): nat {
    match part case InPath => 33 case InQuery => 29 case InFragment => 20
  }

  function Plain(part: Part): nat {
    match part case InPath => 26 case InQuery => 30 case InFragment => 21
  }

  function Escape(part: Part): nat {
    match part case InPath => 27 case InQuery => 31 case InFragment => 22
  }

  /** What the first character of a part marks. */
  function Begun(part: Part, m: Machine, p: nat): Machine {
    match part
    case InPath => m
    case InQuery => if m.cs == 29 then m.(queryStart := p) else m
    case InFragment => if m.cs == 20 then m.(mark := p) else m
  }

  lemma PartChar(m: Machine, buf: string, p: nat, part: Part)
    requires p < |buf| && (m.cs == First(part) || m.cs == Plain(part))
    requires OwnChar(part, buf[p]) || buf[p] == '%'
    requires m.cs == 33 ==> buf[p] != '/'
    ensures Exec(m, buf, p)
      == Exec(Begun(part, m, p).(cs := if buf[p] == '%' then Escape(part) else Plain(part)), buf, p + 1)
  {
    OneStep(m, buf, p);
    hide Exec;
  }

  lemma HexChars(m: Machine, buf: string, p: nat, part: Part)
    requires p + 1 < |buf| && m.cs == Escape(part) && IsHex(buf[p]) && IsHex(buf[p + 1])
    ensures Exec(m, buf, p) == Exec(m.(cs := Plain(part)), buf, p + 2)
  {
    OneStep(m, buf, p);
    OneStep(m.(cs := m.cs + 1), buf, p + 1);
    hide Exec;
  }

  /** One character or one escape. */
  lemma PartItem(m: Machine, buf: string, p: nat, part: Part, s: string) returns (n: nat)
    requires s != "" && Escaped(part, s) && At(buf, p, s) && (m.cs == First(part) || m.cs == Plain(part))
    requires m.cs == 33 ==> s[0] != '/'
    ensures 0 < n <= |s| && Escaped(part, s[n..]) && At(buf, p + n, s[n..])
    ensures Exec(m, buf, p) == Exec(Begun(part, m, p).(cs := Plain(part)), buf, p + n)
  {
    AtIndex(buf, p, s, 0);
    n := if OwnChar(part, s[0]) then 1 else 3;
    assert s == s[..n] + s[n..];
    AtSplit(buf, p, s[..n], s[n..]);
    PercentIsNot(part);
    PartChar(m, buf, p, part);
    if n == 3 {
      AtIndex(buf, p, s, 1);
      AtIndex(buf, p, s, 2);
      hide Exec;
      HexChars(Begun(part, m, p).(cs := Escape(part)), buf, p + 1, part);
    }
  }

  lemma PercentIsNot(part: Part)
    ensures !OwnChar(part, '%')
  {
  }

  lemma {:induction false} PartRun(m: Machine, buf: string, p: nat, part: Part, s: string)
    requires Escaped(part, s) && At(buf, p, s) && m.cs == Plain(part)
    ensures Exec(m, buf, p) == Exec(m, buf, p + |s|)
    decreases |s|
  {
    hide Exec, Escaped, At, OwnChar;
    if s != "" {
      var n := PartItem(m, buf, p, part, s);
      assert Begun(part, m, p) == m;
      PartRun(m, buf, p + n, part, s[n..]);
    }
  }

  /** A whole part that is not empty, from its first state. */
  lemma PartFromFirst(m: Machine, buf: string, p: nat, part: Part, s: string)
    requires s != "" && Escaped(part, s) && At(buf, p, s) && m.cs == First(part)
    requires m.cs == 33 ==> s[0] != '/'
    ensures Exec(m, buf, p) == Exec(Begun(part, m, p).(cs := Plain(part)), buf, p + |s|)
  {
    hide Exec, Escaped, At, OwnChar;
    var n := PartItem(m, buf, p, part, s);
    PartRun(Begun(part, m, p).(cs := Plain(part)), buf, p + n, part, s[n..]);
  }

  /** One leading slash, and then characters of a path. */
  predicate PathOk(path: string) {
    path != "" && path[0] == '/' && Escaped(InPath, path[1..]) && (|path| > 1 ==> path[1] != '/')
  }

  function PathEnd(path: string): nat {
    if |path| == 1 then 33 else 26
  }

  lemma PathRun(m: Machine, buf: string, p: nat, path: string)
    requires m.cs == 3 && PathOk(path) && At(buf, p, path)
    ensures p + |path| <= |buf| && buf[p..p + |path|] == path
    ensures Exec(m, buf, p) == Exec(m.(cs := PathEnd(path), mark := p), buf, p + |path|)
  {
    hide *;
    PathAt(buf, p, path);
    Slash(m, buf, p);
    if |path| > 1 {
      RestOfPath(m.(cs := 33, mark := p), buf, p + 1, path[1..]);
    }
    PathEndIs(path);
  }

  lemma PathAt(buf: string, p: nat, path: string)
    requires PathOk(path) && At(buf, p, path)
    ensures |path| > 0 && p + |path| <= |buf| && buf[p] == '/' && buf[p..p + |path|] == path
    ensures At(buf, p + 1, path[1..]) && Escaped(InPath, path[1..]) && (|path| > 1 ==> path[1..][0] != '/')
  {
    AtIndex(buf, p, path, 0);
    assert path == [path[0]] + path[1..];
    AtSplit(buf, p, [path[0]], path[1..]);
    hide Escaped;
  }

  lemma PathEndIs(path: string)
    ensures PathEnd(path) == if |path| == 1 then 33 else 26
  {
  }

  lemma RestOfPath(m: Machine, buf: string, p: nat, rest: string)
    requires m.cs == 33 && rest != "" && rest[0] != '/' && Escaped(InPath, rest) && At(buf, p, rest)
    ensures p + |rest| <= |buf| && Exec(m, buf, p) == Exec(m.(cs := 26), buf, p + |rest|)
  {
    PartFromFirst(m, buf, p, InPath, rest);
    hide Exec, Escaped;
  }

  lemma Slash(m: Machine, buf: string, p: nat)
    requires m.cs == 3 && p < |buf| && buf[p] == '/'
    ensures Exec(m, buf, p) == Exec(m.(cs := 33, mark := p), buf, p + 1)
  {
    OneStep(m, buf, p);
    hide Exec;
  }

  /** The separator behind the path. */
  lemma PathBreak(m: Machine, buf: string, p: nat, e: nat)
    requires (m.cs == 26 || m.cs == 33) && m.mark == p <= e < |buf|
    requires buf[e] == ' ' || buf[e] == '?' || buf[e] == '#'
    ensures var path := buf[p..e];
      var n := m.(cs := if buf[e] == ' ' then 4 else if buf[e] == '?' then 29 else 20,
                  events := m.events + if buf[e] == '?' then [Path(path)] else [Path(path), Uri(path)]);
      Exec(m, buf, e) == Exec(n, buf, e + 1)
  {
    OneStep(m, buf, e);
    hide Exec;
  }

  /** The separator behind the query. */
  lemma QueryBreak(m: Machine, buf: string, p: nat, q: nat, e: nat)
    requires m.cs == 30 && m.mark == p && m.queryStart == q && p <= q <= e < |buf| && (buf[e] == ' ' || buf[e] == '#')
    ensures Exec(m, buf, e)
      == Exec(m.(cs := if buf[e] == ' ' then 4 else 20, events := m.events + [Query(buf[q..e]), Uri(buf[p..e])]), buf, e + 1)
  {
    OneStep(m, buf, e);
    hide Exec;
  }

  lemma FragmentBreak(m: Machine, buf: string, p: nat, e: nat)
    requires m.cs == 21 && m.mark == p <= e < |buf| && buf[e] == ' '
    ensures Exec(m, buf, e) == Exec(m.(cs := 4, events := m.events + [Fragment(buf[p..e])]), buf, e + 1)
  {
    OneStep(m, buf, e);
    hide Exec;
  }

  /** The callbacks that a request target makes. */
  function TargetEvents(r: Request): seq<Event> {
    [Path(r.path)]
    + (if r.query == "" then [Uri(r.path)] else [Query(r.query), Uri(r.path + "?" + r.query)])
    + (if r.fragment == "" then [] else [Fragment(r.fragment)])
  }

  /** A fragment behind its mark, or the space at once. */
  lemma FragmentRun(m: Machine, buf: string, p: nat, fragment: string) returns (n: Machine)
    requires Escaped(InFragment, fragment) && At(buf, p, Marked("#", fragment) + " ")
    requires fragment != "" ==> m.cs == 20 && p < |buf|
    requires fragment == "" ==> m.cs == 4
    ensures n.cs == 4 && n.events == m.events + if fragment == "" then [] else [Fragment(fragment)]
    ensures p + |Marked("#", fragment)| + 1 <= |buf|
    ensures Exec(m, buf, p + 1) == Exec(n, buf, p + |Marked("#", fragment)| + 1)
  {
    n := m;
    if fragment != "" {
      AtSplit(buf, p, "#" + fragment, " ");
      AtSplit(buf, p, "#", fragment);
      var e := p + 1 + |fragment|;
      AtIndex(buf, e, " ", 0);
      PartFromFirst(m, buf, p + 1, InFragment, fragment);
      var m1 := m.(cs := 21, mark := p + 1);
      FragmentBreak(m1, buf, p + 1, e);
      n := m1.(cs := 4, events := m1.events + [Fragment(fragment)]);
      assert buf[p + 1..e] == fragment;
    }
    hide Exec, Escaped;
  }

  /** The first character of what follows the path or the query. */
  lemma NextChar(buf: string, e: nat, fragment: string)
    requires At(buf, e, Marked("#", fragment) + " ")
    ensures e < |buf| && buf[e] == if fragment == "" then ' ' else '#'
  {
    AtIndex(buf, e, Marked("#", fragment) + " ", 0);
  }

  lemma QueryRun(m: Machine, buf: string, p: nat, e: nat, f: nat, query: string, uri: string) returns (n: Machine)
    requires m.cs == 29 && m.mark == p <= e && query != "" && Escaped(InQuery, query) && At(buf, e, "?" + query)
    requires f == e + 1 + |query| < |buf| && (buf[f] == ' ' || buf[f] == '#') && buf[p..f] == uri
    ensures n.cs == if buf[f] == ' ' then 4 else 20
    ensures n.events == m.events + [Query(query), Uri(uri)] && Exec(m, buf, e + 1) == Exec(n, buf, f + 1)
  {
    AtSplit(buf, e, "?", query);
    assert buf[e + 1..f] == query;
    hide *;
    QueryPart(m, buf, e + 1, query);
    QueryBreak(m.(cs := 30, queryStart := e + 1), buf, p, e + 1, f);
    n := m.(cs := if buf[f] == ' ' then 4 else 20, queryStart := e + 1, events := m.events + [Query(query), Uri(uri)]);
  }

  lemma QueryPart(m: Machine, buf: string, q: nat, query: string)
    requires m.cs == 29 && query != "" && Escaped(InQuery, query) && At(buf, q, query)
    ensures q + |query| <= |buf| && Exec(m, buf, q) == Exec(m.(cs := 30, queryStart := q), buf, q + |query|)
  {
    PartFromFirst(m, buf, q, InQuery, query);
    hide Exec, Escaped;
  }

  /** Where the parts of a target lie. */
  lemma TargetAt(buf: string, p: nat, r: Request)
    requires At(buf, p, Target(r) + " ")
    ensures At(buf, p, r.path) && At(buf, p + |r.path|, Marked("?", r.query))
    ensures At(buf, p + |r.path| + |Marked("?", r.query)|, Marked("#", r.fragment) + " ")
    ensures |Target(r)| == |r.path| + |Marked("?", r.query)| + |Marked("#", r.fragment)|
  {
    hide At, Marked;
    var a, b, c := r.path, Marked("?", r.query), Marked("#", r.fragment);
    Assoc(a + b, c, " ");
    AtSplit(buf, p, a + b, c + " ");
    AtSplit(buf, p, a, b);
  }

  /** A request target that is printed and read as it is. */
  predicate TargetOk(r: Request) {
    PathOk(r.path) && Escaped(InQuery, r.query) && Escaped(InFragment, r.fragment)
  }

  lemma TargetRun(m: Machine, buf: string, p: nat, r: Request) returns (n: Machine)
    requires m.cs == 3 && TargetOk(r) && At(buf, p, Target(r) + " ")
    ensures n.cs == 4 && n.events == m.events + TargetEvents(r)
    ensures p + |Target(r)| + 1 <= |buf| && Exec(m, buf, p) == Exec(n, buf, p + |Target(r)| + 1)
  {
    hide *;
    MarkedLength("?", r.query);
    TargetOkParts(r);
    TargetAt(buf, p, r);
    var e := p + |r.path|;
    var m1 := PathOnly(m, buf, p, r.path);
    if r.query == "" {
      n := NoQuery(m1, buf, p, e, r);
    } else {
      n := WithQuery(m1, buf, p, e, r);
    }
  }

  lemma TargetOkParts(r: Request)
    requires TargetOk(r)
    ensures PathOk(r.path) && Escaped(InQuery, r.query) && Escaped(InFragment, r.fragment)
  {
    hide PathOk, Escaped;
  }

  lemma PathOnly(m: Machine, buf: string, p: nat, path: string) returns (n: Machine)
    requires m.cs == 3 && PathOk(path) && At(buf, p, path)
    ensures p + |path| <= |buf| && buf[p..p + |path|] == path
    ensures (n.cs == 26 || n.cs == 33) && n.mark == p && n.events == m.events
    ensures Exec(m, buf, p) == Exec(n, buf, p + |path|)
  {
    hide Exec, PathOk, At;
    PathRun(m, buf, p, path);
    n := m.(cs := PathEnd(path), mark := p);
  }

  lemma MarkedLength(separator: string, part: string)
    ensures |Marked(separator, part)| == if part == "" then 0 else |separator| + |part|
  {
  }

  lemma NoQuery(m: Machine, buf: string, p: nat, e: nat, r: Request) returns (n: Machine)
    requires (m.cs == 26 || m.cs == 33) && m.mark == p && e == p + |r.path| <= |buf| && buf[p..e] == r.path
    requires r.query == "" && Escaped(InFragment, r.fragment) && At(buf, e, Marked("#", r.fragment) + " ")
    ensures n.cs == 4 && n.events == m.events + TargetEvents(r)
    ensures e + |Marked("#", r.fragment)| + 1 <= |buf|
    ensures Exec(m, buf, e) == Exec(n, buf, e + |Marked("#", r.fragment)| + 1)
  {
    hide Exec, Escaped, At, Marked;
    NextChar(buf, e, r.fragment);
    PathBreak(m, buf, p, e);
    var m2 := m.(cs := if r.fragment == "" then 4 else 20, events := m.events + [Path(r.path), Uri(r.path)]);
    n := FragmentRun(m2, buf, e, r.fragment);
    assert m.events + ([Path(r.path), Uri(r.path)] + (if r.fragment == "" then [] else [Fragment(r.fragment)]))
      == n.events;
  }

  lemma PathAndQuery(buf: string, p: nat, e: nat, path: string, query: string)
    requires e == p + |path| <= |buf| && buf[p..e] == path && query != "" && At(buf, e, Marked("?", query))
    ensures At(buf, e, "?" + query) && e + 1 + |query| <= |buf| && e < |buf| && buf[e] == '?'
    ensures buf[p..e + 1 + |query|] == path + "?" + query
  {
    AtIndex(buf, e, "?" + query, 0);
    var f := e + 1 + |query|;
    assert buf[p..f] == buf[p..e] + buf[e..f];
    assert path + ("?" + query) == path + "?" + query;
  }

  lemma WithQuery(m: Machine, buf: string, p: nat, e: nat, r: Request) returns (n: Machine)
    requires (m.cs == 26 || m.cs == 33) && m.mark == p && e == p + |r.path| <= |buf| && buf[p..e] == r.path
    requires r.query != "" && Escaped(InQuery, r.query) && At(buf, e, Marked("?", r.query))
    requires Escaped(InFragment, r.fragment) && At(buf, e + 1 + |r.query|, Marked("#", r.fragment) + " ")
    ensures n.cs == 4 && n.events == m.events + TargetEvents(r)
    ensures e + 1 + |r.query| + |Marked("#", r.fragment)| + 1 <= |buf|
    ensures Exec(m, buf, e) == Exec(n, buf, e + 1 + |r.query| + |Marked("#", r.fragment)| + 1)
  {
    hide *;
    var f := e + 1 + |r.query|;
    PathAndQuery(buf, p, e, r.path, r.query);
    NextChar(buf, f, r.fragment);
    var m2 := PathThenQuery(m, buf, p, e, r.path);
    var m3 := QueryRun(m2, buf, p, e, f, r.query, r.path + "?" + r.query);
    n := FragmentRun(m3, buf, f, r.fragment);
    TargetEventsAre(m.events, r);
  }

  lemma PathThenQuery(m: Machine, buf: string, p: nat, e: nat, path: string) returns (n: Machine)
    requires (m.cs == 26 || m.cs == 33) && m.mark == p <= e < |buf| && buf[e] == '?' && buf[p..e] == path
    ensures n.cs == 29 && n.mark == p && n.events == m.events + [Path(path)]
    ensures Exec(m, buf, e) == Exec(n, buf, e + 1)
  {
    hide Exec;
    PathBreak(m, buf, p, e);
    n := m.(cs := 29, events := m.events + [Path(path)]);
  }

  lemma TargetEventsAre(before: seq<Event>, r: Request)
    requires r.query != ""
    ensures before + TargetEvents(r)
      == ((before + [Path(r.path)]) + [Query(r.query), Uri(r.path + "?" + r.query)])
         + (if r.fragment == "" then [] else [Fragment(r.fragment)])
  {
  }

  // ------------------------------------------------------------- the version

  lemma VersionChar(m: Machine, buf: string, p: nat, c: char)
    requires p < |buf| && buf[p] == c && 4 <= m.cs <= 11 && VersionNext(m.cs, c) == m.cs + 1
    ensures Exec(m, buf, p) == Exec(m.(cs := m.cs + 1, mark := if m.cs == 4 then p else m.mark), buf, p + 1)
  {
    OneStep(m, buf, p);
    hide Exec;
  }

  lemma HttpName(m: Machine, buf: string, p: nat)
    requires m.cs == 4 && At(buf, p, "HTTP/")
    ensures Exec(m, buf, p) == Exec(m.(cs := 9, mark := p), buf, p + 5)
  {
    var t := "HTTP/";
    AtIndex(buf, p, t, 0);
    AtIndex(buf, p, t, 1);
    AtIndex(buf, p, t, 2);
    AtIndex(buf, p, t, 3);
    AtIndex(buf, p, t, 4);
    hide Exec, At;
    VersionChar(m, buf, p, 'H');
    VersionChar(m.(cs := 5, mark := p), buf, p + 1, 'T');
    VersionChar(m.(cs := 6, mark := p), buf, p + 2, 'T');
    VersionChar(m.(cs := 7, mark := p), buf, p + 3, 'P');
    VersionChar(m.(cs := 8, mark := p), buf, p + 4, '/');
  }

  lemma HttpNumber(m: Machine, buf: string, p: nat, minor: char)
    requires m.cs == 9 && At(buf, p, ['1', '.', minor]) && (minor == '0' || minor == '1')
    ensures Exec(m, buf, p) == Exec(m.(cs := 12), buf, p + 3)
  {
    var t := ['1', '.', minor];
    AtIndex(buf, p, t, 0);
    AtIndex(buf, p, t, 1);
    AtIndex(buf, p, t, 2);
    hide Exec, At;
    VersionChar(m, buf, p, '1');
    VersionChar(m.(cs := 10), buf, p + 1, '.');
    VersionChar(m.(cs := 11), buf, p + 2, minor);
  }

  lemma LineFeed(m: Machine, buf: string, p: nat)
    requires m.cs == 17 && p < |buf| && buf[p] == LF
    ensures Exec(m, buf, p) == Exec(m.(cs := 13), buf, p + 1)
  {
    OneStep(m, buf, p);
    hide Exec;
  }

  lemma VersionBreak(m: Machine, buf: string, p: nat, e: nat)
    requires m.cs == 12 && m.mark == p <= e && At(buf, e, CRLF)
    ensures e + 2 <= |buf|
    ensures Exec(m, buf, e) == Exec(m.(cs := 13, events := m.events + [Version(buf[p..e])]), buf, e + 2)
  {
    AtIndex(buf, e, CRLF, 0);
    AtIndex(buf, e, CRLF, 1);
    OneStep(m, buf, e);
    hide Exec;
    LineFeed(m.(cs := 17, events := m.events + [Version(buf[p..e])]), buf, e + 1);
  }

  lemma VersionSet(x: Parsed<Request>, version: nat)
    requires version == 0x10 || version == 0x11
    ensures OnVersion(x, VersionText(version)) == x.(data := x.data.(version := version))
  {
    VersionRead(version);
    hide VersionOf, VersionText;
  }

  lemma VersionRun(m: Machine, buf: string, p: nat, version: nat) returns (n: Machine)
    requires m.cs == 4 && (version == 0x10 || version == 0x11) && At(buf, p, VersionText(version) + CRLF)
    ensures p + 10 <= |buf| && n.cs == 13 && n.events == m.events + [Version(VersionText(version))]
    ensures |VersionText(version)| == 8 && Exec(m, buf, p) == Exec(n, buf, p + 10)
  {
    hide *;
    var minor := VersionForm(version);
    var v := VersionText(version);
    AtSplit(buf, p, v, CRLF);
    AtSplit(buf, p, "HTTP/", ['1', '.', minor]);
    HttpName(m, buf, p);
    HttpNumber(m.(cs := 9, mark := p), buf, p + 5, minor);
    VersionBreak(m.(cs := 12, mark := p), buf, p, p + 8);
    AtMeans(buf, p, v);
    AtMeans(buf, p + 8, CRLF);
    n := m.(cs := 13, mark := p, events := m.events + [Version(v)]);
  }

  lemma AtMeans(buf: string, p: nat, t: string)
    ensures At(buf, p, t) ==> p + |t| <= |buf| && buf[p..p + |t|] == t
  {
  }

  // ------------------------------------------------------------- the headers

  predicate IsPad(c: char) {
    c == ' ' || c == '\t'
  }

  predicate IsValueChar(c: char) {
    c != CR && c != LF && c != 0 as char && c != 127 as char
  }

  /** A header line that the parser gives back as it was printed. */
  predicate CleanLine(line: HeaderLine) {
    line.name != "" && AllTokens(line.name) && Padding(line.pad) && Value(line.value)
  }

  predicate Padding(pad: string) {
    forall i :: 0 <= i < |pad| ==> IsPad(pad[i])
  }

  predicate Value(value: string) {
    && (forall i :: 0 <= i < |value| ==> IsValueChar(value[i]))
    && (value != "" ==> !IsPad(value[0]))
  }

  lemma NameFirst(m: Machine, buf: string, p: nat)
    requires m.cs == 13 && p < |buf| && IsToken(buf[p])
    ensures Exec(m, buf, p) == Exec(m.(cs := 14, fieldStart := p), buf, p + 1)
  {
    OneStep(m, buf, p);
    hide Exec;
  }

  lemma {:induction false} NameRest(m: Machine, buf: string, p: nat, end: nat)
    requires m.cs == 14 && p <= end <= |buf| && forall i :: p <= i < end ==> IsToken(buf[i])
    ensures Exec(m, buf, p) == Exec(m, buf, end)
    decreases end - p
  {
    if p < end {
      OneStep(m, buf, p);
      hide Exec;
      NameRest(m, buf, p + 1, end);
    }
  }

  lemma Colon(m: Machine, buf: string, p: nat)
    requires m.cs == 14 && p < |buf| && buf[p] == ':' && m.fieldStart <= p
    ensures Exec(m, buf, p) == Exec(m.(cs := 15, fieldLen := p - m.fieldStart), buf, p + 1)
  {
    OneStep(m, buf, p);
    hide Exec;
  }

  lemma NameAt(buf: string, p: nat, name: string)
    requires name != "" && AllTokens(name) && At(buf, p, name) && At(buf, p + |name|, ":")
    ensures p + |name| < |buf| && buf[p..p + |name|] == name && buf[p + |name|] == ':'
    ensures forall i :: p <= i < p + |name| ==> IsToken(buf[i])
  {
    AtIndex(buf, p + |name|, ":", 0);
    forall i | p <= i < p + |name| ensures IsToken(buf[i]) {
      AtIndex(buf, p, name, i - p);
    }
  }

  /** The name is where the two field positions say. */
  predicate Names(m: Machine, buf: string, name: string) {
    Slice(buf, m.fieldStart, m.fieldStart + m.fieldLen) == name
  }

  lemma NamesSet(m: Machine, buf: string, p: nat, n: nat)
    requires p <= n <= |buf| && m.fieldStart == p && m.fieldLen == n - p
    ensures Names(m, buf, buf[p..n])
  {
  }

  lemma NameRun(m: Machine, buf: string, p: nat, name: string) returns (n: Machine)
    requires m.cs == 13 && name != "" && AllTokens(name) && At(buf, p, name) && At(buf, p + |name|, ":")
    ensures p + |name| < |buf| && n.cs == 15 && n.events == m.events && Names(n, buf, name)
    ensures Exec(m, buf, p) == Exec(n, buf, p + |name| + 1)
  {
    hide *;
    NameAt(buf, p, name);
    NameFirst(m, buf, p);
    var e := p + |name|;
    var m1 := m.(cs := 14, fieldStart := p);
    NameRest(m1, buf, p + 1, e);
    Colon(m1, buf, e);
    n := m1.(cs := 15, fieldLen := e - p);
    NamesSet(n, buf, p, e);
  }

  lemma PadStep(m: Machine, buf: string, p: nat)
    requires m.cs == 15 && p < |buf| && IsPad(buf[p])
    ensures Exec(m, buf, p) == Exec(m.(mark := p), buf, p + 1)
  {
    OneStep(m, buf, p);
    hide Exec;
  }

  lemma {:induction false} PadRun(m: Machine, buf: string, p: nat, end: nat) returns (n: Machine)
    requires m.cs == 15 && p <= end <= |buf| && forall i :: p <= i < end ==> IsPad(buf[i])
    ensures n == m.(mark := n.mark) && Exec(m, buf, p) == Exec(n, buf, end)
    decreases end - p
  {
    hide *;
    n := m;
    if p < end {
      PadStep(m, buf, p);
      n := PadRun(m.(mark := p), buf, p + 1, end);
    }
  }

  lemma ValueFirst(m: Machine, buf: string, p: nat)
    requires m.cs == 15 && p < |buf| && IsValueChar(buf[p]) && !IsPad(buf[p])
    ensures Exec(m, buf, p) == Exec(m.(cs := 16, mark := p), buf, p + 1)
  {
    OneStep(m, buf, p);
    hide Exec;
  }

  lemma ValueStep(m: Machine, buf: string, p: nat)
    requires m.cs == 16 && p < |buf| && IsValueChar(buf[p])
    ensures Exec(m, buf, p) == Exec(m, buf, p + 1)
  {
    OneStep(m, buf, p);
    hide Exec;
  }

  lemma {:induction false} ValueRest(m: Machine, buf: string, p: nat, end: nat)
    requires m.cs == 16 && p <= end <= |buf| && forall i :: p <= i < end ==> IsValueChar(buf[i])
    ensures Exec(m, buf, p) == Exec(m, buf, end)
    decreases end - p
  {
    hide *;
    if p < end {
      ValueStep(m, buf, p);
      ValueRest(m, buf, p + 1, end);
    }
  }

  /** The line break behind a value, or behind the padding if there is none. */
  lemma ValueBreak(m: Machine, buf: string, e: nat, name: string, value: string) returns (n: Machine)
    requires At(buf, e, CRLF) && Names(m, buf, name)
    requires (m.cs == 16 && m.mark <= e && e <= |buf| && buf[m.mark..e] == value) || (m.cs == 15 && value == "")
    ensures e + 2 <= |buf| && n.cs == 13 && n.events == m.events + [Field(name, value)]
    ensures Exec(m, buf, e) == Exec(n, buf, e + 2)
  {
    AtIndex(buf, e, CRLF, 0);
    AtIndex(buf, e, CRLF, 1);
    OneStep(m, buf, e);
    var m1 := m.(cs := 17, mark := if m.cs == 15 then e else m.mark, events := m.events + [Field(name, value)]);
    assert Act(m, buf, e).(cs := 17) == m1;
    hide Exec;
    LineFeed(m1, buf, e + 1);
    n := m1.(cs := 13);
  }

  lemma PadAll(m: Machine, buf: string, v: nat, pad: string) returns (n: Machine)
    requires m.cs == 15 && Padding(pad) && At(buf, v, pad)
    ensures v + |pad| <= |buf| && n == m.(mark := n.mark) && Exec(m, buf, v) == Exec(n, buf, v + |pad|)
  {
    forall i | v <= i < v + |pad| ensures IsPad(buf[i]) {
      AtIndex(buf, v, pad, i - v);
    }
    hide Exec, IsPad;
    n := PadRun(m, buf, v, v + |pad|);
  }

  lemma ValueAll(m: Machine, buf: string, b: nat, value: string)
    requires m.cs == 15 && value != "" && Value(value) && At(buf, b, value)
    ensures b + |value| <= |buf| && buf[b..b + |value|] == value
    ensures Exec(m, buf, b) == Exec(m.(cs := 16, mark := b), buf, b + |value|)
  {
    forall i | b <= i < b + |value| ensures IsValueChar(buf[i]) {
      AtIndex(buf, b, value, i - b);
    }
    AtIndex(buf, b, value, 0);
    hide Exec, IsPad, IsValueChar;
    ValueFirst(m, buf, b);
    ValueRest(m.(cs := 16, mark := b), buf, b + 1, b + |value|);
  }

  lemma NamesKept(m: Machine, n: Machine, buf: string, name: string)
    ensures Names(m, buf, name) && n.fieldStart == m.fieldStart && n.fieldLen == m.fieldLen ==> Names(n, buf, name)
  {
  }

  lemma ValueRun(m: Machine, buf: string, v: nat, name: string, pad: string, value: string) returns (n: Machine)
    requires m.cs == 15 && Names(m, buf, name) && Padding(pad) && Value(value)
    requires At(buf, v, pad) && At(buf, v + |pad|, value) && At(buf, v + |pad| + |value|, CRLF)
    ensures v + |pad| + |value| + 2 <= |buf| && n.cs == 13 && n.events == m.events + [Field(name, value)]
    ensures Exec(m, buf, v) == Exec(n, buf, v + |pad| + |value| + 2)
  {
    hide *;
    var b := v + |pad|;
    var m1 := PadAll(m, buf, v, pad);
    if value != "" {
      ValueAll(m1, buf, b, value);
      m1 := m1.(cs := 16, mark := b);
    }
    NamesKept(m, m1, buf, name);
    n := ValueBreak(m1, buf, b + |value|, name, value);
  }

  lemma CleanParts(line: HeaderLine)
    ensures CleanLine(line) ==> line.name != "" && AllTokens(line.name) && Padding(line.pad) && Value(line.value)
  {
  }

  lemma LineRun(m: Machine, buf: string, p: nat, line: HeaderLine) returns (n: Machine)
    requires m.cs == 13 && CleanLine(line) && At(buf, p, LineText(line))
    ensures p + |LineText(line)| <= |buf| && n.cs == 13 && n.events == m.events + [Field(line.name, line.value)]
    ensures Exec(m, buf, p) == Exec(n, buf, p + |LineText(line)|)
  {
    hide *;
    PartsAt(buf, p, line);
    CleanParts(line);
    var m1 := NameRun(m, buf, p, line.name);
    n := ValueRun(m1, buf, p + |line.name| + 1, line.name, line.pad, line.value);
  }

  function FieldEvents(lines: seq<HeaderLine>): (events: seq<Event>)
    ensures |events| == |lines| && forall i :: 0 <= i < |lines| ==> events[i] == Field(lines[i].name, lines[i].value)
  {
    Reports(lines, (name, value) => Field(name, value))
  }

  lemma FieldEventsFirst(before: seq<Event>, lines: seq<HeaderLine>)
    requires lines != []
    ensures before + FieldEvents(lines) == (before + [Field(lines[0].name, lines[0].value)]) + FieldEvents(lines[1..])
  {
  }

  predicate AllClean(lines: seq<HeaderLine>) {
    forall i :: 0 <= i < |lines| ==> CleanLine(lines[i])
  }

  lemma AllCleanFirst(lines: seq<HeaderLine>)
    requires AllClean(lines) && lines != []
    ensures CleanLine(lines[0]) && AllClean(lines[1..])
  {
    hide CleanLine;
  }

  lemma NoLines(buf: string, p: nat, before: seq<Event>)
    requires At(buf, p, LineTexts([]))
    ensures p <= |buf| && LineTexts([]) == "" && before + FieldEvents([]) == before
  {
  }

  lemma {:induction false} LinesRun(m: Machine, buf: string, p: nat, lines: seq<HeaderLine>) returns (n: Machine)
    requires m.cs == 13 && AllClean(lines) && At(buf, p, LineTexts(lines))
    ensures n.cs == 13 && n.events == m.events + FieldEvents(lines)
    ensures p + |LineTexts(lines)| <= |buf| && Exec(m, buf, p) == Exec(n, buf, p + |LineTexts(lines)|)
    decreases |lines|
  {
    hide *;
    if lines == [] {
      NoLines(buf, p, m.events);
      n := m;
    } else {
      AllCleanFirst(lines);
      FirstLine(lines);
      AtSplit(buf, p, LineText(lines[0]), LineTexts(lines[1..]));
      var m1 := LineRun(m, buf, p, lines[0]);
      n := LinesRun(m1, buf, p + |LineText(lines[0])|, lines[1..]);
      FieldEventsFirst(m.events, lines);
    }
  }

  lemma EndRun(m: Machine, buf: string, p: nat) returns (n: Machine)
    requires m.cs == 13 && At(buf, p, CRLF)
    ensures p + 2 <= |buf| && Exec(m, buf, p) == (n, p + 2)
    ensures n.cs == FINAL && n.bodyStart == p + 2 && n.events == m.events
  {
    AtIndex(buf, p, CRLF, 0);
    AtIndex(buf, p, CRLF, 1);
    var m1 := m.(cs := 18, fieldStart := p);
    n := m1.(cs := FINAL, bodyStart := p + 2);
    OneStep(m, buf, p);
    OneStep(m1, buf, p + 1);
    ExecEnds(n, buf, p + 2);
    hide Exec;
  }

  // -------------------------------------------------------------- callbacks

  lemma FieldsSet(x: Parsed<Request>, lines: seq<HeaderLine>)
    requires AllClean(lines)
    ensures OnEvents(x, FieldEvents(lines)) == x.(data := x.data.(headers := SetAll(x.data.headers, lines)))
  {
    assert forall i :: 0 <= i < |lines| ==> CleanLine(lines[i]);
    ReportsSet(x, lines, (name, value) => Field(name, value), OnEvent,
               h => x.(data := x.data.(headers := h)), x.data.headers);
  }

  lemma TargetSet(x: Parsed<Request>, r: Request)
    requires x.data.query == "" && x.data.fragment == ""
    ensures OnEvents(x, TargetEvents(r))
      == x.(data := x.data.(path := r.path, query := r.query, fragment := r.fragment))
  {
    var path := [Path(r.path)];
    var query := if r.query == "" then [Uri(r.path)] else [Query(r.query), Uri(r.path + "?" + r.query)];
    var fragment := if r.fragment == "" then [] else [Fragment(r.fragment)];
    AllConcat(x, path + query, fragment, OnEvent);
    AllConcat(x, path, query, OnEvent);
    AllOne(x, Path(r.path), OnEvent);
    var x1 := OnEvent(x, Path(r.path));
    AllOne(x1, Uri(r.path), OnEvent);
    AllTwo(x1, Query(r.query), Uri(r.path + "?" + r.query), OnEvent);
    var x2 := OnEvents(x1, query);
    AllOne(x2, Fragment(r.fragment), OnEvent);
    hide All;
  }

  /** All callbacks of a printed request. */
  function AllEvents(r: Request, lines: seq<HeaderLine>): seq<Event> {
    (([Method(MethodName(r.verb))] + TargetEvents(r)) + [Version(VersionText(r.version))]) + FieldEvents(lines)
  }

  /** What the parser restores: all but the body, which is left in the buffer; the flag is not set by the parser. */
  function Restored(r: Request): Parsed<Request> {
    Parsed(Request(r.verb, r.path, r.query, r.fragment, r.version, true, "",
                   Rewritten(r.headers, r.close, r.body)), 0)
  }

  lemma MethodSet(m: nat)
    requires m < METHODS
    ensures OnMethod(Fresh(), MethodName(m)) == Fresh().(data := Fresh().data.(verb := m))
  {
    NameRecognised(m, 0);
    hide FirstMethod, MethodName;
  }

  lemma CallbacksRestore(r: Request, lines: seq<HeaderLine>)
    requires r.verb < METHODS && (r.version == 0x10 || r.version == 0x11) && AllClean(lines)
    requires SetAll(map[], lines) == Rewritten(r.headers, r.close, r.body)
    ensures OnEvents(Fresh(), AllEvents(r, lines)) == Restored(r)
  {
    assert Fresh() == Parsed(Request(1, "/", "", "", 0x11, true, "", map[]), 0);
    assert Restored(r) == Parsed(Request(r.verb, r.path, r.query, r.fragment, r.version, true, "",
                                         Rewritten(r.headers, r.close, r.body)), 0);
    hide *;
    var name, version := MethodName(r.verb), VersionText(r.version);
    MethodSet(r.verb);
    var x1 := OnMethod(Fresh(), name);
    OneCallback(Fresh(), name, version);
    TargetSet(x1, r);
    var x2 := x1.(data := x1.data.(path := r.path, query := r.query, fragment := r.fragment));
    OneCallback(x2, name, version);
    VersionSet(x2, r.version);
    FieldsSet(x2.(data := x2.data.(version := r.version)), lines);
    EventParts(r, lines, name, version);
  }

  /** Every part of the request, the close flag among them, with the headers as printed and the body left over. */
  function Whole(r: Request): Parsed<Request> {
    Parsed(r.(body := "", headers := Rewritten(r.headers, r.close, r.body)), 0)
  }

  lemma RestoredIff(r: Request)
    ensures Restored(r) == Whole(r) <==> r.close
  {
    hide Rewritten;
  }

  lemma OneCallback(x: Parsed<Request>, name: string, version: string)
    ensures OnEvents(x, [Method(name)]) == OnMethod(x, name) && OnEvents(x, [Version(version)]) == OnVersion(x, version)
  {
    AllOne(x, Method(name), OnEvent);
    AllOne(x, Version(version), OnEvent);
    hide OnMethod, OnVersion, All;
  }

  lemma EventParts(r: Request, lines: seq<HeaderLine>, name: string, version: string)
    requires name == MethodName(r.verb) && version == VersionText(r.version)
    ensures OnEvents(Fresh(), AllEvents(r, lines))
      == OnEvents(OnEvents(OnEvents(OnEvents(Fresh(), [Method(name)]), TargetEvents(r)), [Version(version)]), FieldEvents(lines))
  {
    hide All, TargetEvents, FieldEvents, MethodName, VersionText;
    AllConcat(Fresh(), ([Method(name)] + TargetEvents(r)) + [Version(version)], FieldEvents(lines), OnEvent);
    AllConcat(Fresh(), [Method(name)] + TargetEvents(r), [Version(version)], OnEvent);
    AllConcat(Fresh(), [Method(name)], TargetEvents(r), OnEvent);
  }

  // -------------------------------------------------------------- round trip

  /** A request whose printed form can be read back. */
  predicate Printable(r: Request) {
    && r.verb < METHODS && (r.version == 0x10 || r.version == 0x11) && TargetOk(r) && WellKeyed(r.headers)
    && forall k :: k in r.headers && k != CONNECTION_KEY ==> CleanLine(HeaderLine(r.headers[k].0, "", r.headers[k].1))
  }

  lemma {:induction false} MapLinesClean(h: Headers, order: seq<string>)
    requires forall k :: k in order ==> k in h
    requires forall k :: k in h && k != CONNECTION_KEY ==> CleanLine(HeaderLine(h[k].0, "", h[k].1))
    ensures AllClean(MapLines(order, h))
    decreases |order|
  {
    hide CleanLine;
    if order != [] {
      MapLinesClean(h, order[..|order| - 1]);
    }
  }

  lemma AddedClean(close: bool, body: string)
    ensures AllClean([ConnectionLine(close)]) && AllClean(LengthLines(body))
  {
    assert AllTokens("connection") && AllTokens("content-length") && Padding(" ");
    assert Value("close") && Value("keep-alive");
    if body != "" {
      DecimalIsValue(|body|);
    }
    hide Decimal, Padding, Value, AllTokens;
  }

  lemma DecimalIsValue(n: nat)
    ensures Value(Decimal(n))
  {
    hide Decimal;
    assert AllDigits(Decimal(n));
  }

  lemma LinesClean(r: Request, order: seq<string>)
    requires Printable(r) && Enumerates(order, r.headers)
    ensures AllClean(RequestLines(r, order))
  {
    AddedClean(r.close, r.body);
    MapLinesClean(r.headers, order);
    hide CleanLine, MapLines, LengthLines, Printable;
  }

  lemma RequestParts(r: Request, order: seq<string>)
    requires Enumerates(order, r.headers)
    ensures var text := RequestText(r, order);
      var name, target, version := MethodName(r.verb), Target(r), VersionText(r.version);
      var lines := LineTexts(RequestLines(r, order));
      var a := |name| + 1;
      var b := a + |target| + 1;
      var c := b + |version| + 2;
      var d := c + |lines|;
      && At(text, 0, name) && At(text, |name|, " ") && At(text, a, target + " ") && At(text, b, version + CRLF)
      && At(text, c, lines) && At(text, d, CRLF) && d + 2 <= |text| && text[d + 2..] == r.body
  {
    hide MethodName, Target, VersionText, LineTexts, RequestLines;
    SixParts(MethodName(r.verb), Target(r), VersionText(r.version), LineTexts(RequestLines(r, order)), r.body);
  }

  lemma SixParts(name: string, target: string, version: string, lines: string, body: string)
    ensures var text := (name + " " + target + " " + version + CRLF) + lines + CRLF + body;
      var a := |name| + 1;
      var b := a + |target| + 1;
      var c := b + |version| + 2;
      var d := c + |lines|;
      && At(text, 0, name) && At(text, |name|, " ") && At(text, a, target + " ") && At(text, b, version + CRLF)
      && At(text, c, lines) && At(text, d, CRLF) && d + 2 <= |text| && text[d + 2..] == body
  {
    var line := name + " " + target + " " + version + CRLF;
    ThreeAt(line, lines, CRLF, body);
    var text := line + lines + CRLF + body;
    assert line == name + " " + (target + " ") + (version + CRLF) by {
      Assoc(name + " ", target, " ");
      Assoc(name + " " + target + " ", version, CRLF);
    }
    hide At;
    AtSplit(text, 0, name + " " + (target + " "), version + CRLF);
    AtSplit(text, 0, name + " ", target + " ");
    AtSplit(text, 0, name, " ");
  }

  lemma ThreeAt(line: string, lines: string, end: string, body: string)
    ensures var text := line + lines + end + body;
      && At(text, 0, line) && At(text, |line|, lines) && At(text, |line| + |lines|, end)
      && text[|line| + |lines| + |end|..] == body
  {
  }

  /** The automaton behind the head of a printed request. */
  lemma HeadRun(r: Request, order: seq<string>) returns (m: Machine, end: nat)
    requires Printable(r) && r.verb != M_SEARCH && Enumerates(order, r.headers)
    ensures Exec(Init(), RequestText(r, order), 0) == (m, end)
    ensures m.cs == FINAL && m.bodyStart == end <= |RequestText(r, order)| && RequestText(r, order)[end..] == r.body
    ensures m.events == AllEvents(r, RequestLines(r, order))
  {
    hide *;
    OrderKeys(order, r.headers);
    PrintableParts(r);
    LinesClean(r, order);
    RequestParts(r, order);
    NameFacts(r.verb);
    m, end := HeadFrom(RequestText(r, order), r, RequestLines(r, order));
  }

  lemma PrintableParts(r: Request)
    ensures Printable(r) ==> TargetOk(r) && (r.version == 0x10 || r.version == 0x11) && r.verb < METHODS
  {
    hide TargetOk;
  }

  lemma OrderKeys(order: seq<string>, h: Headers)
    ensures Enumerates(order, h) ==> forall k :: k in order ==> k in h
  {
  }

  lemma HeadFrom(text: string, r: Request, lines: seq<HeaderLine>) returns (m: Machine, end: nat)
    requires TargetOk(r) && (r.version == 0x10 || r.version == 0x11) && AllClean(lines)
    requires IsMethodText(MethodName(r.verb))
    requires var name, target, version := MethodName(r.verb), Target(r), VersionText(r.version);
      var a := |name| + 1;
      var b := a + |target| + 1;
      var c := b + |version| + 2;
      var d := c + |LineTexts(lines)|;
      && At(text, 0, name) && At(text, |name|, " ") && At(text, a, target + " ") && At(text, b, version + CRLF)
      && At(text, c, LineTexts(lines)) && At(text, d, CRLF)
    ensures Exec(Init(), text, 0) == (m, end)
    ensures end == |MethodName(r.verb)| + |Target(r)| + |VersionText(r.version)| + |LineTexts(lines)| + 6
    ensures m.cs == FINAL && m.bodyStart == end && m.events == AllEvents(r, lines)
  {
    hide *;
    var name := MethodName(r.verb);
    MethodRun(text, name);
    var a := |name| + 1;
    var m1 := TargetRun(Init().(cs := 3, events := [Method(name)]), text, a, r);
    var b := a + |Target(r)| + 1;
    var m2 := VersionRun(m1, text, b, r.version);
    var m3 := LinesRun(m2, text, b + 10, lines);
    end := b + 10 + |LineTexts(lines)|;
    m := EndRun(m3, text, end);
    end := end + 2;
    AllEventsAre(r, lines);
  }

  lemma AllEventsAre(r: Request, lines: seq<HeaderLine>)
    ensures AllEvents(r, lines)
      == (([Method(MethodName(r.verb))] + TargetEvents(r)) + [Version(VersionText(r.version))]) + FieldEvents(lines)
  {
  }

  /** M-SEARCH is printed with a character that the method states do not take. */
  lemma SearchRejected(r: Request, order: seq<string>)
    requires r.verb == M_SEARCH && Enumerates(order, r.headers)
    ensures Exec(Init(), RequestText(r, order), 0).0.cs == ERROR
  {
    var text := RequestText(r, order);
    RequestParts(r, order);
    AtIndex(text, 0, "M-SEARCH", 0);
    AtIndex(text, 0, "M-SEARCH", 1);
    hide RequestText;
    MethodFirst(text);
    RejectedAt(Init().(cs := 2), text, 1);
  }

  lemma RejectedAt(m: Machine, buf: string, p: nat)
    ensures p < |buf| && m.cs == 2 && buf[p] == '-' ==> Exec(m, buf, p).0.cs == ERROR
  {
  }

  /**
   Parsing what `dump` printed finishes exactly if the method is not M-SEARCH.
   It then leaves exactly the body and restores method, path, query, fragment,
   version and headers. The close flag is printed, but no callback reads it: the
   whole request comes back if and only if the flag was set.
   */
  lemma RequestRestored(r: Request, order: seq<string>)
    requires Printable(r) && Enumerates(order, r.headers)
    ensures var text := RequestText(r, order);
      var (m, end) := Exec(Init(), text, 0);
      && (m.cs == FINAL <==> r.verb != M_SEARCH)
      && (r.verb != M_SEARCH ==>
           && m.bodyStart == end <= |text| && text[end..] == r.body
           && OnEvents(Fresh(), m.events) == Restored(r)
           && (OnEvents(Fresh(), m.events) == Whole(r) <==> r.close))
  {
    if r.verb == M_SEARCH {
      SearchRejected(r, order);
    } else {
      var m, end := HeadRun(r, order);
      LinesClean(r, order);
      ConnectionFirst(r.headers, order, r.close, r.body);
      CallbacksRestore(r, RequestLines(r, order));
      RestoredIff(r);
    }
    hide Exec, OnEvents, Restored, Whole, AllEvents, RequestText;
  }
}
