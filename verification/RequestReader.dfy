/**
 A plain reader of request heads, and the proof that the request automaton
 finishes exactly on the heads it reads and reports what it finds.
 */
module RequestReader {

  import opened Wrappers
  import opened HttpText
  import opened RequestAutomaton

  // ------------------------------------------------------------- the reader

  /** The end of the method characters from a position on. */
  function MethodEnd(buf: string, p: nat): (e: nat)
    requires p <= |buf|
    ensures p <= e <= |buf|
    decreases |buf| - p
  {
    if p == |buf| || !IsMethodChar(buf[p]) then p else MethodEnd(buf, p + 1)
  }

  predicate EscapeAt(buf: string, p: nat) {
    p + 2 < |buf| && buf[p] == '%' && IsHex(buf[p + 1]) && IsHex(buf[p + 2])
  }

  predicate Own(c: char, query: bool) {
    if query then IsQueryChar(c) else IsPathChar(c)
  }

  /** The end of the characters that stand for themselves and the whole escapes. */
  function UnitsEnd(buf: string, p: nat, query: bool): (e: nat)
    requires p <= |buf|
    ensures p <= e <= |buf|
    decreases |buf| - p
  {
    if p < |buf| && Own(buf[p], query) then UnitsEnd(buf, p + 1, query)
    else if EscapeAt(buf, p) then UnitsEnd(buf, p + 3, query)
    else p
  }

  /** The end of the path: empty, or one slash and what follows it; two slashes are not read. */
  function PathEnd(buf: string, p: nat): (e: nat)
    requires p <= |buf|
    ensures p <= e <= |buf|
  {
    if p == |buf| || buf[p] != '/' then p
    else if p + 1 < |buf| && buf[p + 1] == '/' then p + 1
    else UnitsEnd(buf, p + 1, false)
  }

  datatype Target = Target(path: string, query: Option<string>, fragment: Option<string>, next: nat)

  /** A fragment up to the space behind it. */
  function ReadFragment(buf: string, p: nat, path: string, query: Option<string>): (t: Option<Target>)
    requires p <= |buf|
    ensures t.Some? ==> p < t.value.next <= |buf|
  {
    var e := UnitsEnd(buf, p, true);
    if e < |buf| && buf[e] == ' ' then Some(Target(path, query, Some(buf[p..e]), e + 1)) else None
  }

  function ReadQuery(buf: string, p: nat, path: string): (t: Option<Target>)
    requires p <= |buf|
    ensures t.Some? ==> p < t.value.next <= |buf|
  {
    var e := UnitsEnd(buf, p, true);
    if e == |buf| then None
    else if buf[e] == ' ' then Some(Target(path, Some(buf[p..e]), None, e + 1))
    else if buf[e] == '#' then ReadFragment(buf, e + 1, path, Some(buf[p..e]))
    else None
  }

  /** A target: path, query behind a question mark, fragment behind a number sign, and a space. */
  function ReadTarget(buf: string, p: nat): (t: Option<Target>)
    requires p <= |buf|
    ensures t.Some? ==> p < t.value.next <= |buf|
  {
    var e := PathEnd(buf, p);
    if e == |buf| then None
    else if buf[e] == ' ' then Some(Target(buf[p..e], None, None, e + 1))
    else if buf[e] == '?' then ReadQuery(buf, e + 1, buf[p..e])
    else if buf[e] == '#' then ReadFragment(buf, e + 1, buf[p..e], None)
    else None
  }

  function TargetEvents(t: Target): seq<Event> {
    [Path(t.path)]
    + (if t.query == None then [Uri(t.path)] else [Query(t.query.value), Uri(t.path + "?" + t.query.value)])
    + (if t.fragment == None then [] else [Fragment(t.fragment.value)])
  }

  /** The end of a header name: everything a name may hold, line breaks included. */
  function NameEnd(buf: string, p: nat): (e: nat)
    requires p <= |buf|
    ensures p <= e <= |buf|
    decreases |buf| - p
  {
    if p == |buf| || !IsNameChar(buf[p]) then p else NameEnd(buf, p + 1)
  }

  function PadEnd(buf: string, p: nat): (e: nat)
    requires p <= |buf|
    ensures p <= e <= |buf|
    decreases |buf| - p
  {
    if p == |buf| || (buf[p] != ' ' && buf[p] != '\t') then p else PadEnd(buf, p + 1)
  }

  predicate InValue(c: char) {
    c != CR && c != LF && c != 0 as char && c != 127 as char
  }

  function ValueEnd(buf: string, p: nat): (e: nat)
    requires p <= |buf|
    ensures p <= e <= |buf|
    decreases |buf| - p
  {
    if p == |buf| || !InValue(buf[p]) then p else ValueEnd(buf, p + 1)
  }

  datatype Line = Line(name: string, value: string, next: nat)

  /** One line: a name, a colon, blanks, the value, and the line break. */
  function ReadLine(buf: string, p: nat): (line: Option<Line>)
    requires p <= |buf|
    ensures line.Some? ==> p < line.value.next <= |buf|
  {
    var n := NameEnd(buf, p);
    if n == p || n == |buf| || buf[n] != ':' then None
    else
      var b := PadEnd(buf, n + 1);
      var e := ValueEnd(buf, b);
      if BreakLen(buf, e) == 0 then None else Some(Line(buf[p..n], buf[b..e], e + BreakLen(buf, e)))
  }

  /** What was read, as the callbacks it is reported in, and where it ends. */
  datatype Head = Head(events: seq<Event>, end: nat)

  /** The same behind some more callbacks. */
  function Behind(events: seq<Event>, head: Option<Head>): (r: Option<Head>)
    ensures r.Some? ==> head.Some? && r.value.end == head.value.end
  {
    match head
    case None => None
    case Some(rest) => Some(Head(events + rest.events, rest.end))
  }

  /** All lines up to the empty one. */
  function ReadLines(buf: string, p: nat): (lines: Option<Head>)
    requires p <= |buf|
    ensures lines.Some? ==> lines.value.end <= |buf|
    decreases |buf| - p
  {
    if BreakLen(buf, p) > 0 then Some(Head([], p + BreakLen(buf, p)))
    else match ReadLine(buf, p)
      case None => None
      case Some(line) => Behind([Field(line.name, line.value)], ReadLines(buf, line.next))
  }

  /** Where the version and its line break end. */
  function ReadVersion(buf: string, p: nat): (next: Option<nat>)
    requires p <= |buf|
    ensures next.Some? ==> p < next.value <= |buf|
  {
    if At(buf, p, "HTTP/1.0") || At(buf, p, "HTTP/1.1") then
      if BreakLen(buf, p + 8) > 0 then Some(p + 8 + BreakLen(buf, p + 8)) else None
    else None
  }

  /** The version and the header lines. */
  function ReadTail(buf: string, p: nat): (tail: Option<Head>)
    requires p <= |buf|
    ensures tail.Some? ==> tail.value.end <= |buf|
  {
    match ReadVersion(buf, p)
    case None => None
    case Some(v) => Behind([Version(buf[p..p + 8])], ReadLines(buf, v))
  }

  /** A whole head: method, target, version and header lines. */
  function ReadHead(buf: string): (head: Option<Head>)
    ensures head.Some? ==> head.value.end <= |buf|
  {
    var e := MethodEnd(buf, 0);
    if !(1 <= e <= 20) || e == |buf| || buf[e] != ' ' then None
    else match ReadTarget(buf, e + 1)
      case None => None
      case Some(t) => Behind([Method(buf[0..e])] + TargetEvents(t), ReadTail(buf, t.next))
  }

  // ---------------------------------------------------------- steps and ends

  /** A state from which the next character leads nowhere, or the end of the buffer before the end of the head. */
  lemma Stuck(m: Machine, buf: string, p: nat)
    requires p <= |buf| && m.cs != FINAL
    requires p < |buf| ==> Next(m.cs, buf[p]) == ERROR || Next(m.cs, buf[p]) == OUTSIDE
    ensures Exec(m, buf, p).0.cs != FINAL
  {
    if p < |buf| && !Stopped(m.cs) && Next(m.cs, buf[p]) == OUTSIDE {
      ExecTurn(m, buf, p);
      ExecEnds(Step(m, buf, p), buf, p + 1);
    }
    hide Next, Act;
  }

  // -------------------------------------------------------------- the method

  function MethodState(n: nat): nat {
    if n == 0 then 1 else if n == 1 then 2 else 173 + n
  }

  lemma MethodStep(m: Machine, buf: string, n: nat)
    requires n < 20 && n < |buf| && m.cs == MethodState(n) && IsMethodChar(buf[n])
    ensures Exec(m, buf, n) == Exec(m.(cs := MethodState(n + 1), mark := if n == 0 then 0 else m.mark), buf, n + 1)
  {
    OneStep(m, buf, n);
    hide Exec;
  }

  /** The automaton behind `n` method characters. */
  lemma {:induction false} MethodChars(buf: string, n: nat)
    requires n <= 20 && n <= |buf| && forall i :: 0 <= i < n ==> IsMethodChar(buf[i])
    ensures Exec(Init(), buf, 0) == Exec(Init().(cs := MethodState(n)), buf, n)
  {
    if n > 0 {
      hide Exec, IsMethodChar;
      MethodChars(buf, n - 1);
      MethodStep(Init().(cs := MethodState(n - 1)), buf, n - 1);
    }
  }

  lemma MethodRun(buf: string)
    ensures var e := MethodEnd(buf, 0);
      if 1 <= e <= 20 && e < |buf| && buf[e] == ' '
      then Exec(Init(), buf, 0) == Exec(Init().(cs := 3, events := [Method(buf[0..e])]), buf, e + 1)
      else Exec(Init(), buf, 0).0.cs != FINAL
  {
    var e := MethodEnd(buf, 0);
    MethodEndIs(buf, 0);
    hide *;
    if e > 20 {
      MethodChars(buf, 20);
      MethodStuck(buf, 20);
    } else {
      MethodChars(buf, e);
      if 1 <= e < |buf| && buf[e] == ' ' {
        MethodSpace(buf, e);
      } else {
        MethodStuck(buf, e);
      }
    }
  }

  lemma MethodSpace(buf: string, e: nat)
    requires 1 <= e <= 20 && e < |buf| && buf[e] == ' '
    ensures Exec(Init().(cs := MethodState(e)), buf, e)
      == Exec(Init().(cs := 3, events := [Method(buf[0..e])]), buf, e + 1)
  {
    OneStep(Init().(cs := MethodState(e)), buf, e);
    assert [] + [Method(buf[0..e])] == [Method(buf[0..e])];
    hide Exec;
  }

  lemma MethodStuck(buf: string, e: nat)
    requires e <= 20 && e <= |buf|
    requires e < |buf| ==> if e == 20 then buf[e] != ' ' else !IsMethodChar(buf[e]) && (e == 0 || buf[e] != ' ')
    ensures Exec(Init().(cs := MethodState(e)), buf, e).0.cs != FINAL
  {
    Stuck(Init().(cs := MethodState(e)), buf, e);
    hide Exec;
  }

  lemma {:induction false} MethodEndIs(buf: string, p: nat)
    requires p <= |buf|
    ensures var e := MethodEnd(buf, p);
      && (forall i :: p <= i < e ==> IsMethodChar(buf[i])) && (e < |buf| ==> !IsMethodChar(buf[e]))
    ensures !IsMethodChar(' ')
    decreases |buf| - p
  {
    if p < |buf| && IsMethodChar(buf[p]) {
      MethodEndIs(buf, p + 1);
    }
  }

  // -------------------------------------------------------------- the target

  /** The states of a part: before its first character, behind one, behind a percent sign, and behind one digit. */
  datatype Part = InPath | InQuery | InFragment

  function First(part: Part): nat {
    match part case InPath => 33 case InQuery => 29 case InFragment => 20
  }

  function Later(part: Part): nat {
    match part case InPath => 26 case InQuery => 30 case InFragment => 21
  }

  function Percent(part: Part): nat {
    match part case InPath => 27 case InQuery => 31 case InFragment => 22
  }

  /** What the first character of a part marks. */
  function Begun(part: Part, m: Machine, p: nat): Machine {
    match part
    case InPath => m
    case InQuery => if m.cs == 29 then m.(queryStart := p) else m
    case InFragment => if m.cs == 20 then m.(mark := p) else m
  }

  predicate InPart(part: Part, m: Machine) {
    m.cs == First(part) || m.cs == Later(part)
  }

  lemma OwnStep(part: Part, m: Machine, buf: string, p: nat)
    requires InPart(part, m) && p < |buf| && Own(buf[p], part != InPath) && !(m.cs == 33 && buf[p] == '/')
    ensures Exec(m, buf, p) == Exec(Begun(part, m, p).(cs := Later(part)), buf, p + 1)
  {
    OneStep(m, buf, p);
    hide Exec;
  }

  lemma EscapeStep(part: Part, m: Machine, buf: string, p: nat)
    requires InPart(part, m) && EscapeAt(buf, p)
    ensures Exec(m, buf, p) == Exec(Begun(part, m, p).(cs := Later(part)), buf, p + 3)
  {
    var m1 := Begun(part, m, p).(cs := Percent(part));
    OneStep(m, buf, p);
    assert Exec(m, buf, p) == Exec(m1, buf, p + 1);
    OneStep(m1, buf, p + 1);
    OneStep(m1.(cs := Percent(part) + 1), buf, p + 2);
    hide Exec, IsHex;
  }

  /** A percent sign without its two digits leads nowhere. */
  lemma EscapeStuck(part: Part, m: Machine, buf: string, p: nat)
    requires InPart(part, m) && p < |buf| && buf[p] == '%' && !EscapeAt(buf, p)
    ensures Exec(m, buf, p).0.cs != FINAL
  {
    var m1 := Begun(part, m, p).(cs := Percent(part));
    OneStep(m, buf, p);
    assert Exec(m, buf, p) == Exec(m1, buf, p + 1);
    if p + 1 < |buf| && IsHex(buf[p + 1]) {
      OneStep(m1, buf, p + 1);
      Stuck(m1.(cs := Percent(part) + 1), buf, p + 2);
    } else {
      Stuck(m1, buf, p + 1);
    }
    hide Exec, IsHex;
  }

  /** The machine behind the units of a part. */
  function AfterUnits(part: Part, m: Machine, p: nat, e: nat): Machine {
    if p == e then m else Begun(part, m, p).(cs := Later(part))
  }

  lemma {:induction false} UnitsRun(part: Part, m: Machine, buf: string, p: nat)
    requires InPart(part, m) && p <= |buf| && !(m.cs == 33 && p < |buf| && buf[p] == '/')
    ensures var e := UnitsEnd(buf, p, part != InPath);
      Exec(m, buf, p) == Exec(AfterUnits(part, m, p, e), buf, e)
    decreases |buf| - p
  {
    hide Exec, Own, EscapeAt;
    var query := part != InPath;
    if p < |buf| && Own(buf[p], query) {
      OwnStep(part, m, buf, p);
      UnitsRun(part, Begun(part, m, p).(cs := Later(part)), buf, p + 1);
    } else if EscapeAt(buf, p) {
      EscapeStep(part, m, buf, p);
      EscapeLong(buf, p);
      UnitsRun(part, Begun(part, m, p).(cs := Later(part)), buf, p + 3);
    }
  }

  lemma EscapeLong(buf: string, p: nat)
    requires EscapeAt(buf, p)
    ensures p + 3 <= |buf|
  {
  }

  /** Where a part ends, no character of its own and no whole escape follows. */
  lemma {:induction false} UnitsEndIs(buf: string, p: nat, query: bool)
    requires p <= |buf|
    ensures var e := UnitsEnd(buf, p, query);
      !EscapeAt(buf, e) && (e < |buf| ==> !Own(buf[e], query))
    decreases |buf| - p
  {
    hide Own, EscapeAt;
    if p < |buf| && Own(buf[p], query) {
      UnitsEndIs(buf, p + 1, query);
    } else if EscapeAt(buf, p) {
      EscapeLong(buf, p);
      UnitsEndIs(buf, p + 3, query);
    }
  }

  /** What ends a part: a space, and a question mark or a number sign where one may follow. */
  predicate Ends(part: Part, c: char) {
    c == ' ' || (part != InFragment && c == '#') || (part == InPath && c == '?')
  }

  lemma PartStuck(part: Part, m: Machine, buf: string, e: nat)
    requires InPart(part, m) && e <= |buf| && !EscapeAt(buf, e)
    requires e < |buf| ==> (!Own(buf[e], part != InPath) || (m.cs == 33 && buf[e] == '/')) && !Ends(part, buf[e])
    ensures Exec(m, buf, e).0.cs != FINAL
  {
    if e < |buf| && buf[e] == '%' {
      EscapeStuck(part, m, buf, e);
    } else {
      Stuck(m, buf, e);
    }
    hide Exec;
  }

  // ------------------------------------------------- the target, part by part

  /** The automaton is behind the target, has reported these events, and the head is not yet over. */
  predicate Passed(m: Machine, n: Machine, events: seq<Event>) {
    n.cs == 4 && n.events == m.events + events
  }

  /** From a machine inside the target: it gets behind it as the reader does, or it never finishes. */
  ghost predicate TargetDone(m: Machine, buf: string, p: nat, t: Option<Target>, events: seq<Event>)
    requires p <= |buf| && (t.Some? ==> t.value.next <= |buf|)
  {
    if t == None then Exec(m, buf, p).0.cs != FINAL
    else exists n :: Passed(m, n, events) && Exec(m, buf, p) == Exec(n, buf, t.value.next)
  }

  function FragmentEvents(fragment: Option<string>): seq<Event> {
    if fragment == None then [] else [Fragment(fragment.value)]
  }

  lemma FragmentRun(m: Machine, buf: string, p: nat, path: string, query: Option<string>)
    requires m.cs == 20 && p <= |buf|
    ensures var t := ReadFragment(buf, p, path, query);
      TargetDone(m, buf, p, t, if t == None then [] else FragmentEvents(t.value.fragment))
  {
    var e := UnitsEnd(buf, p, true);
    UnitsRun(InFragment, m, buf, p);
    UnitsEndIs(buf, p, true);
    var m1 := AfterUnits(InFragment, m, p, e);
    hide Exec, UnitsEnd, EscapeAt, Own;
    if e < |buf| && buf[e] == ' ' {
      FragmentSpace(m, m1, buf, p, e);
      assert Passed(m, m1.(cs := 4, mark := p, events := m.events + [Fragment(buf[p..e])]), [Fragment(buf[p..e])]);
    } else {
      PartStuck(InFragment, m1, buf, e);
    }
  }

  lemma FragmentSpace(m: Machine, m1: Machine, buf: string, p: nat, e: nat)
    requires m.cs == 20 && p <= e < |buf| && buf[e] == ' ' && m1 == AfterUnits(InFragment, m, p, e)
    ensures Exec(m1, buf, e) == Exec(m1.(cs := 4, mark := p, events := m.events + [Fragment(buf[p..e])]), buf, e + 1)
  {
    OneStep(m1, buf, e);
    hide Exec;
  }

  /** Reports made before the rest of the target is read. */
  lemma Before(m: Machine, buf: string, p: nat, m2: Machine, q: nat, t: Option<Target>, first: seq<Event>, rest: seq<Event>)
    requires p <= |buf| && q <= |buf| && (t.Some? ==> t.value.next <= |buf|)
    requires Exec(m, buf, p) == Exec(m2, buf, q) && m2.events == m.events + first && TargetDone(m2, buf, q, t, rest)
    ensures TargetDone(m, buf, p, t, first + rest)
  {
    hide Exec;
    if t.Some? {
      var n :| Passed(m2, n, rest) && Exec(m2, buf, q) == Exec(n, buf, t.value.next);
      assert Passed(m, n, first + rest);
    }
  }

  function QueryEvents(path: string, query: string, fragment: Option<string>): seq<Event> {
    [Query(query), Uri(path + "?" + query)] + FragmentEvents(fragment)
  }

  /** The query of a target whose path starts at the machine's mark. */
  lemma QueryRun(m: Machine, buf: string, p: nat, path: string)
    requires m.cs == 29 && m.mark < p <= |buf| && buf[m.mark..p - 1] == path && buf[p - 1] == '?'
    ensures var t := ReadQuery(buf, p, path);
      && (t.Some? ==> t.value.query.Some? && t.value.path == path)
      && TargetDone(m, buf, p, t, if t == None then [] else QueryEvents(path, t.value.query.value, t.value.fragment))
  {
    hide Exec, UnitsEnd, EscapeAt, Own;
    var e := UnitsEnd(buf, p, true);
    UnitsRun(InQuery, m, buf, p);
    UnitsEndIs(buf, p, true);
    var m1 := AfterUnits(InQuery, m, p, e);
    if e < |buf| && (buf[e] == ' ' || buf[e] == '#') {
      QueryTurn(m, m1, buf, p, e, path);
      var first := [Query(buf[p..e]), Uri(path + "?" + buf[p..e])];
      var m2 := m1.(cs := if buf[e] == ' ' then 4 else 20, queryStart := p, events := m.events + first);
      if buf[e] == ' ' {
        assert first + [] == first;
        assert Passed(m, m2, first);
      } else {
        FragmentBehind(m, m2, buf, p, e, path, first);
        hide TargetDone, ReadFragment;
      }
    } else {
      PartStuck(InQuery, m1, buf, e);
    }
  }

  /** The fragment behind a query. */
  lemma FragmentBehind(m: Machine, m2: Machine, buf: string, p: nat, e: nat, path: string, first: seq<Event>)
    requires p <= e < |buf| && m2.cs == 20 && m2.events == m.events + first && Exec(m, buf, p) == Exec(m2, buf, e + 1)
    ensures var t := ReadFragment(buf, e + 1, path, Some(buf[p..e]));
      && (t.Some? ==> t.value.query == Some(buf[p..e]) && t.value.path == path)
      && TargetDone(m, buf, p, t, if t == None then [] else first + FragmentEvents(t.value.fragment))
  {
    var t := ReadFragment(buf, e + 1, path, Some(buf[p..e]));
    var rest := if t == None then [] else FragmentEvents(t.value.fragment);
    FragmentKeeps(buf, e + 1, path, Some(buf[p..e]));
    hide *;
    FragmentRun(m2, buf, e + 1, path, Some(buf[p..e]));
    Before(m, buf, p, m2, e + 1, t, first, rest);
    NoneDone(m, buf, p, t, first + rest);
  }

  lemma NoneDone(m: Machine, buf: string, p: nat, t: Option<Target>, events: seq<Event>)
    requires p <= |buf| && (t.Some? ==> t.value.next <= |buf|)
    ensures t == None && TargetDone(m, buf, p, t, events) ==> TargetDone(m, buf, p, t, [])
    ensures events + [] == events
  {
  }

  lemma QueryTurn(m: Machine, m1: Machine, buf: string, p: nat, e: nat, path: string)
    requires m.cs == 29 && m.mark < p <= e < |buf| && buf[m.mark..p - 1] == path && buf[p - 1] == '?'
    requires (buf[e] == ' ' || buf[e] == '#') && m1 == AfterUnits(InQuery, m, p, e)
    ensures Exec(m1, buf, e)
      == Exec(m1.(cs := if buf[e] == ' ' then 4 else 20, queryStart := p,
                  events := m.events + [Query(buf[p..e]), Uri(path + "?" + buf[p..e])]), buf, e + 1)
  {
    OneStep(m1, buf, e);
    assert buf[m.mark..e] == path + "?" + buf[p..e];
    hide Exec;
  }

  /** The end of a path that starts at `s`. */
  lemma PathTurn(m: Machine, buf: string, s: nat, e: nat)
    requires s <= e < |buf| && Ends(InPath, buf[e])
    requires ((m.cs == 33 || m.cs == 26) && m.mark == s) || (m.cs == 3 && s == e)
    ensures var path := buf[s..e];
      Exec(m, buf, e) == Exec(m.(
        cs := if buf[e] == ' ' then 4 else if buf[e] == '#' then 20 else 29, mark := s,
        events := m.events + if buf[e] == '?' then [Path(path)] else [Path(path), Uri(path)]), buf, e + 1)
  {
    assert s == e ==> buf[s..e] == "";
    OneStep(m, buf, e);
    hide Exec;
  }

  lemma PathRun(m: Machine, buf: string, s: nat, e: nat, t: Option<Target>)
    requires s <= e < |buf| && Ends(InPath, buf[e])
    requires ((m.cs == 33 || m.cs == 26) && m.mark == s) || (m.cs == 3 && s == e)
    requires t == if buf[e] == ' ' then Some(Target(buf[s..e], None, None, e + 1))
                  else if buf[e] == '?' then ReadQuery(buf, e + 1, buf[s..e])
                  else ReadFragment(buf, e + 1, buf[s..e], None)
    ensures TargetDone(m, buf, e, t, if t == None then [] else TargetEvents(t.value))
  {
    var path := buf[s..e];
    PathTurn(m, buf, s, e);
    var first := if buf[e] == '?' then [Path(path)] else [Path(path), Uri(path)];
    var m1 := m.(cs := if buf[e] == ' ' then 4 else if buf[e] == '#' then 20 else 29, mark := s, events := m.events + first);
    if buf[e] == ' ' {
      assert TargetEvents(t.value) == first;
      assert Passed(m, m1, first);
      hide Exec;
    } else {
      var rest := if t == None then [] else TargetEvents(t.value)[|first|..];
      hide *;
      PathRest(m1, buf, e + 1, path, buf[e], t, first, rest);
      Before(m, buf, e, m1, e + 1, t, first, rest);
      if t == None {
        NoneDone(m, buf, e, t, first + rest);
      }
    }
  }

  /** What follows a path: a query or a fragment. */
  lemma PathRest(m1: Machine, buf: string, q: nat, path: string, c: char, t: Option<Target>, first: seq<Event>, rest: seq<Event>)
    requires q <= |buf| && (c == '?' || c == '#')
    requires if c == '?' then m1.cs == 29 && m1.mark < q && buf[m1.mark..q - 1] == path && buf[q - 1] == '?' && t == ReadQuery(buf, q, path)
             else m1.cs == 20 && t == ReadFragment(buf, q, path, None)
    requires first == if c == '?' then [Path(path)] else [Path(path), Uri(path)]
    requires rest == if t == None then [] else TargetEvents(t.value)[|first|..]
    ensures TargetDone(m1, buf, q, t, rest)
    ensures t.Some? ==> TargetEvents(t.value) == first + rest
  {
    FragmentKeeps(buf, q, path, None);
    if c == '?' {
      QueryRun(m1, buf, q, path);
    } else {
      FragmentRun(m1, buf, q, path, None);
    }
    hide TargetDone, ReadQuery, ReadFragment;
  }

  lemma FragmentKeeps(buf: string, p: nat, path: string, query: Option<string>)
    requires p <= |buf|
    ensures ReadFragment(buf, p, path, query).Some? ==>
      ReadFragment(buf, p, path, query).value.path == path && ReadFragment(buf, p, path, query).value.query == query
  {
  }

  lemma TargetRun(m: Machine, buf: string, p: nat)
    requires m.cs == 3 && p <= |buf|
    ensures var t := ReadTarget(buf, p);
      TargetDone(m, buf, p, t, if t == None then [] else TargetEvents(t.value))
  {
    var e, t := PathEnd(buf, p), ReadTarget(buf, p);
    if p < |buf| && buf[p] == '/' {
      SlashRun(m, buf, p);
    } else if p < |buf| && Ends(InPath, buf[p]) {
      PathRun(m, buf, p, p, t);
    } else {
      Stuck(m, buf, p);
    }
    hide Exec, UnitsEnd;
  }

  lemma SlashRun(m: Machine, buf: string, p: nat)
    requires m.cs == 3 && p < |buf| && buf[p] == '/'
    ensures var t := ReadTarget(buf, p);
      TargetDone(m, buf, p, t, if t == None then [] else TargetEvents(t.value))
  {
    var e, t := PathEnd(buf, p), ReadTarget(buf, p);
    var m1 := m.(cs := 33, mark := p);
    hide Exec, UnitsEnd, EscapeAt, Own, TargetEvents, ReadQuery, ReadFragment;
    SlashStep(m, buf, p);
    if p + 1 < |buf| && buf[p + 1] == '/' {
      Stuck(m1, buf, p + 1);
    } else {
      UnitsRun(InPath, m1, buf, p + 1);
      UnitsEndIs(buf, p + 1, false);
      var m2 := AfterUnits(InPath, m1, p + 1, e);
      if e < |buf| && Ends(InPath, buf[e]) {
        PathRun(m2, buf, p, e, t);
        Before(m, buf, p, m2, e, t, [], if t == None then [] else TargetEvents(t.value));
        assert [] + (if t == None then [] else TargetEvents(t.value)) == if t == None then [] else TargetEvents(t.value);
      } else {
        PartStuck(InPath, m2, buf, e);
      }
    }
  }

  lemma SlashStep(m: Machine, buf: string, p: nat)
    requires m.cs == 3 && p < |buf| && buf[p] == '/'
    ensures Exec(m, buf, p) == Exec(m.(cs := 33, mark := p), buf, p + 1)
  {
    OneStep(m, buf, p);
    hide Exec;
  }

  // ------------------------------------------------------------- the version

  /** One character of the version text. */
  lemma VersionStep(m: Machine, buf: string, p: nat, i: nat)
    requires i < 8 && p + i < |buf| && m.cs == 4 + i
    ensures if i < 7 then (buf[p + i] == "HTTP/1."[i] <==> Next(m.cs, buf[p + i]) != ERROR)
            else (buf[p + i] == '0' || buf[p + i] == '1' <==> Next(m.cs, buf[p + i]) != ERROR)
    ensures Next(m.cs, buf[p + i]) != ERROR ==>
      Exec(m, buf, p + i) == Exec(m.(cs := 5 + i, mark := if i == 0 then p else m.mark), buf, p + i + 1)
  {
    if Next(m.cs, buf[p + i]) != ERROR {
      OneStep(m, buf, p + i);
    }
    hide Exec;
  }

  /** The first `n` characters of a version lie at the position. */
  predicate VersionAt(buf: string, p: nat, n: nat) {
    && n <= 8 && p + n <= |buf|
    && (forall i :: 0 <= i < n && i < 7 ==> buf[p + i] == "HTTP/1."[i])
    && (n == 8 ==> buf[p + 7] == '0' || buf[p + 7] == '1')
  }

  lemma {:induction false} VersionChars(m: Machine, buf: string, p: nat, n: nat)
    requires m.cs == 4 && VersionAt(buf, p, n)
    ensures Exec(m, buf, p) == Exec(m.(cs := 4 + n, mark := if n == 0 then m.mark else p), buf, p + n)
  {
    if n > 0 {
      VersionChars(m, buf, p, n - 1);
      VersionStep(m.(cs := 3 + n, mark := if n == 1 then m.mark else p), buf, p, n - 1);
      hide Exec, Next;
    }
  }

  /** How much of a version lies at the position. */
  lemma {:induction false} VersionPrefix(buf: string, p: nat, n: nat) returns (k: nat)
    requires VersionAt(buf, p, n)
    ensures n <= k && VersionAt(buf, p, k) && (k == 8 || !VersionAt(buf, p, k + 1))
    decreases 8 - n
  {
    k := n;
    if n < 8 && VersionAt(buf, p, n + 1) {
      k := VersionPrefix(buf, p, n + 1);
    }
  }

  lemma VersionIs(buf: string, p: nat)
    ensures At(buf, p, "HTTP/1.0") || At(buf, p, "HTTP/1.1") <==> VersionAt(buf, p, 8)
  {
    if p + 8 <= |buf| {
      var t := buf[p..p + 8];
      assert forall i :: 0 <= i < 8 ==> t[i] == buf[p + i];
      assert "HTTP/1.0"[..7] == "HTTP/1." == "HTTP/1.1"[..7];
      if VersionAt(buf, p, 8) {
        assert forall i :: 0 <= i < 7 ==> t[i] == "HTTP/1."[i];
        assert t == if t[7] == '0' then "HTTP/1.0" else "HTTP/1.1";
      }
    }
  }

  /** A line break in a state that takes one: `cs` for the rest of it after a carriage return, 13 behind it. */
  lemma BreakRun(m: Machine, buf: string, e: nat)
    requires e <= |buf| && m.cs == 17
    ensures if e < |buf| && buf[e] == LF then Exec(m, buf, e) == Exec(m.(cs := 13), buf, e + 1)
            else Exec(m, buf, e).0.cs != FINAL
  {
    if e < |buf| && buf[e] == LF {
      OneStep(m, buf, e);
    } else {
      Stuck(m, buf, e);
    }
    hide Exec;
  }

  lemma VersionRun(m: Machine, buf: string, p: nat)
    requires m.cs == 4 && p <= |buf|
    ensures ReadVersion(buf, p) == None ==> Exec(m, buf, p).0.cs != FINAL
    ensures ReadVersion(buf, p).Some? ==> p + 8 <= |buf|
    ensures ReadVersion(buf, p).Some? ==>
      Exec(m, buf, p) == Exec(m.(cs := 13, mark := p, events := m.events + [Version(buf[p..p + 8])]), buf, ReadVersion(buf, p).value)
  {
    var k := VersionPrefix(buf, p, 0);
    VersionChars(m, buf, p, k);
    VersionIs(buf, p);
    var m1 := m.(cs := 4 + k, mark := if k == 0 then m.mark else p);
    hide Exec;
    if k == 8 {
      VersionEnds(m, m1, buf, p);
    } else {
      VersionStuck(m1, buf, p, k);
    }
  }

  lemma VersionStuck(m: Machine, buf: string, p: nat, k: nat)
    requires k < 8 && VersionAt(buf, p, k) && !VersionAt(buf, p, k + 1) && m.cs == 4 + k
    ensures Exec(m, buf, p + k).0.cs != FINAL
  {
    if p + k < |buf| {
      VersionStep(m, buf, p, k);
    }
    hide Exec, Next;
    Stuck(m, buf, p + k);
  }

  lemma VersionEnds(m: Machine, m1: Machine, buf: string, p: nat)
    requires p + 8 <= |buf| && m1 == m.(cs := 12, mark := p)
    ensures BreakLen(buf, p + 8) == 0 ==> Exec(m1, buf, p + 8).0.cs != FINAL
    ensures BreakLen(buf, p + 8) > 0 ==>
      Exec(m1, buf, p + 8) == Exec(m.(cs := 13, mark := p, events := m.events + [Version(buf[p..p + 8])]), buf, p + 8 + BreakLen(buf, p + 8))
  {
    var e := p + 8;
    if e < |buf| && (buf[e] == LF || buf[e] == CR) {
      OneStep(m1, buf, e);
      if buf[e] == CR {
        BreakRun(m1.(cs := 17, events := m.events + [Version(buf[p..e])]), buf, e + 1);
      }
    } else {
      Stuck(m1, buf, e);
    }
    hide Exec;
  }

  // --------------------------------------------------------- the header lines

  lemma {:induction false} NameEndIs(buf: string, p: nat)
    requires p <= |buf|
    ensures var e := NameEnd(buf, p);
      && (forall i :: p <= i < e ==> IsNameChar(buf[i])) && (e < |buf| ==> !IsNameChar(buf[e]))
    decreases |buf| - p
  {
    if p < |buf| && IsNameChar(buf[p]) {
      NameEndIs(buf, p + 1);
    }
  }

  lemma NameStep(m: Machine, buf: string, p: nat)
    requires (m.cs == 14 || m.cs == 18) && p < |buf| && IsNameChar(buf[p]) && !(m.cs == 18 && buf[p] == LF)
    ensures Exec(m, buf, p) == Exec(m.(cs := 14), buf, p + 1)
  {
    OneStep(m, buf, p);
    hide Exec;
  }

  lemma {:induction false} NameChars(m: Machine, buf: string, p: nat, e: nat)
    requires m.cs == 14 && p <= e <= |buf| && forall i :: p <= i < e ==> IsNameChar(buf[i])
    ensures Exec(m, buf, p) == Exec(m, buf, e)
    decreases e - p
  {
    hide Exec, IsNameChar;
    if p < e {
      NameStep(m, buf, p);
      NameChars(m, buf, p + 1, e);
    }
  }

  /** The states inside a name: 18 behind a carriage return at its start. */
  predicate InName(m: Machine, p: nat) {
    (m.cs == 14 || m.cs == 18) && m.fieldStart == p
  }

  lemma NameFirst(m: Machine, buf: string, p: nat)
    requires m.cs == 13 && p < |buf| && IsNameChar(buf[p]) && BreakLen(buf, p) == 0
    ensures Exec(m, buf, p) == Exec(m.(cs := if buf[p] == CR then 18 else 14, fieldStart := p), buf, p + 1)
  {
    OneStep(m, buf, p);
    hide Exec;
  }

  /** The automaton behind the characters of a name. */
  lemma NameRun(m: Machine, buf: string, p: nat) returns (n: Machine)
    requires m.cs == 13 && p < |buf| && IsNameChar(buf[p]) && BreakLen(buf, p) == 0
    ensures InName(n, p) && n.events == m.events && Exec(m, buf, p) == Exec(n, buf, NameEnd(buf, p))
    ensures n.cs == 18 ==> buf[p] == CR && NameEnd(buf, p) == p + 1
  {
    var e := NameEnd(buf, p);
    NameEndIs(buf, p);
    NameEndIs(buf, p + 1);
    assert e == NameEnd(buf, p + 1);
    NameFirst(m, buf, p);
    n := m.(cs := if buf[p] == CR then 18 else 14, fieldStart := p);
    hide Exec, NameEnd, IsNameChar;
    if p + 1 < e {
      NameStep(n, buf, p + 1);
      n := n.(cs := 14);
      NameChars(n, buf, p + 2, e);
    }
  }

  lemma NameStuck(m: Machine, buf: string, p: nat)
    requires p <= |buf| && (m.cs == 13 || m.cs == 14 || m.cs == 18)
    requires p < |buf| ==> !IsNameChar(buf[p]) && (m.cs != 13 ==> buf[p] != ':')
    ensures Exec(m, buf, p).0.cs != FINAL
  {
    Stuck(m, buf, p);
    hide Exec;
  }

  lemma ColonStep(m: Machine, buf: string, p: nat, n: nat)
    requires InName(m, p) && p <= n < |buf| && buf[n] == ':'
    ensures Exec(m, buf, n) == Exec(m.(cs := 15, fieldLen := n - p), buf, n + 1)
  {
    OneStep(m, buf, n);
    hide Exec;
  }

  /** The automaton behind the blanks of a value. */
  lemma {:induction false} PadRun(m: Machine, buf: string, p: nat) returns (n: Machine)
    requires m.cs == 15 && p <= |buf|
    ensures n == m.(mark := n.mark) && Exec(m, buf, p) == Exec(n, buf, PadEnd(buf, p))
    decreases |buf| - p
  {
    hide Exec;
    n := m;
    if p < |buf| && (buf[p] == ' ' || buf[p] == '\t') {
      PadStep(m, buf, p);
      n := PadRun(m.(mark := p), buf, p + 1);
    }
  }

  lemma PadStep(m: Machine, buf: string, p: nat)
    requires m.cs == 15 && p < |buf| && (buf[p] == ' ' || buf[p] == '\t')
    ensures Exec(m, buf, p) == Exec(m.(mark := p), buf, p + 1)
  {
    OneStep(m, buf, p);
    hide Exec;
  }

  lemma {:induction false} PadEndIs(buf: string, p: nat)
    requires p <= |buf|
    ensures PadEnd(buf, p) < |buf| ==> buf[PadEnd(buf, p)] != ' ' && buf[PadEnd(buf, p)] != '\t'
    decreases |buf| - p
  {
    if p < |buf| && (buf[p] == ' ' || buf[p] == '\t') {
      PadEndIs(buf, p + 1);
    }
  }

  lemma {:induction false} ValueEndIs(buf: string, p: nat)
    requires p <= |buf|
    ensures ValueEnd(buf, p) < |buf| ==> !InValue(buf[ValueEnd(buf, p)])
    decreases |buf| - p
  {
    if p < |buf| && InValue(buf[p]) {
      ValueEndIs(buf, p + 1);
    }
  }

  lemma ValueStep(m: Machine, buf: string, p: nat)
    requires (m.cs == 15 || m.cs == 16) && p < |buf| && InValue(buf[p]) && (m.cs == 15 ==> buf[p] != ' ' && buf[p] != '\t')
    ensures Exec(m, buf, p) == Exec(m.(cs := 16, mark := if m.cs == 15 then p else m.mark), buf, p + 1)
  {
    OneStep(m, buf, p);
    hide Exec;
  }

  lemma {:induction false} ValueChars(m: Machine, buf: string, p: nat)
    requires m.cs == 16 && p <= |buf|
    ensures Exec(m, buf, p) == Exec(m, buf, ValueEnd(buf, p))
    decreases |buf| - p
  {
    hide Exec, InValue;
    if p < |buf| && InValue(buf[p]) {
      ValueStep(m, buf, p);
      ValueChars(m, buf, p + 1);
    }
  }

  /** The end of a value that starts at `b`. */
  lemma ValueTurn(m: Machine, buf: string, b: nat, e: nat, name: string)
    requires b <= e < |buf| && (buf[e] == CR || buf[e] == LF)
    requires Slice(buf, m.fieldStart, m.fieldStart + m.fieldLen) == name
    requires (m.cs == 16 && m.mark == b) || (m.cs == 15 && b == e)
    ensures Exec(m, buf, e)
      == Exec(m.(cs := if buf[e] == LF then 13 else 17, mark := b, events := m.events + [Field(name, buf[b..e])]), buf, e + 1)
  {
    assert b == e ==> buf[b..e] == "";
    OneStep(m, buf, e);
    hide Exec, Slice;
  }

  /** From the end of a value: the break follows and the field is reported, or the automaton never finishes. */
  lemma ValueEnds(m: Machine, buf: string, b: nat, e: nat, name: string)
    requires b <= e <= |buf| && (e < |buf| ==> !InValue(buf[e]))
    requires Slice(buf, m.fieldStart, m.fieldStart + m.fieldLen) == name
    requires (m.cs == 16 && m.mark == b) || (m.cs == 15 && b == e)
    ensures BreakLen(buf, e) == 0 ==> Exec(m, buf, e).0.cs != FINAL
    ensures BreakLen(buf, e) > 0 ==>
      Exec(m, buf, e) == Exec(m.(cs := 13, mark := b, events := m.events + [Field(name, buf[b..e])]), buf, e + BreakLen(buf, e))
  {
    hide Exec, Slice;
    if e < |buf| && (buf[e] == CR || buf[e] == LF) {
      ValueTurn(m, buf, b, e, name);
      if buf[e] == CR {
        BreakRun(m.(cs := 17, mark := b, events := m.events + [Field(name, buf[b..e])]), buf, e + 1);
      }
    } else {
      Stuck(m, buf, e);
    }
  }

  lemma ValueEndNext(buf: string, b: nat)
    requires b <= |buf|
    ensures ValueEnd(buf, b) == if b < |buf| && InValue(buf[b]) then ValueEnd(buf, b + 1) else b
  {
  }

  lemma ValueRun(m: Machine, buf: string, v: nat, name: string) returns (n: Machine)
    requires m.cs == 15 && v <= |buf| && Slice(buf, m.fieldStart, m.fieldStart + m.fieldLen) == name
    ensures var b := PadEnd(buf, v);
      var e := ValueEnd(buf, b);
      && (BreakLen(buf, e) == 0 ==> Exec(m, buf, v).0.cs != FINAL)
      && (BreakLen(buf, e) > 0 ==>
           n.cs == 13 && n.events == m.events + [Field(name, buf[b..e])] && Exec(m, buf, v) == Exec(n, buf, e + BreakLen(buf, e)))
  {
    var b := PadEnd(buf, v);
    var e := ValueEnd(buf, b);
    ValueEndNext(buf, b);
    hide Exec, PadEnd, ValueEnd, InValue, Slice, BreakLen;
    PadEndIs(buf, v);
    ValueEndIs(buf, b);
    var m1 := PadRun(m, buf, v);
    if b < |buf| && InValue(buf[b]) {
      ValueStep(m1, buf, b);
      m1 := m1.(cs := 16, mark := b);
      ValueChars(m1, buf, b + 1);
    }
    ValueEnds(m1, buf, b, e, name);
    n := m1.(cs := 13, mark := b, events := m1.events + [Field(name, buf[b..e])]);
  }

  lemma LineRun(m: Machine, buf: string, p: nat) returns (n: Machine)
    requires m.cs == 13 && p <= |buf| && BreakLen(buf, p) == 0
    ensures ReadLine(buf, p) == None ==> Exec(m, buf, p).0.cs != FINAL
    ensures ReadLine(buf, p).Some? ==>
      var line := ReadLine(buf, p).value;
      n.cs == 13 && n.events == m.events + [Field(line.name, line.value)] && Exec(m, buf, p) == Exec(n, buf, line.next)
  {
    var e := NameEnd(buf, p);
    NameEndIs(buf, p);
    assert e == p <==> p == |buf| || !IsNameChar(buf[p]);
    hide Exec, NameEnd, PadEnd, ValueEnd, IsNameChar, BreakLen, InName;
    if e > p && e < |buf| && buf[e] == ':' {
      n := NamedRun(m, buf, p, e);
    } else {
      n := m;
      NoName(m, buf, p, e);
    }
  }

  lemma NamedRun(m: Machine, buf: string, p: nat, e: nat) returns (n: Machine)
    requires m.cs == 13 && p < e < |buf| && e == NameEnd(buf, p) && buf[e] == ':'
    requires IsNameChar(buf[p]) && BreakLen(buf, p) == 0
    ensures var b := PadEnd(buf, e + 1);
      var v := ValueEnd(buf, b);
      && (BreakLen(buf, v) == 0 ==> Exec(m, buf, p).0.cs != FINAL)
      && (BreakLen(buf, v) > 0 ==>
           n.cs == 13 && n.events == m.events + [Field(buf[p..e], buf[b..v])] && Exec(m, buf, p) == Exec(n, buf, v + BreakLen(buf, v)))
  {
    hide *;
    var m1 := NameRun(m, buf, p);
    ColonStep(m1, buf, p, e);
    NamedSlice(m1, buf, p, e);
    n := ValueRun(m1.(cs := 15, fieldLen := e - p), buf, e + 1, buf[p..e]);
  }

  lemma NoName(m: Machine, buf: string, p: nat, e: nat)
    requires m.cs == 13 && p <= |buf| && BreakLen(buf, p) == 0 && e == NameEnd(buf, p)
    requires e == p || e == |buf| || buf[e] != ':'
    ensures Exec(m, buf, p).0.cs != FINAL
  {
    NameEndIs(buf, p);
    assert e > p ==> IsNameChar(buf[p]);
    hide *;
    if e == p {
      NameStuck(m, buf, p);
    } else {
      var m1 := NameRun(m, buf, p);
      NameStates(m1, p);
      NameStuck(m1, buf, e);
    }
  }

  lemma NameStates(m: Machine, p: nat)
    requires InName(m, p)
    ensures m.cs == 14 || m.cs == 18
  {
  }

  lemma NamedSlice(m: Machine, buf: string, p: nat, e: nat)
    requires InName(m, p) && p <= e <= |buf|
    ensures Slice(buf, m.fieldStart, m.fieldStart + (e - p)) == buf[p..e]
  {
  }

  lemma LastBreak(m: Machine, buf: string, p: nat)
    requires m.cs == 13 && p <= |buf| && BreakLen(buf, p) > 0
    ensures var (n, end) := Exec(m, buf, p);
      n.cs == FINAL && end == n.bodyStart == p + BreakLen(buf, p) && n.events == m.events
  {
    if buf[p] == LF {
      OneStep(m, buf, p);
      ExecEnds(m.(cs := FINAL, fieldStart := p, bodyStart := p + 1), buf, p + 1);
    } else {
      var m1 := m.(cs := 18, fieldStart := p);
      OneStep(m, buf, p);
      OneStep(m1, buf, p + 1);
      ExecEnds(m1.(cs := FINAL, bodyStart := p + 2), buf, p + 2);
    }
    hide Exec;
  }

  /** From `m`, the automaton finishes exactly if a head was read, and then as the head says. */
  predicate Agree(m: Machine, result: (Machine, nat), head: Option<Head>) {
    if head == None then result.0.cs != FINAL
    else
      && result.0.cs == FINAL && result.1 == result.0.bodyStart == head.value.end
      && result.0.events == m.events + head.value.events
  }

  lemma AgreeBehind(m: Machine, n: Machine, result: (Machine, nat), events: seq<Event>, head: Option<Head>)
    requires Agree(n, result, head) && n.events == m.events + events
    ensures Agree(m, result, Behind(events, head))
  {
  }

  /** From the start of a line: the automaton finishes exactly if the reader finds all lines. */
  lemma {:induction false} LinesRun(m: Machine, buf: string, p: nat)
    requires m.cs == 13 && p <= |buf|
    ensures Agree(m, Exec(m, buf, p), ReadLines(buf, p))
    decreases |buf| - p
  {
    if BreakLen(buf, p) > 0 {
      LastBreak(m, buf, p);
      hide Exec;
    } else {
      hide Exec, ReadLine, BreakLen, Agree, Behind;
      var n := LineRun(m, buf, p);
      if ReadLine(buf, p).Some? {
        var line := ReadLine(buf, p).value;
        LinesRun(n, buf, line.next);
        AgreeBehind(m, n, Exec(m, buf, p), [Field(line.name, line.value)], ReadLines(buf, line.next));
      } else {
        NotRead(m, Exec(m, buf, p));
      }
    }
  }

  lemma NotRead(m: Machine, result: (Machine, nat))
    requires result.0.cs != FINAL
    ensures Agree(m, result, None)
  {
  }

  // ---------------------------------------------------------------- the head

  lemma TailRun(m: Machine, buf: string, p: nat)
    requires m.cs == 4 && p <= |buf|
    ensures Agree(m, Exec(m, buf, p), ReadTail(buf, p))
  {
    hide Exec, ReadVersion, ReadLines, Agree, Behind;
    VersionRun(m, buf, p);
    if ReadVersion(buf, p).Some? {
      var n := m.(cs := 13, mark := p, events := m.events + [Version(buf[p..p + 8])]);
      LinesRun(n, buf, ReadVersion(buf, p).value);
      AgreeBehind(m, n, Exec(m, buf, p), [Version(buf[p..p + 8])], ReadLines(buf, ReadVersion(buf, p).value));
    } else {
      NotRead(m, Exec(m, buf, p));
    }
  }

  lemma TargetAndTail(m: Machine, buf: string, p: nat)
    requires m.cs == 3 && p <= |buf|
    ensures match ReadTarget(buf, p)
      case None => Exec(m, buf, p).0.cs != FINAL
      case Some(t) => Agree(m, Exec(m, buf, p), Behind(TargetEvents(t), ReadTail(buf, t.next)))
  {
    TargetRun(m, buf, p);
    hide Exec, ReadTarget, ReadTail, TargetEvents, Agree, Behind;
    if ReadTarget(buf, p).Some? {
      var t := ReadTarget(buf, p).value;
      var n :| Passed(m, n, TargetEvents(t)) && Exec(m, buf, p) == Exec(n, buf, t.next);
      TailRun(n, buf, t.next);
      AgreeBehind(m, n, Exec(m, buf, p), TargetEvents(t), ReadTail(buf, t.next));
    }
  }

  /**
   The automaton finishes exactly on the heads that the reader reads, stops at
   the end of the head, and makes the callbacks for what the reader finds.
   */
  lemma HeadRun(buf: string)
    ensures Exec(Init(), buf, 0).0.cs == FINAL <==> ReadHead(buf).Some?
    ensures ReadHead(buf).Some? ==>
      var (m, end) := Exec(Init(), buf, 0);
      end == m.bodyStart == ReadHead(buf).value.end && m.events == ReadHead(buf).value.events
  {
    HeadAgrees(buf);
    hide Exec, ReadHead;
  }

  lemma HeadAgrees(buf: string)
    ensures Agree(Init(), Exec(Init(), buf, 0), ReadHead(buf))
  {
    var e := MethodEnd(buf, 0);
    hide Exec, MethodEnd, ReadTarget, ReadTail, TargetEvents, Agree, Behind;
    MethodRun(buf);
    if 1 <= e <= 20 && e < |buf| && buf[e] == ' ' {
      var m := Init().(cs := 3, events := [Method(buf[0..e])]);
      TargetAndTail(m, buf, e + 1);
      if ReadTarget(buf, e + 1).Some? {
        var t := ReadTarget(buf, e + 1).value;
        AgreeBehind(Init(), m, Exec(m, buf, e + 1), [Method(buf[0..e])], Behind(TargetEvents(t), ReadTail(buf, t.next)));
        BehindTwice([Method(buf[0..e])], TargetEvents(t), ReadTail(buf, t.next));
      } else {
        NotRead(Init(), Exec(m, buf, e + 1));
      }
    } else {
      NotRead(Init(), Exec(Init(), buf, 0));
    }
  }

  lemma BehindTwice(a: seq<Event>, b: seq<Event>, head: Option<Head>)
    ensures Behind(a, Behind(b, head)) == Behind(a + b, head)
  {
    if head.Some? {
      assert a + (b + head.value.events) == (a + b) + head.value.events;
    }
  }
}
