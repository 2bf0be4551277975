/**
 The request automaton for request targets in origin form: its states by
 their numbers, the transition on one character, the actions, and the loop.
 */
module RequestAutomaton {

  import opened HttpText

  datatype Event =
    | Method(text: string)
    | Path(text: string)
    | Query(text: string)
    | Fragment(text: string)
    | Uri(text: string)
    | Version(text: string)
    | Field(name: string, value: string)

  datatype Machine = Machine(
    cs: nat,
    mark: nat,
    fieldStart: nat,
    fieldLen: nat,
    queryStart: nat,
    bodyStart: nat,
    events: seq<Event>)         // the callbacks made so far

  function Init(): Machine {
    Machine(1, 0, 0, 0, 0, 0, [])
  }

  const ERROR: nat := 0
  const FINAL: nat := 348

  /** Stands for all states of the part not modelled here: other request targets and the markup requests. */
  const OUTSIDE: nat := 1000

  predicate Stopped(cs: nat) {
    cs == ERROR || cs == FINAL || cs == OUTSIDE
  }

  // ------------------------------------------------------------- characters

  predicate IsMethodChar(c: char) {
    IsDigit(c) || 'A' <= c <= 'Z'
  }

  predicate IsHex(c: char) {
    IsDigit(c) || 'A' <= c <= 'F' || 'a' <= c <= 'f'
  }

  /** Characters of a path that stand for themselves. */
  predicate IsPathChar(c: char) {
    || c == '!' || c == '$' || '&' <= c <= ';' || c == '=' || '@' <= c <= 'Z' || c == '_'
    || 'a' <= c <= 'z' || c == '~'
  }

  /** A query or a fragment may also hold question marks. */
  predicate IsQueryChar(c: char) {
    IsPathChar(c) || c == '?'
  }

  /** Accepted or not depending on a flag that the constructor does not set. */
  predicate IsRelaxed(c: char) {
    c == '^' || c == '{' || c == '}'
  }

  /** Header names may also hold control characters, but not at their end. */
  predicate IsNameChar(c: char) {
    IsToken(c) || 1 as char <= c <= 8 as char || 10 as char <= c <= 31 as char
  }

  // ------------------------------------------------------------ transitions

  function MethodNext(cs: nat, c: char): nat {
    if cs == 1 then if IsMethodChar(c) then 2 else if c == '<' || c == '@' then OUTSIDE else ERROR
    else if c == ' ' then 3
    else if !IsMethodChar(c) || cs == 193 then ERROR
    else if cs == 2 then 175
    else cs + 1
  }

  /** Path, query and fragment; an escape is a percent sign and two hexadecimal digits. */
  function TargetNext(cs: nat, c: char): nat {
    if cs == 27 || cs == 31 || cs == 22 then if IsHex(c) then cs + 1 else ERROR
    else if cs == 28 then if IsHex(c) then 26 else ERROR
    else if cs == 32 then if IsHex(c) then 30 else ERROR
    else if cs == 23 then if IsHex(c) then 21 else ERROR
    else if IsRelaxed(c) then OUTSIDE
    else if c == ' ' then 4
    else if cs == 20 || cs == 21 then if c == '%' then 22 else if IsQueryChar(c) then 21 else ERROR
    else if c == '#' then 20
    else if cs == 29 || cs == 30 then if c == '%' then 31 else if IsQueryChar(c) then 30 else ERROR
    else if c == '?' then 29
    else if cs == 3 then
      if c == '/' then 33 else if c == '%' || (IsPathChar(c) && c != ':') then OUTSIDE else ERROR
    else if cs == 33 && c == '/' then OUTSIDE
    else if c == '%' then 27
    else if IsPathChar(c) then 26
    else ERROR
  }

  function VersionNext(cs: nat, c: char): nat {
    if cs == 4 then if c == 'H' then 5 else ERROR
    else if cs == 5 || cs == 6 then if c == 'T' then cs + 1 else ERROR
    else if cs == 7 then if c == 'P' then 8 else ERROR
    else if cs == 8 then if c == '/' then 9 else ERROR
    else if cs == 9 then if c == '1' then 10 else ERROR
    else if cs == 10 then if c == '.' then 11 else ERROR
    else if cs == 11 then if c == '0' || c == '1' then 12 else ERROR
    else if c == LF then 13 else if c == CR then 17 else ERROR
  }

  function HeaderNext(cs: nat, c: char): nat {
    if cs == 13 then if c == LF then FINAL else if c == CR then 18 else if IsNameChar(c) then 14 else ERROR
    else if cs == 14 then if c == ':' then 15 else if IsNameChar(c) then 14 else ERROR
    else if cs == 17 then if c == LF then 13 else ERROR
    else if cs == 18 then if c == LF then FINAL else if c == ':' then 15 else if IsNameChar(c) then 14 else ERROR
    else if c == 0 as char || c == 127 as char then ERROR
    else if c == LF then 13
    else if c == CR then 17
    else if cs == 15 && (c == ' ' || c == '\t') then 15
    else 16
  }

  predicate InMethod(cs: nat) {
    cs == 1 || cs == 2 || 175 <= cs <= 193
  }

  predicate InTarget(cs: nat) {
    cs == 3 || 20 <= cs <= 23 || 26 <= cs <= 33
  }

  predicate InVersion(cs: nat) {
    4 <= cs <= 12
  }

  predicate InHeaders(cs: nat) {
    13 <= cs <= 18
  }

  function Next(cs: nat, c: char): nat {
    if InMethod(cs) then MethodNext(cs, c)
    else if InTarget(cs) then TargetNext(cs, c)
    else if InVersion(cs) then VersionNext(cs, c)
    else if InHeaders(cs) then HeaderNext(cs, c)
    else ERROR
  }

  // ---------------------------------------------------------------- actions

  function Report(m: Machine, events: seq<Event>): Machine {
    m.(events := m.events + events)
  }

  function TargetAct(m: Machine, buf: string, p: nat): Machine
    requires p < |buf|
  {
    var c := buf[p];
    if m.cs == 3 then
      var n := m.(mark := p);
      if c == '?' then Report(n, [Path("")]) else if c == ' ' || c == '#' then Report(n, [Path(""), Uri("")]) else n
    else if m.cs == 26 || m.cs == 33 then
      var path := Path(Slice(buf, m.mark, p));
      if c == '?' then Report(m, [path])
      else if c == ' ' || c == '#' then Report(m, [path, Uri(Slice(buf, m.mark, p))])
      else m
    else if m.cs == 29 || m.cs == 30 then
      var n := if m.cs == 29 then m.(queryStart := p) else m;
      if c == ' ' || c == '#' then Report(n, [Query(Slice(buf, n.queryStart, p)), Uri(Slice(buf, m.mark, p))]) else n
    else if m.cs == 20 || m.cs == 21 then
      var n := if m.cs == 20 then m.(mark := p) else m;
      if c == ' ' then Report(n, [Fragment(Slice(buf, n.mark, p))]) else n
    else m
  }

  function HeaderAct(m: Machine, buf: string, p: nat): Machine
    requires p < |buf|
  {
    var c := buf[p];
    var name := Slice(buf, m.fieldStart, m.fieldStart + m.fieldLen);
    if m.cs == 13 then
      var n := m.(fieldStart := p);
      if c == LF then n.(bodyStart := p + 1) else n
    else if (m.cs == 14 || m.cs == 18) && c == ':' then
      m.(fieldLen := if m.fieldStart <= p then p - m.fieldStart else 0)
    else if m.cs == 18 && c == LF then m.(bodyStart := p + 1)
    else if m.cs == 15 then
      var n := m.(mark := p);
      if c == CR || c == LF then Report(n, [Field(name, "")]) else n
    else if m.cs == 16 && (c == CR || c == LF) then Report(m, [Field(name, Slice(buf, m.mark, p))])
    else m
  }

  /** The actions on the transition from `m.cs` at `buf[p]`, which does not fail. */
  function Act(m: Machine, buf: string, p: nat): Machine
    requires p < |buf|
  {
    var c := buf[p];
    if m.cs == 1 || m.cs == 4 then m.(mark := p)
    else if InMethod(m.cs) then if c == ' ' then Report(m, [Method(Slice(buf, m.mark, p))]) else m
    else if InTarget(m.cs) then TargetAct(m, buf, p)
    else if m.cs == 12 then Report(m, [Version(Slice(buf, m.mark, p))])
    else if InHeaders(m.cs) then HeaderAct(m, buf, p)
    else m
  }

  /** One turn of the loop. */
  function Step(m: Machine, buf: string, p: nat): Machine
    requires p < |buf|
  {
    var next := Next(m.cs, buf[p]);
    if next == ERROR then m.(cs := ERROR) else Act(m, buf, p).(cs := next)
  }

  /** The machine and the position when the loop leaves; on an error the character is not consumed. */
  function Exec(m: Machine, buf: string, p: nat): (Machine, nat)
    requires p <= |buf|
    decreases |buf| - p
  {
    if p == |buf| || Stopped(m.cs) then (m, p)
    else
      var n := Step(m, buf, p);
      if n.cs == ERROR then (n, p) else Exec(n, buf, p + 1)
  }

  // ------------------------------------------------------ one turn of the loop

  lemma OneStep(m: Machine, buf: string, p: nat)
    requires p < |buf| && !Stopped(m.cs) && Next(m.cs, buf[p]) != ERROR
    ensures Exec(m, buf, p) == Exec(Act(m, buf, p).(cs := Next(m.cs, buf[p])), buf, p + 1)
  {
    hide Next, Act;
  }

  lemma ExecTurn(m: Machine, buf: string, p: nat)
    requires p < |buf| && !Stopped(m.cs)
    ensures var n := Step(m, buf, p);
      && (n.cs == ERROR ==> Exec(m, buf, p) == Exec(n, buf, p) && Stopped(n.cs))
      && (n.cs != ERROR ==> Exec(m, buf, p) == Exec(n, buf, p + 1))
  {
    hide Next, Act;
  }

  lemma ExecEnds(m: Machine, buf: string, p: nat)
    requires p <= |buf| && (p == |buf| || Stopped(m.cs))
    ensures Exec(m, buf, p) == (m, p)
  {
  }
}
