/**
 The response header automaton: its states by their numbers, the transition
 on one character, the actions, and the loop over a buffer.
 */
module ResponseAutomaton {

  import opened HttpText

  const CONNECTION := "connection"
  const TRANSFER_ENCODING := "transfer-encoding"
  const CONTENT_LENGTH := "content-length"
  const CLOSE := "close"
  const CHUNKED := "chunked"

  datatype Event =
    | Version(text: string)
    | StatusCode(text: string)
    | Reason(text: string)
    | Field(name: string, value: string)

  datatype Machine = Machine(
    cs: nat,
    mark: nat,
    fieldStart: nat,
    fieldLen: nat,
    bodyStart: nat,
    status: int,
    contentLen: int,
    close: bool,
    chunked: bool,
    events: seq<Event>)         // the callbacks made so far

  function Init(): Machine {
    Machine(1, 0, 0, 0, 0, 0, -1, false, false, [])
  }

  const ERROR: nat := 0
  const FINAL: nat := 120

  /** Chunk sizes and blank values of the three keyword names lead out of the part modelled here. */
  predicate Outside(cs: nat) {
    cs == 2 || cs == 36 || cs == 62 || cs == 80 || cs == 95 || cs == 113 || cs == 118
  }

  predicate Stopped(cs: nat) {
    cs == ERROR || cs == FINAL || Outside(cs)
  }

  // ------------------------------------------------------------ transitions

  /** The status line: `HTTP/` digits `.` digits, a space, digits, a space, and the reason. */
  function StatusNext(cs: nat, c: char): nat {
    if cs == 1 then
      if c == 'H' then 8 else if IsDigit(c) || 'a' <= Lower(c) <= 'f' then 2 else ERROR
    else if cs == 8 then if c == 'T' then 9 else ERROR
    else if cs == 9 then if c == 'T' then 10 else ERROR
    else if cs == 10 then if c == 'P' then 11 else ERROR
    else if cs == 11 then if c == '/' then 12 else ERROR
    else if cs == 12 then if IsDigit(c) then 13 else ERROR
    else if cs == 13 then if c == '.' then 14 else if IsDigit(c) then 13 else ERROR
    else if cs == 14 then if IsDigit(c) then 15 else ERROR
    else if cs == 15 then if c == ' ' then 16 else if IsDigit(c) then 15 else ERROR
    else if cs == 16 then if IsDigit(c) then 17 else ERROR
    else if cs == 17 then if c == ' ' then 18 else if IsDigit(c) then 17 else ERROR
    else if cs == 18 then if c == LF then ERROR else 19
    else if c == LF then 20 else if c == CR then 24 else 19
  }

  /** A header name: the states are the nodes of the three keyword tries, and 21 for all other names. */
  function NameNext(cs: nat, c: char): nat {
    if c == ':' then
      if cs == 34 then 35 else if cs == 60 then 61 else if cs == 111 then 112 else 22
    else if !IsToken(c) then ERROR
    else if 25 <= cs <= 33 && Lower(c) == CONNECTION[cs - 24] then cs + 1
    else if cs == 27 && Lower(c) == 't' then 101
    else if 44 <= cs <= 59 && Lower(c) == TRANSFER_ENCODING[cs - 43] then cs + 1
    else if 101 <= cs <= 110 && Lower(c) == CONTENT_LENGTH[cs - 97] then cs + 1
    else 21
  }

  /** The start of a line, with the `close` of the line before still to be recorded in 43. */
  function LineNext(c: char): nat {
    if c == LF then FINAL
    else if c == CR then 3
    else if !IsToken(c) then ERROR
    else if Lower(c) == 'c' then 25
    else if Lower(c) == 't' then 44
    else 21
  }

  /** A value: blanks, then text that may still be one of the keyword values. */
  function ValueNext(cs: nat, c: char): nat {
    if cs == 22 then if c == LF then 20 else if c == CR then 24 else if IsBlank(c) then 22 else 23
    else if cs == 35 then
      if c == LF then 36 else if c == CR then 95 else if IsBlank(c) then 35 else if Lower(c) == 'c' then 96 else 23
    else if cs == 61 then
      if c == LF then 62 else if c == CR then 80 else if IsBlank(c) then 61 else if Lower(c) == 'c' then 81 else 23
    else if cs == 112 then
      if c == LF then 113 else if c == CR then 118 else if IsBlank(c) then 112 else if IsDigit(c) then 119 else 23
    else if c == LF then if cs == 100 then 43 else 20
    else if c == CR then if cs == 100 then 88 else if cs == 87 then 71 else 24
    else if 96 <= cs <= 99 && Lower(c) == CLOSE[cs - 95] then cs + 1
    else if 81 <= cs <= 86 && Lower(c) == CHUNKED[cs - 80] then cs + 1
    else if cs == 119 && IsDigit(c) then 119
    else 23
  }

  predicate InStatus(cs: nat) {
    cs == 1 || 8 <= cs <= 19
  }

  predicate InName(cs: nat) {
    cs == 21 || 25 <= cs <= 34 || 44 <= cs <= 60 || 101 <= cs <= 111
  }

  predicate InBlanks(cs: nat) {
    cs == 22 || cs == 35 || cs == 61 || cs == 112
  }

  predicate InText(cs: nat) {
    cs == 23 || 81 <= cs <= 87 || 96 <= cs <= 100 || cs == 119
  }

  /** The end of a line: a carriage return was read. */
  predicate InEnd(cs: nat) {
    cs == 3 || cs == 24 || cs == 71 || cs == 88
  }

  function Next(cs: nat, c: char): nat {
    if InStatus(cs) then StatusNext(cs, c)
    else if cs == 20 || cs == 43 then LineNext(c)
    else if InName(cs) then NameNext(cs, c)
    else if InBlanks(cs) || InText(cs) then ValueNext(cs, c)
    else if InEnd(cs) && c == LF then if cs == 3 then FINAL else if cs == 88 then 43 else 20
    else ERROR
  }

  // ---------------------------------------------------------------- actions

  function ReportField(m: Machine, buf: string, mark: nat, p: nat): Machine {
    m.(mark := mark,
       events := m.events + [Field(Slice(buf, m.fieldStart, m.fieldStart + m.fieldLen), Slice(buf, mark, p))])
  }

  function StatusAct(m: Machine, buf: string, p: nat): Machine
    requires p < |buf|
  {
    var c := buf[p];
    if m.cs == 1 || m.cs == 16 || m.cs == 18 then m.(mark := p)
    else if m.cs == 15 && c == ' ' then m.(events := m.events + [Version(Slice(buf, m.mark, p))])
    else if m.cs == 17 && c == ' ' then
      var text := Slice(buf, m.mark, p);
      m.(status := if AllDigits(text) then ToInt(text) else 0, events := m.events + [StatusCode(text)])
    else if m.cs == 19 && (c == CR || c == LF) then m.(events := m.events + [Reason(Slice(buf, m.mark, p))])
    else m
  }

  function ValueAct(m: Machine, buf: string, p: nat): Machine
    requires p < |buf|
  {
    var c := buf[p];
    if InBlanks(m.cs) then
      if c == CR || c == LF then ReportField(m, buf, p, p) else m.(mark := p)
    else if c != CR && c != LF then m
    else
      var text := Slice(buf, m.mark, p);
      var n := if m.cs == 119 then m.(contentLen := if AllDigits(text) then ToInt(text) else 0) else m;
      ReportField(n, buf, m.mark, p).(chunked := m.chunked || (m.cs == 87 && c == LF))
  }

  /** The actions on the transition from `m.cs` at `buf[p]`, which does not fail. */
  function Act(m: Machine, buf: string, p: nat): Machine
    requires p < |buf|
  {
    var c := buf[p];
    if InStatus(m.cs) then StatusAct(m, buf, p)
    else if m.cs == 20 || m.cs == 43 then
      var n := m.(close := m.close || m.cs == 43);
      if c == LF then n.(bodyStart := p + 1) else if c == CR then n else n.(fieldStart := p)
    else if InName(m.cs) then if c == ':' then m.(fieldLen := if m.fieldStart <= p then p - m.fieldStart else 0) else m
    else if InBlanks(m.cs) || InText(m.cs) then ValueAct(m, buf, p)
    else if m.cs == 3 then m.(bodyStart := p + 1)
    else if m.cs == 71 then m.(chunked := true)
    else m
  }

  /** One turn of the loop. */
  function Step(m: Machine, buf: string, p: nat): Machine
    requires p < |buf|
  {
    var next := Next(m.cs, buf[p]);
    if next == ERROR then m.(cs := ERROR) else Act(m, buf, p).(cs := next)
  }

  /** The machine and the position when the loop leaves; on an error the character is not consumed. */
  function Exec(m: Machine, buf: string, p: nat): (Machine, nat)
    requires p <= |buf|
    decreases |buf| - p
  {
    if p == |buf| || Stopped(m.cs) then (m, p)
    else
      var n := Step(m, buf, p);
      if n.cs == ERROR then (n, p) else Exec(n, buf, p + 1)
  }

  // ------------------------------------------------------ one turn of the loop

  lemma OneStep(m: Machine, buf: string, p: nat)
    requires p < |buf| && !Stopped(m.cs) && Next(m.cs, buf[p]) != ERROR
    ensures Exec(m, buf, p) == Exec(Act(m, buf, p).(cs := Next(m.cs, buf[p])), buf, p + 1)
  {
  }

  lemma ExecTurn(m: Machine, buf: string, p: nat)
    requires p < |buf| && !Stopped(m.cs)
    ensures var n := Step(m, buf, p);
      && (n.cs == ERROR ==> Exec(m, buf, p) == Exec(n, buf, p) && Stopped(n.cs))
      && (n.cs != ERROR ==> Exec(m, buf, p) == Exec(n, buf, p + 1))
  {
  }

  lemma ExecEnds(m: Machine, buf: string, p: nat)
    requires p <= |buf| && (p == |buf| || Stopped(m.cs))
    ensures Exec(m, buf, p) == (m, p)
  {
  }
}
