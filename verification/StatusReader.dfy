/** A plain reader of whole response heads: the status line, and the header lines behind it. */
module StatusReader {

  import opened Wrappers
  import opened HttpText
  import opened ResponseAutomaton
  import opened ResponseReader

  /** The end of the digits from a position on. */
  function DigitsEnd(buf: string, p: nat): (e: nat)
    requires p <= |buf|
    ensures p <= e <= |buf|
    decreases |buf| - p
  {
    if p == |buf| || !IsDigit(buf[p]) then p else DigitsEnd(buf, p + 1)
  }

  /** Some digits, and then the character: where the digits end. */
  function Digits(buf: string, p: nat, c: char): (e: Option<nat>)
    ensures e.Some? ==> p < e.value < |buf|
  {
    if p >= |buf| then None
    else
      var e := DigitsEnd(buf, p);
      if e == p || e == |buf| || buf[e] != c then None else Some(e)
  }

  datatype Status = Status(version: string, code: string, reason: string, at: nat, next: nat)

  /** The reason: at least one character, which is not a line feed, up to the line break. */
  function ReadReason(buf: string, p: nat, version: string, code: string): (status: Option<Status>)
    ensures status.Some? ==> p < status.value.next <= |buf| && status.value.at == p
  {
    if p >= |buf| || buf[p] == LF then None
    else
      var e := TextEnd(buf, p + 1);
      if BreakLen(buf, e) == 0 then None else Some(Status(version, code, buf[p..e], p, e + BreakLen(buf, e)))
  }

  function ReadCode(buf: string, p: nat, version: string): (status: Option<Status>)
    ensures status.Some? ==> p < status.value.next <= |buf|
  {
    match Digits(buf, p, ' ')
    case None => None
    case Some(c) => ReadReason(buf, c + 1, version, buf[p..c])
  }

  function ReadMinor(buf: string, p: nat): (status: Option<Status>)
    ensures status.Some? ==> p < status.value.next <= |buf|
  {
    match Digits(buf, p, ' ')
    case None => None
    case Some(b) => ReadCode(buf, b + 1, buf[0..b])
  }

  /** `HTTP/`, digits, a dot, digits, a space, digits, a space, the reason, and the line break. */
  function ReadStatus(buf: string): (status: Option<Status>)
    ensures status.Some? ==> status.value.next <= |buf|
  {
    if !At(buf, 0, "HTTP/") then None
    else match Digits(buf, 5, '.')
      case None => None
      case Some(a) => ReadMinor(buf, a + 1)
  }

  lemma Stuck(m: Machine, buf: string, p: nat)
    requires p <= |buf| && m.cs != FINAL
    requires p < |buf| ==> Next(m.cs, buf[p]) == ERROR || Outside(Next(m.cs, buf[p]))
    ensures Exec(m, buf, p).0.cs != FINAL
  {
    if p < |buf| && !Stopped(m.cs) && Next(m.cs, buf[p]) != ERROR {
      ExecTurn(m, buf, p);
      ExecEnds(Step(m, buf, p), buf, p + 1);
    }
    hide Next, Act;
  }

  lemma {:induction false} DigitsEndIs(buf: string, p: nat)
    requires p <= |buf|
    ensures var e := DigitsEnd(buf, p);
      AllDigits(buf[p..e]) && (e < |buf| ==> !IsDigit(buf[e]))
    decreases |buf| - p
  {
    if p < |buf| && IsDigit(buf[p]) {
      DigitsEndIs(buf, p + 1);
      assert buf[p..DigitsEnd(buf, p)] == [buf[p]] + buf[p + 1..DigitsEnd(buf, p)];
    }
  }

  // ------------------------------------------------------------ the protocol

  /** The state before character `i` of the name of the protocol. */
  function NameState(i: nat): nat {
    if i == 0 then 1 else 7 + i
  }

  lemma NameStep(m: Machine, buf: string, i: nat)
    requires i < 5 && i < |buf| && m.cs == NameState(i)
    ensures if buf[i] == "HTTP/"[i] then Exec(m, buf, i) == Exec(m.(cs := NameState(i + 1), mark := if i == 0 then 0 else m.mark), buf, i + 1)
            else Exec(m, buf, i).0.cs != FINAL
  {
    if buf[i] == "HTTP/"[i] {
      OneStep(m, buf, i);
    } else {
      Stuck(m, buf, i);
    }
    hide Exec;
  }

  lemma {:induction false} NameRun(buf: string, i: nat)
    requires i <= 5
    ensures (i <= |buf| && forall k :: 0 <= k < i ==> buf[k] == "HTTP/"[k]) ==>
      Exec(Init(), buf, 0) == Exec(Init().(cs := NameState(i)), buf, i)
    ensures !(i <= |buf| && forall k :: 0 <= k < i ==> buf[k] == "HTTP/"[k]) ==> Exec(Init(), buf, 0).0.cs != FINAL
  {
    if i > 0 {
      NameRun(buf, i - 1);
      var m := Init().(cs := NameState(i - 1));
      hide Exec;
      if i - 1 <= |buf| && forall k :: 0 <= k < i - 1 ==> buf[k] == "HTTP/"[k] {
        if i - 1 < |buf| {
          NameStep(m, buf, i - 1);
        } else {
          Stuck(m, buf, i - 1);
        }
      }
    }
  }

  lemma NameAt(buf: string)
    ensures At(buf, 0, "HTTP/") <==> 5 <= |buf| && forall k :: 0 <= k < 5 ==> buf[k] == "HTTP/"[k]
  {
    if 5 <= |buf| {
      assert forall k :: 0 <= k < 5 ==> buf[0..5][k] == buf[k];
    }
  }

  // -------------------------------------------------------------- the digits

  /** The states of a run of digits: before the first, and behind it. */
  predicate DigitStates(first: nat, later: nat) {
    (first == 12 && later == 13) || (first == 14 && later == 15) || (first == 16 && later == 17)
  }

  lemma DigitStep(m: Machine, buf: string, p: nat, first: nat, later: nat)
    requires DigitStates(first, later) && (m.cs == first || m.cs == later) && p < |buf| && IsDigit(buf[p])
    ensures Exec(m, buf, p) == Exec(m.(cs := later, mark := if m.cs == 16 then p else m.mark), buf, p + 1)
  {
    OneStep(m, buf, p);
    hide Exec;
  }

  lemma {:induction false} DigitsRun(m: Machine, buf: string, p: nat, first: nat, later: nat)
    requires DigitStates(first, later) && (m.cs == first || m.cs == later) && p <= |buf|
    ensures var e := DigitsEnd(buf, p);
      Exec(m, buf, p) == Exec(if e == p then m else m.(cs := later, mark := if m.cs == 16 then p else m.mark), buf, e)
    decreases |buf| - p
  {
    hide Exec, IsDigit;
    if p < |buf| && IsDigit(buf[p]) {
      DigitStep(m, buf, p, first, later);
      DigitsRun(m.(cs := later, mark := if m.cs == 16 then p else m.mark), buf, p + 1, first, later);
    }
  }

  /** The character behind a run of digits. */
  function Behind(first: nat): char {
    if first == 12 then '.' else ' '
  }

  /** A run of digits and the character behind it, or the automaton never finishes. */
  lemma DigitsThen(m: Machine, buf: string, p: nat, first: nat, later: nat)
    requires DigitStates(first, later) && m.cs == first && p <= |buf|
    ensures Digits(buf, p, Behind(first)) == None ==> Exec(m, buf, p).0.cs != FINAL
    ensures Digits(buf, p, Behind(first)).Some? ==>
      var e := Digits(buf, p, Behind(first)).value;
      Exec(m, buf, p) == Exec(m.(cs := later, mark := if first == 16 then p else m.mark), buf, e) && AllDigits(buf[p..e])
  {
    var e := DigitsEnd(buf, p);
    DigitsRun(m, buf, p, first, later);
    DigitsEndIs(buf, p);
    hide Exec, DigitsEnd, AllDigits;
    if e == p || e == |buf| || buf[e] != Behind(first) {
      Stuck(if e == p then m else m.(cs := later, mark := if m.cs == 16 then p else m.mark), buf, e);
    }
  }

  // -------------------------------------------------------------- the reason

  lemma {:induction false} ReasonChars(m: Machine, buf: string, p: nat)
    requires m.cs == 19 && p <= |buf|
    ensures Exec(m, buf, p) == Exec(m, buf, TextEnd(buf, p))
    decreases |buf| - p
  {
    if p < |buf| && buf[p] != CR && buf[p] != LF {
      OneStep(m, buf, p);
      hide Exec;
      ReasonChars(m, buf, p + 1);
    }
  }

  lemma ReasonEnds(m: Machine, buf: string, p: nat, e: nat)
    requires m.cs == 19 && m.mark == p <= e <= |buf| && (e < |buf| ==> buf[e] == CR || buf[e] == LF)
    ensures BreakLen(buf, e) == 0 ==> Exec(m, buf, e).0.cs != FINAL
    ensures BreakLen(buf, e) > 0 ==>
      Exec(m, buf, e) == Exec(m.(cs := 20, events := m.events + [Reason(buf[p..e])]), buf, e + BreakLen(buf, e))
  {
    if e == |buf| {
      Stuck(m, buf, e);
    } else {
      OneStep(m, buf, e);
      if buf[e] == CR {
        var m1 := m.(cs := 24, events := m.events + [Reason(buf[p..e])]);
        if e + 1 < |buf| && buf[e + 1] == LF {
          OneStep(m1, buf, e + 1);
        } else {
          Stuck(m1, buf, e + 1);
        }
      }
    }
    hide Exec;
  }

  lemma ReasonFirst(m: Machine, buf: string, p: nat)
    requires m.cs == 18 && p < |buf| && buf[p] != LF
    ensures Exec(m, buf, p) == Exec(m.(cs := 19, mark := p), buf, p + 1)
  {
    OneStep(m, buf, p);
    hide Exec;
  }

  lemma ReasonRun(m: Machine, buf: string, p: nat, version: string, code: string)
    requires m.cs == 18 && p <= |buf|
    ensures ReadReason(buf, p, version, code) == None ==> Exec(m, buf, p).0.cs != FINAL
    ensures ReadReason(buf, p, version, code).Some? ==>
      var status := ReadReason(buf, p, version, code).value;
      Exec(m, buf, p) == Exec(m.(cs := 20, mark := p, events := m.events + [Reason(status.reason)]), buf, status.next)
  {
    hide Exec, TextEnd, BreakLen;
    if p == |buf| || buf[p] == LF {
      Stuck(m, buf, p);
    } else {
      ReasonFirst(m, buf, p);
      var m1 := m.(cs := 19, mark := p);
      ReasonChars(m1, buf, p + 1);
      TextEndIs(buf, p + 1);
      ReasonEnds(m1, buf, p, TextEnd(buf, p + 1));
    }
  }

  // --------------------------------------------------------- the status line

  lemma SpaceStep(m: Machine, buf: string, p: nat)
    requires p < |buf| && ((m.cs == 13 && buf[p] == '.') || ((m.cs == 15 || m.cs == 17) && buf[p] == ' ')) && m.mark <= p
    requires m.cs == 17 ==> AllDigits(buf[m.mark..p])
    ensures Exec(m, buf, p) == Exec(
      if m.cs == 13 then m.(cs := 14)
      else if m.cs == 15 then m.(cs := 16, events := m.events + [Version(buf[m.mark..p])])
      else m.(cs := 18, status := ToInt(buf[m.mark..p]), events := m.events + [StatusCode(buf[m.mark..p])]), buf, p + 1)
  {
    OneStep(m, buf, p);
    hide Exec, ToInt, AllDigits;
  }

  /** The machine behind a status line. */
  function AfterStatus(status: Status): Machine {
    Init().(
      cs := 20, mark := status.at,
      status := if AllDigits(status.code) then ToInt(status.code) else 0,
      events := [Version(status.version), StatusCode(status.code), Reason(status.reason)])
  }

  /** From `m`, the automaton gets behind the status line as read, or never finishes. */
  predicate Reads(m: Machine, buf: string, p: nat, status: Option<Status>)
    requires p <= |buf| && (status.Some? ==> status.value.next <= |buf|)
  {
    if status == None then Exec(m, buf, p).0.cs != FINAL
    else Exec(m, buf, p) == Exec(AfterStatus(status.value), buf, status.value.next)
  }

  lemma StatusRun(buf: string)
    ensures Reads(Init(), buf, 0, ReadStatus(buf))
  {
    hide Exec, Digits, AllDigits, ReadMinor, At, AfterStatus;
    NameRun(buf, 5);
    NameAt(buf);
    var m := Init().(cs := 12);
    if At(buf, 0, "HTTP/") {
      DigitsThen(m, buf, 5, 12, 13);
      if Digits(buf, 5, '.').Some? {
        var a := Digits(buf, 5, '.').value;
        DotThere(buf, 5, '.');
        SpaceStep(m.(cs := 13), buf, a);
        MinorRun(m.(cs := 14), buf, a + 1);
      }
    }
  }

  lemma DotThere(buf: string, p: nat, c: char)
    requires Digits(buf, p, c).Some?
    ensures buf[Digits(buf, p, c).value] == c
  {
  }

  lemma MinorRun(m: Machine, buf: string, p: nat)
    requires p <= |buf| && m == Init().(cs := 14)
    ensures Reads(m, buf, p, ReadMinor(buf, p))
  {
    hide Exec, Digits, AllDigits, ReadCode, AfterStatus;
    DigitsThen(m, buf, p, 14, 15);
    if Digits(buf, p, ' ').Some? {
      var b := Digits(buf, p, ' ').value;
      DotThere(buf, p, ' ');
      MinorSpace(m, buf, b);
      CodeRun(m.(cs := 16, events := [Version(buf[0..b])]), buf, b + 1, buf[0..b]);
    }
  }

  lemma MinorSpace(m: Machine, buf: string, b: nat)
    requires b < |buf| && buf[b] == ' ' && m == Init().(cs := 14)
    ensures Exec(m.(cs := 15), buf, b) == Exec(m.(cs := 16, events := [Version(buf[0..b])]), buf, b + 1)
  {
    SpaceStep(m.(cs := 15), buf, b);
    assert m.events + [Version(buf[0..b])] == [Version(buf[0..b])];
    hide Exec;
  }

  lemma CodeRun(m: Machine, buf: string, p: nat, version: string)
    requires p <= |buf| && m == Init().(cs := 16, events := [Version(version)])
    ensures Reads(m, buf, p, ReadCode(buf, p, version))
  {
    hide Exec, Digits, AllDigits, ToInt, ReadReason, AfterStatus;
    DigitsThen(m, buf, p, 16, 17);
    if Digits(buf, p, ' ').Some? {
      var c := Digits(buf, p, ' ').value;
      DotThere(buf, p, ' ');
      SpaceStep(m.(cs := 17, mark := p), buf, c);
      CodeAndReason(m, buf, p, c, version);
    }
  }

  lemma CodeAndReason(m: Machine, buf: string, p: nat, c: nat, version: string)
    requires p <= c < |buf| && m == Init().(cs := 16, events := [Version(version)]) && AllDigits(buf[p..c])
    ensures var m1 := m.(cs := 18, mark := p, status := ToInt(buf[p..c]), events := m.events + [StatusCode(buf[p..c])]);
      Reads(m1, buf, c + 1, ReadReason(buf, c + 1, version, buf[p..c]))
  {
    var m1 := m.(cs := 18, mark := p, status := ToInt(buf[p..c]), events := m.events + [StatusCode(buf[p..c])]);
    ReasonRun(m1, buf, c + 1, version, buf[p..c]);
    ReasonKeeps(buf, c + 1, version, buf[p..c]);
    hide Exec, AllDigits, ToInt, ReadReason;
    if ReadReason(buf, c + 1, version, buf[p..c]).Some? {
      var reason := ReadReason(buf, c + 1, version, buf[p..c]).value.reason;
      assert m1.events + [Reason(reason)] == [Version(version), StatusCode(buf[p..c]), Reason(reason)];
    }
  }

  lemma ReasonKeeps(buf: string, p: nat, version: string, code: string)
    ensures ReadReason(buf, p, version, code).Some? ==>
      var status := ReadReason(buf, p, version, code).value;
      status.version == version && status.code == code && status.at == p
  {
  }

  /**
   The automaton finishes on a response exactly if the reader reads its status
   line and its header lines; it has reported version, code and reason, and
   then does what the header lines say.
   */
  lemma ResponseRun(buf: string)
    ensures Exec(Init(), buf, 0).0.cs == FINAL <==>
      ReadStatus(buf).Some? && ReadHead(buf, ReadStatus(buf).value.next).Some?
    ensures Exec(Init(), buf, 0).0.cs == FINAL ==>
      var status, head := ReadStatus(buf).value, ReadHead(buf, ReadStatus(buf).value.next).value;
      Exec(Init(), buf, 0).1 == head.end && HeadDone(AfterStatus(status), Exec(Init(), buf, 0).0, head)
  {
    StatusRun(buf);
    hide Exec, ReadStatus, ReadHead, HeadDone;
    if ReadStatus(buf).Some? {
      HeadRun(AfterStatus(ReadStatus(buf).value), buf, ReadStatus(buf).value.next);
    }
  }
}
