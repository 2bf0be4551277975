/** The response parser object: the loop over a buffer with its closing checks, and the callbacks. */
module ResponseParser {

  import opened Wrappers
  import opened Callbacks
  import opened HttpMessage
  import opened HttpText
  import opened ResponseAutomaton

  // --------------------------------------------------------------- callbacks

  function Fresh(): Parsed<Response> {
    Parsed(Response(0x11, 200, true, "", "", map[]), 0)
  }

  function OnVersion(x: Parsed<Response>, text: string): Parsed<Response> {
    match VersionOf(text)
    case Some(version) => x.(data := x.data.(version := version))
    case None => x.(error := INVALID_VERSION)
  }

  function OnField(x: Parsed<Response>, name: string, value: string): Parsed<Response> {
    if name == "" then x.(error := INVALID_FIELD)
    else x.(data := x.data.(headers := SetHeader(x.data.headers, name, value)))
  }

  function OnEvent(x: Parsed<Response>, e: Event): Parsed<Response> {
    match e
    case Version(text) => OnVersion(x, text)
    case StatusCode(text) => x.(data := x.data.(status := if AllDigits(text) then ToInt(text) else 0))
    case Reason(text) => x.(data := x.data.(reason := text))
    case Field(name, value) => OnField(x, name, value)
  }

  function OnEvents(x: Parsed<Response>, events: seq<Event>): Parsed<Response> {
    All(x, events, OnEvent)
  }

  /** What a callback takes without an error. */
  predicate Accepted(e: Event) {
    match e
    case Version(text) => text <= "HTTP/1.1" || text == "HTTP/1.0"
    case Field(name, _) => name != ""
    case _ => true
  }

  lemma OneAccepted(x: Parsed<Response>, e: Event)
    ensures OnEvent(x, e).error == if Accepted(e) then x.error else if e.Version? then 1001 else 1002
  {
    match e
    case Version(text) => VersionIs(text);
    case _ =>
    hide VersionOf, SetHeader, ToInt;
  }

  /** There is no error exactly if every callback accepts what it is given. */
  lemma {:induction false} ErrorFreeIff(events: seq<Event>)
    ensures OnEvents(Fresh(), events).error == 0 <==> forall i :: 0 <= i < |events| ==> Accepted(events[i])
  {
    if events != [] {
      var n := |events| - 1;
      var front := events[..n];
      ErrorFreeIff(front);
      AllPush(Fresh(), front, events[n], OnEvent);
      assert front + [events[n]] == events;
      OneAccepted(OnEvents(Fresh(), front), events[n]);
      assert forall i :: 0 <= i < n ==> events[i] == front[i];
      hide Accepted, OnEvent;
    }
  }

  /** One turn of the loop makes at most one callback. */
  lemma StepEvents(m: Machine, buf: string, p: nat)
    requires p < |buf|
    ensures var n := Step(m, buf, p);
      n.events == m.events || (|n.events| == |m.events| + 1 && n.events[..|m.events|] == m.events)
  {
  }

  // ---------------------------------------------------------------- the loop

  /** Positions stay inside the buffer. */
  predicate Bounded(m: Machine, len: nat) {
    m.mark < len && m.fieldStart < len && m.fieldLen <= len && m.bodyStart <= len
  }

  lemma StepBounded(m: Machine, buf: string, p: nat)
    requires p < |buf| && Bounded(m, |buf|)
    ensures Bounded(Step(m, buf, p), |buf|)
  {
  }

  lemma {:induction false} ExecBounded(m: Machine, buf: string, p: nat)
    requires p <= |buf| && Bounded(m, |buf|)
    ensures p <= Exec(m, buf, p).1 <= |buf| && Bounded(Exec(m, buf, p).0, |buf|)
    decreases |buf| - p
  {
    if p < |buf| && !Stopped(m.cs) {
      StepBounded(m, buf, p);
      hide Step, Stopped, Bounded;
      if Step(m, buf, p).cs != ERROR {
        ExecBounded(Step(m, buf, p), buf, p + 1);
      }
    }
  }

  lemma EmptyMachine(buf: string)
    ensures OnEvents(Fresh(), Init().events) == Fresh() && !Stopped(Init().cs)
    ensures buf != "" ==> Bounded(Init(), |buf|)
  {
  }

  lemma EventsTurn(before: seq<Event>, after: seq<Event>)
    requires after == before || (|after| == |before| + 1 && after[..|before|] == before)
    ensures OnEvents(Fresh(), after)
      == if |after| > |before| then OnEvent(OnEvents(Fresh(), before), after[|before|]) else OnEvents(Fresh(), before)
  {
    if |after| > |before| {
      AllPush(Fresh(), before, after[|before|], OnEvent);
      assert after == before + [after[|before|]];
    }
    hide OnEvent;
  }

  class ClientParser {
    var machine: Machine
    var nread: nat
    var parsed: Parsed<Response>

    constructor ()
      ensures machine == Init() && nread == 0 && parsed == Fresh()
    {
      machine, nread, parsed := Init(), 0, Fresh();
    }

    /**
     Runs the automaton over one buffer and makes its callbacks. The three
     closing checks can only fail on an empty buffer; the asserted bounds hold.
     */
    method Execute(buf: string) returns (rt: int)
      requires machine == Init() && nread == 0 && parsed == Fresh()
      modifies this
      ensures (machine, nread) == Exec(Init(), buf, 0)
      ensures parsed == OnEvents(Fresh(), machine.events)
      ensures nread <= |buf| && machine.bodyStart <= |buf|
      ensures rt == if buf == "" then -1 else nread
    {
      var p := 0;
      EmptyMachine(buf);
      hide Step, OnEvent, OnEvents, Exec, Stopped;
      while p < |buf| && !Stopped(machine.cs)
        invariant p <= |buf|
        invariant Exec(machine, buf, p) == Exec(Init(), buf, 0)
        invariant nread == 0 && (buf == "" ==> machine == Init())
        invariant buf != "" ==> Bounded(machine, |buf|)
        invariant parsed == OnEvents(Fresh(), machine.events)
        decreases |buf| - p, if Stopped(machine.cs) then 0 else 1
      {
        StepBounded(machine, buf, p);
        StepEvents(machine, buf, p);
        ExecTurn(machine, buf, p);
        EventsTurn(machine.events, Step(machine, buf, p).events);
        var next := Step(machine, buf, p);
        if |next.events| > |machine.events| {
          parsed := OnEvent(parsed, next.events[|machine.events|]);
        }
        machine := next;
        if machine.cs != ERROR {
          p := p + 1;
        }
      }
      ExecEnds(machine, buf, p);
      nread := nread + p;
      if !(machine.mark < |buf|) || !(machine.fieldLen <= |buf|) || !(machine.fieldStart < |buf|) {
        return -1;
      }
      return nread;
    }

    /** `HttpRespondParser::execute`: what was parsed is cut off the front of the buffer. */
    method ExecuteAndShift(buf: string) returns (offset: nat, rest: string)
      requires machine == Init() && nread == 0 && parsed == Fresh() && buf != ""
      modifies this
      ensures (machine, offset) == Exec(Init(), buf, 0) && parsed == OnEvents(Fresh(), machine.events)
      ensures offset <= |buf| && rest == buf[offset..]
    {
      var rt := Execute(buf);
      offset := rt;
      rest := buf[offset..];
    }

    /** `httpclient_parser_finish`. */
    method Finish() returns (rt: int)
      ensures rt == if machine.cs == ERROR then -1 else if machine.cs == FINAL then 1 else 0
    {
      if machine.cs == ERROR {
        return -1;
      } else if machine.cs == FINAL {
        return 1;
      } else {
        return 0;
      }
    }
  }
}
