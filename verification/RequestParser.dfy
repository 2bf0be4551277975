/** The request parser object: the loop over a buffer with its closing assertions, and the callbacks. */
module RequestParser {

  import opened Wrappers
  import opened Callbacks
  import opened HttpText
  import opened HttpMessage
  import opened HttpMethods
  import opened RequestMessage
  import opened RequestAutomaton

  // --------------------------------------------------------------- callbacks

  const UNKNOWN_METHOD: int := 1000

  function Fresh(): Parsed<Request> {
    Parsed(Request(1, "/", "", "", 0x11, true, "", map[]), 0)
  }

  /**
   The comparison reads on in the buffer behind the text of the method; no
   name holds the space that follows, so the text alone decides.
   */
  function OnMethod(x: Parsed<Request>, text: string): Parsed<Request> {
    var m := FirstMethod(text, 0);
    if m == INVALID_METHOD then x.(error := UNKNOWN_METHOD) else x.(data := x.data.(verb := m))
  }

  function OnVersion(x: Parsed<Request>, text: string): Parsed<Request> {
    match VersionOf(text)
    case Some(version) => x.(data := x.data.(version := version))
    case None => x.(error := INVALID_VERSION)
  }

  function OnField(x: Parsed<Request>, name: string, value: string): Parsed<Request> {
    if name == "" then x.(error := INVALID_FIELD)
    else x.(data := x.data.(headers := SetHeader(x.data.headers, name, value)))
  }

  function OnEvent(x: Parsed<Request>, e: Event): Parsed<Request> {
    match e
    case Method(text) => OnMethod(x, text)
    case Path(text) => x.(data := x.data.(path := text))
    case Query(text) => x.(data := x.data.(query := text))
    case Fragment(text) => x.(data := x.data.(fragment := text))
    case Uri(_) => x
    case Version(text) => OnVersion(x, text)
    case Field(name, value) => OnField(x, name, value)
  }

  function OnEvents(x: Parsed<Request>, events: seq<Event>): Parsed<Request> {
    All(x, events, OnEvent)
  }

  /** What a callback takes without an error: a text that starts with a method's name, a version, a name. */
  predicate Accepted(e: Event) {
    match e
    case Method(text) => exists m :: 0 <= m < METHODS && StartsWith(text, MethodName(m))
    case Version(text) => text <= "HTTP/1.1" || text == "HTTP/1.0"
    case Field(name, _) => name != ""
    case _ => true
  }

  /** The error code that a callback leaves. */
  function CodeOf(e: Event): int {
    match e
    case Method(_) => 1000
    case Version(_) => 1001
    case _ => 1002
  }

  lemma OneAccepted(x: Parsed<Request>, e: Event)
    ensures OnEvent(x, e).error == if Accepted(e) then x.error else CodeOf(e)
  {
    match e
    case Method(text) => FirstMethodIs(text, 0);
    case Version(text) => VersionIs(text);
    case _ =>
    hide FirstMethod, MethodName, VersionOf, SetHeader, StartsWith;
  }

  /** The code of the last callback that was refused, 0 if there is none. */
  function LastRefusal(events: seq<Event>): int {
    if events == [] then 0
    else if !Accepted(events[|events| - 1]) then CodeOf(events[|events| - 1])
    else LastRefusal(events[..|events| - 1])
  }

  /** There is no error exactly if every callback accepts what it is given; else the last refusal left its code. */
  lemma {:induction false} ErrorFreeIff(events: seq<Event>)
    ensures OnEvents(Fresh(), events).error == LastRefusal(events)
    ensures LastRefusal(events) == 0 <==> forall i :: 0 <= i < |events| ==> Accepted(events[i])
  {
    if events != [] {
      var n := |events| - 1;
      var front := events[..n];
      ErrorFreeIff(front);
      AllPush(Fresh(), front, events[n], OnEvent);
      assert front + [events[n]] == events;
      OneAccepted(OnEvents(Fresh(), front), events[n]);
      assert forall i :: 0 <= i < n ==> events[i] == front[i];
      hide Accepted, OnEvent;
    }
  }

  /** Positions stay inside the buffer. */
  predicate Bounded(m: Machine, len: nat) {
    m.mark < len && m.fieldStart < len && m.fieldLen <= len && m.bodyStart <= len
  }

  /** One turn of the loop keeps the bounds and only adds callbacks. */
  lemma StepBounded(m: Machine, buf: string, p: nat)
    requires p < |buf| && Bounded(m, |buf|)
    ensures Bounded(Step(m, buf, p), |buf|) && m.events <= Step(m, buf, p).events
  {
    hide Next, Slice;
  }

  lemma StartBounded(buf: string)
    ensures OnEvents(Fresh(), Init().events) == Fresh() && !Stopped(Init().cs)
    ensures if buf == "" then Exec(Init(), buf, 0) == (Init(), 0) else Bounded(Init(), |buf|)
  {
  }

  /** The loop leaves in a final state, in an error, or in a state of the head. */
  predicate InRange(cs: nat) {
    cs <= FINAL || cs == OUTSIDE
  }

  lemma {:induction false} ExecInRange(m: Machine, buf: string, p: nat)
    requires p <= |buf| && InRange(m.cs)
    ensures InRange(Exec(m, buf, p).0.cs)
    decreases |buf| - p
  {
    if p < |buf| && !Stopped(m.cs) {
      hide Act;
      assert InRange(Step(m, buf, p).cs);
      ExecTurn(m, buf, p);
      hide Step, InRange;
      if Step(m, buf, p).cs != ERROR {
        ExecInRange(Step(m, buf, p), buf, p + 1);
      }
    }
  }

  class RequestLoop {
    var machine: Machine
    var nread: nat
    var parsed: Parsed<Request>

    constructor ()
      ensures machine == Init() && nread == 0 && parsed == Fresh()
    {
      machine, nread, parsed := Init(), 0, Fresh();
    }

    /** Makes the callbacks that one turn of the loop added. */
    method Deliver(before: seq<Event>, after: seq<Event>)
      requires before <= after && parsed == OnEvents(Fresh(), before)
      modifies `parsed
      ensures parsed == OnEvents(Fresh(), after)
    {
      var i := |before|;
      assert after[..i] == before;
      hide OnEvent;
      while i < |after|
        invariant |before| <= i <= |after|
        invariant parsed == OnEvents(Fresh(), after[..i])
      {
        AllPush(Fresh(), after[..i], after[i], OnEvent);
        assert after[..i + 1] == after[..i] + [after[i]];
        parsed := OnEvent(parsed, after[i]);
        i := i + 1;
      }
      assert after[..i] == after;
    }

    /** Runs the automaton over one buffer and makes its callbacks; the closing assertions hold. */
    method Execute(buf: string) returns (rt: nat)
      requires machine == Init() && nread == 0 && parsed == Fresh()
      modifies this
      ensures (machine, rt) == Exec(Init(), buf, 0) && rt <= |buf|
      ensures parsed == OnEvents(Fresh(), machine.events)
      ensures buf != "" ==> Bounded(machine, |buf|)
    {
      hide Step, OnEvent, OnEvents, Exec, Stopped, Init, Fresh;
      StartBounded(buf);
      if |buf| == 0 {
        return 0;
      }
      var p := 0;
      while p < |buf| && !Stopped(machine.cs)
        invariant p <= |buf| && nread == 0
        invariant Exec(machine, buf, p) == Exec(Init(), buf, 0)
        invariant Bounded(machine, |buf|)
        invariant parsed == OnEvents(Fresh(), machine.events)
        decreases |buf| - p, if Stopped(machine.cs) then 0 else 1
      {
        StepBounded(machine, buf, p);
        ExecTurn(machine, buf, p);
        var next := Step(machine, buf, p);
        Deliver(machine.events, next.events);
        machine := next;
        if machine.cs != ERROR {
          p := p + 1;
        }
      }
      ExecEnds(machine, buf, p);
      nread := nread + p;
      assert nread <= |buf| && machine.bodyStart <= |buf| && machine.mark < |buf|;
      assert machine.fieldLen <= |buf| && machine.fieldStart < |buf|;
      return nread;
    }

    /** `HttpRequestParser::execute`: what was parsed is cut off the front of the buffer. */
    method ExecuteAndShift(buf: string) returns (offset: nat, rest: string)
      requires machine == Init() && nread == 0 && parsed == Fresh()
      modifies this
      ensures (machine, offset) == Exec(Init(), buf, 0) && parsed == OnEvents(Fresh(), machine.events)
      ensures offset <= |buf| && rest == buf[offset..]
    {
      offset := Execute(buf);
      rest := buf[offset..];
    }

    /** `http_parser_finish`. */
    method Finish() returns (rt: int)
      ensures rt == if machine.cs == ERROR then -1 else if machine.cs >= FINAL && machine.cs != OUTSIDE then 1 else 0
    {
      if machine.cs == ERROR {
        return -1;
      } else if machine.cs >= FINAL && machine.cs != OUTSIDE {
        return 1;
      } else {
        return 0;
      }
    }
  }
}
