/**
 The fiber scheduler as a system of steps. Workers share one task list, the
 armed timers and the event table. Every region under a lock and every write
 of a fiber's state is one step; a run is any interleaving of steps.
 */
module Scheduling {

  import opened Wrappers
  import opened Counting
  import ET = EventTable

  type FiberId = nat

  datatype State = INIT | HOLD | EXEC | TERM | READY | EXECEPT

  /** A user function, or the bound call `schedule(fiber)` that a sleeping fiber leaves in a timer. */
  datatype Callback = Func(id: nat) | Wake(fiber: FiberId)

  datatype Task = FiberTask(fiber: FiberId) | CbTask(cb: Callback)

  datatype Armed = Armed(cb: Callback, recurring: bool)

  /**
   Where a worker stands in its loop. A fiber is `Leaving` from the moment it
   decided to suspend or ended until the worker has counted it out, and `Left`
   until the worker has looked at its state.
   */
  datatype Pc =
    | Top
    | Got(task: Task)
    | Running(fiber: FiberId, duty: Option<FiberId>, event: bool)
    | Leaving(fiber: FiberId, event: bool)
    | Left(fiber: FiberId, event: bool)
    | Idle
    | Waiting
    | Polled(expired: seq<Callback>)
    | Serving
    | Exited

  datatype Worker = Worker(pc: Pc, idleDone: bool)

  datatype System = System(
    fibers: seq<State>,
    tasks: seq<Task>,
    active: int,
    workers: seq<Worker>,
    timers: seq<Armed>,
    table: ET.Table,
    stopped: bool,
    scheduled: seq<Callback>,   // all callbacks put on the task list so far, in order
    picked: seq<Callback>,      // all callbacks taken off it so far, in order
    late: bool,                 // something was scheduled from outside after stop
    lost: set<FiberId>)         // fibers run for a callback that have set themselves to READY and left

  datatype Action =
    | Pick(w: nat)
    | Dispatch(w: nat)
    | Serve(w: nat)
    | Schedule(w: nat, id: nat)
    | Spawn(w: nat)
    | AddTimer(w: nat, id: nat, recurring: bool)
    | CancelTimer(w: nat, i: nat)
    | AddEvent(w: nat, fd: nat, ev: ET.Event, id: nat, ok: bool)
    | CancelEvent(w: nat, fd: nat, ev: ET.Event, ok: bool)
    | SuspendIo(w: nat, fd: nat, ev: ET.Event, ok: bool)
    | SuspendSleep(w: nat)
    | SuspendSelf(w: nat)
    | YieldReady(w: nat)
    | Finish(w: nat)
    | Leave(w: nat)
    | Settle(w: nat)
    | Check(w: nat)
    | Expire(w: nat, due: seq<bool>)
    | ScheduleExpired(w: nat)
    | EndIdle(w: nat)
    | Outside(id: nat)
    | Stop

  function Initial(threads: nat): System {
    System([], [], 0, seq(threads, _ => Worker(Top, false)), [], ET.Empty(), false, [], [], false, {})
  }

  // -------------------------------------------------------------- the steps

  function SetPc(s: System, w: nat, pc: Pc): System
    requires w < |s.workers|
  {
    s.(workers := s.workers[w := s.workers[w].(pc := pc)])
  }

  /** `schedule` of one task. */
  function Push(s: System, task: Task): System {
    s.(tasks := s.tasks + [task],
       scheduled := if task.CbTask? then s.scheduled + [task.cb] else s.scheduled)
  }

  function PushAll(s: System, cbs: seq<Callback>): System {
    s.(tasks := s.tasks + AsTasks(cbs), scheduled := s.scheduled + cbs)
  }

  function AsTasks(cbs: seq<Callback>): (tasks: seq<Task>)
    ensures |tasks| == |cbs| && forall i :: 0 <= i < |cbs| ==> tasks[i] == CbTask(cbs[i])
  {
    if cbs == [] then [] else [CbTask(cbs[0])] + AsTasks(cbs[1..])
  }

  predicate Skipped(task: Task, fibers: seq<State>) {
    task.FiberTask? && task.fiber < |fibers| && fibers[task.fiber] == EXEC
  }

  /** The first task that is not a fiber still in `EXEC`; the length of the list if there is none. */
  function FirstRunnable(tasks: seq<Task>, fibers: seq<State>): (k: nat)
    ensures k <= |tasks|
    ensures forall i :: 0 <= i < k ==> Skipped(tasks[i], fibers)
    ensures k < |tasks| ==> !Skipped(tasks[k], fibers)
  {
    if tasks == [] || !Skipped(tasks[0], fibers) then 0 else 1 + FirstRunnable(tasks[1..], fibers)
  }

  function PickStep(s: System, w: nat): System
    requires w < |s.workers|
  {
    var k := FirstRunnable(s.tasks, s.fibers);
    if k < |s.tasks| then
      var task := s.tasks[k];
      SetPc(s, w, Got(task)).(
        tasks := Without(s.tasks, k),
        active := s.active + 1,
        picked := if task.CbTask? then s.picked + [task.cb] else s.picked)
    else if s.workers[w].idleDone then SetPc(s, w, Exited)
    else SetPc(s, w, Idle)
  }

  predicate Ended(s: System, f: FiberId) {
    f < |s.fibers| && (s.fibers[f] == TERM || s.fibers[f] == EXECEPT)
  }

  function DispatchStep(s: System, w: nat): System
    requires w < |s.workers| && s.workers[w].pc.Got?
  {
    match s.workers[w].pc.task
    case FiberTask(f) =>
      if Ended(s, f) then SetPc(s, w, Top).(active := s.active - 1)
      else if f < |s.fibers| then SetPc(s, w, Running(f, None, false)).(fibers := s.fibers[f := EXEC])
      else s
    case CbTask(cb) =>
      var duty := if cb.Wake? then Some(cb.fiber) else None;
      SetPc(s, w, Running(|s.fibers|, duty, true)).(fibers := s.fibers + [EXEC])
  }

  function AsTask(reg: ET.Registration): Task {
    match reg
    case Resume(f) => FiberTask(f)
    case Call(id) => CbTask(Func(id))
  }

  function CancelEventStep(s: System, fd: nat, ev: ET.Event, ok: bool): System
    requires ET.Sized(s.table)
  {
    var (table, out) := ET.CancelEvent(s.table, fd, ev, ok);
    if out.Some? then Push(s, AsTask(out.value.reg)).(table := table) else s
  }

  /** What the worker does with the state in which a fiber came back. */
  function SettleStep(s: System, w: nat): System
    requires w < |s.workers| && s.workers[w].pc.Left? && s.workers[w].pc.fiber < |s.fibers|
  {
    var Left(f, event) := s.workers[w].pc;
    if s.fibers[f] == READY && !event then SetPc(Push(s, FiberTask(f)), w, Top)
    else if Ended(s, f) then SetPc(s, w, Top)
    else SetPc(s, w, Top).(fibers := s.fibers[f := HOLD])
  }

  /** `IOManager::stopping`: nothing armed, registered, queued or running. */
  predicate Quiet(s: System) {
    s.stopped && s.tasks == [] && s.active == 0 && s.timers == [] && s.table.pending == 0
  }

  /** The armed timers that stay or come back, and the callbacks of those due. */
  function Kept(timers: seq<Armed>, due: seq<bool>): seq<Armed>
    requires |timers| == |due|
  {
    if timers == [] then []
    else (if due[0] && !timers[0].recurring then [] else [timers[0]]) + Kept(timers[1..], due[1..])
  }

  function Due(timers: seq<Armed>, due: seq<bool>): seq<Callback>
    requires |timers| == |due|
  {
    if timers == [] then []
    else (if due[0] then [timers[0].cb] else []) + Due(timers[1..], due[1..])
  }

  /** A fiber with nothing else to do first runs on this worker. */
  predicate Busy(s: System, w: nat) {
    w < |s.workers| && s.workers[w].pc.Running? && s.workers[w].pc.duty == None
  }

  predicate Enabled(s: System, a: Action) {
    match a
    case Outside(_) => true
    case Stop => true
    case Pick(w) => w < |s.workers| && s.workers[w].pc == Top
    case Dispatch(w) => w < |s.workers| && s.workers[w].pc.Got?
    case Serve(w) => w < |s.workers| && s.workers[w].pc.Running? && s.workers[w].pc.duty.Some?
    case AddEvent(w, fd, ev, _, _) => Busy(s, w) && ET.Sized(s.table) && ET.Free(s.table, fd, ev)
    case SuspendIo(w, fd, ev, _) => Busy(s, w) && ET.Sized(s.table) && ET.Free(s.table, fd, ev)
    case CancelEvent(w, _, _, _) =>
      ET.Sized(s.table) && (Busy(s, w) || (w < |s.workers| && s.workers[w].pc == Serving))
    case CancelTimer(w, i) => Busy(s, w) && (i < |s.timers| ==> s.timers[i].cb.Func?)
    case Leave(w) => w < |s.workers| && s.workers[w].pc.Leaving?
    case Settle(w) => w < |s.workers| && s.workers[w].pc.Left? && s.workers[w].pc.fiber < |s.fibers|
    case Check(w) => w < |s.workers| && s.workers[w].pc == Idle
    case Expire(w, due) => w < |s.workers| && s.workers[w].pc == Waiting && |due| == |s.timers|
    case ScheduleExpired(w) => w < |s.workers| && s.workers[w].pc.Polled?
    case EndIdle(w) => w < |s.workers| && s.workers[w].pc == Serving
    case YieldReady(w) => Busy(s, w) && s.workers[w].pc.fiber < |s.fibers|
    case Finish(w) => Busy(s, w) && s.workers[w].pc.fiber < |s.fibers|
    case _ => Busy(s, a.w)
  }

  function Apply(s: System, a: Action): System
    requires Enabled(s, a)
  {
    match a
    case Pick(w) => PickStep(s, w)
    case Dispatch(w) => DispatchStep(s, w)
    case Serve(w) =>
      var Running(f, duty, event) := s.workers[w].pc;
      SetPc(Push(s, FiberTask(duty.value)), w, Running(f, None, event))
    case Schedule(w, id) => Push(s, CbTask(Func(id)))
    case Spawn(w) => Push(s, FiberTask(|s.fibers|)).(fibers := s.fibers + [INIT])
    case AddTimer(w, id, recurring) => s.(timers := s.timers + [Armed(Func(id), recurring)])
    case CancelTimer(w, i) => if i < |s.timers| then s.(timers := Without(s.timers, i)) else s
    case AddEvent(w, fd, ev, id, ok) => s.(table := ET.AddEvent(s.table, fd, ev, ET.Call(id), ok))
    case CancelEvent(w, fd, ev, ok) => CancelEventStep(s, fd, ev, ok)
    case SuspendIo(w, fd, ev, ok) =>
      var Running(f, _, event) := s.workers[w].pc;
      var t := s.(table := ET.AddEvent(s.table, fd, ev, ET.Resume(f), ok));
      if ok then SetPc(t, w, Leaving(f, event)) else t
    case SuspendSleep(w) =>
      var Running(f, _, event) := s.workers[w].pc;
      SetPc(s.(timers := s.timers + [Armed(Wake(f), false)]), w, Leaving(f, event))
    case SuspendSelf(w) =>
      var Running(f, _, event) := s.workers[w].pc;
      SetPc(Push(s, FiberTask(f)), w, Leaving(f, event))
    case YieldReady(w) =>
      var Running(f, _, event) := s.workers[w].pc;
      SetPc(s, w, Leaving(f, event)).(
        fibers := s.fibers[f := READY],
        lost := if event then s.lost + {f} else s.lost)
    case Finish(w) =>
      var Running(f, _, event) := s.workers[w].pc;
      SetPc(s, w, Leaving(f, event)).(fibers := s.fibers[f := TERM])
    case Leave(w) =>
      var Leaving(f, event) := s.workers[w].pc;
      SetPc(s, w, Left(f, event)).(active := s.active - 1)
    case Settle(w) => SettleStep(s, w)
    case Check(w) =>
      if Quiet(s) then s.(workers := s.workers[w := Worker(Top, true)]) else SetPc(s, w, Waiting)
    case Expire(w, due) => SetPc(s, w, Polled(Due(s.timers, due))).(timers := Kept(s.timers, due))
    case ScheduleExpired(w) => SetPc(PushAll(s, s.workers[w].pc.expired), w, Serving)
    case EndIdle(w) => SetPc(s, w, Top)
    case Outside(id) => Push(s, CbTask(Func(id))).(late := s.late || s.stopped)
    case Stop => s.(stopped := true)
  }

  predicate LegalRun(s: System, acts: seq<Action>)
    decreases |acts|
  {
    acts != [] ==> Enabled(s, acts[0]) && LegalRun(Apply(s, acts[0]), acts[1..])
  }

  function Run(s: System, acts: seq<Action>): System
    requires LegalRun(s, acts)
    decreases |acts|
  {
    if acts == [] then s else Run(Apply(s, acts[0]), acts[1..])
  }

  predicate Reaches(s: System, acts: seq<Action>, t: System) {
    LegalRun(s, acts) && Run(s, acts) == t
  }

  lemma {:induction false} ThenRun(s: System, acts: seq<Action>, t: System, more: seq<Action>, u: System)
    requires Reaches(s, acts, t) && Reaches(t, more, u)
    ensures Reaches(s, acts + more, u)
    decreases |acts|
  {
    if acts == [] {
      assert acts + more == more;
    } else {
      assert (acts + more)[1..] == acts[1..] + more;
      hide Enabled, Apply;
      ThenRun(Apply(s, acts[0]), acts[1..], t, more, u);
    }
  }

  lemma OneStep(s: System, a: Action)
    requires Enabled(s, a)
    ensures Reaches(s, [a], Apply(s, a))
  {
    assert [a][1..] == [];
  }

  predicate StepTo(s: System, a: Action, t: System) {
    Enabled(s, a) && Apply(s, a) == t
  }

  /** States one step apart make a run. */
  lemma {:induction false} Chain(states: seq<System>, acts: seq<Action>)
    requires |states| == |acts| + 1
    requires forall i :: 0 <= i < |acts| ==> StepTo(states[i], acts[i], states[i + 1])
    ensures Reaches(states[0], acts, states[|acts|])
    decreases |acts|
  {
    if acts != [] {
      assert StepTo(states[0], acts[0], states[1]);
      OneStep(states[0], acts[0]);
      forall i | 0 <= i < |acts[1..]|
        ensures StepTo(states[1..][i], acts[1..][i], states[1..][i + 1])
      {
        assert StepTo(states[i + 1], acts[i + 1], states[i + 2]);
      }
      hide StepTo, Reaches, Enabled, Apply;
      Chain(states[1..], acts[1..]);
      ThenRun(states[0], [acts[0]], states[1], acts[1..], states[|acts|]);
      assert [acts[0]] + acts[1..] == acts;
    } else {
      assert states[0] == states[|acts|];
    }
  }

  // -------------------------------------------------------------- wake tokens

  function CbTokens(cb: Callback, f: FiberId): nat {
    if cb == Wake(f) then 1 else 0
  }

  function TaskTokens(task: Task, f: FiberId): nat {
    match task
    case FiberTask(g) => if g == f then 1 else 0
    case CbTask(cb) => CbTokens(cb, f)
  }

  function TimerTokens(t: Armed, f: FiberId): nat {
    CbTokens(t.cb, f)
  }

  function SlotTokens(slot: Option<ET.Entry>, f: FiberId): nat {
    if slot.Some? then TaskTokens(AsTask(slot.value.reg), f) else 0
  }

  ghost function PcTokens(x: Worker, f: FiberId): nat {
    match x.pc
    case Got(task) => TaskTokens(task, f)
    case Running(_, duty, _) => if duty == Some(f) then 1 else 0
    case Polled(cbs) => Total(cbs, CbTokens, f)
    case _ => 0
  }

  function PcRuns(x: Worker, f: FiberId): nat {
    if x.pc.Running? && x.pc.fiber == f then 1 else 0
  }

  function PcLeaves(x: Worker, f: FiberId): nat {
    if (x.pc.Leaving? || x.pc.Left?) && x.pc.fiber == f then 1 else 0
  }

  function PcActive(x: Worker, f: nat): nat {
    if x.pc.Got? || x.pc.Running? || x.pc.Leaving? then 1 else 0
  }

  /** How many workers run a fiber, and how many are suspending it or seeing it end. */
  ghost function Runs(s: System, f: FiberId): nat {
    Total(s.workers, PcRuns, f)
  }

  ghost function Leaves(s: System, f: FiberId): nat {
    Total(s.workers, PcLeaves, f)
  }

  /** Wake tokens of a fiber on the task list, in an armed timer or in the event table. */
  ghost function Loose(s: System, f: FiberId): nat {
    Total(s.tasks, TaskTokens, f) + Total(s.timers, TimerTokens, f) + Total(s.table.slots, SlotTokens, f)
  }

  /** Wake tokens of a fiber in the hands of a worker. */
  ghost function Held(s: System, f: FiberId): nat {
    Total(s.workers, PcTokens, f)
  }

  /** How many things will put the fiber on the task list, or have done so. */
  ghost function Tokens(s: System, f: FiberId): nat {
    Loose(s, f) + Held(s, f)
  }

  /** The state of a fiber, if it exists. */
  function StateOf(s: System, f: FiberId): Option<State> {
    if f < |s.fibers| then Some(s.fibers[f]) else None
  }

  /**
   The discipline between a fiber's state, the workers that hold it and its
   wake tokens: a fiber at rest has one token, unless it is lost; one that runs
   has none; one that is being suspended has one, or gets it from its worker if
   it set itself to `READY`; one that ended has none.
   */
  predicate Disciplined(state: Option<State>, runs: nat, leaves: nat, tokens: nat, lost: bool) {
    match state
    case None => runs == 0 && leaves == 0 && tokens == 0 && !lost
    case Some(INIT) => runs == 0 && leaves == 0 && tokens == 1 && !lost
    case Some(HOLD) => runs == 0 && leaves == 0 && tokens == if lost then 0 else 1
    case Some(EXEC) => runs + leaves == 1 && tokens == leaves && !lost
    case Some(TERM) => runs == 0 && leaves <= 1 && tokens == 0 && !lost
    case Some(READY) => runs == 0 && leaves + tokens == 1 && (lost ==> leaves == 1)
    case Some(EXECEPT) => false
  }

  ghost predicate FiberOk(s: System, f: FiberId) {
    Disciplined(StateOf(s, f), Runs(s, f), Leaves(s, f), Tokens(s, f), f in s.lost)
  }

  ghost predicate CountsOk(s: System) {
    && s.active == Total(s.workers, PcActive, 0)
    && ET.Sized(s.table) && s.table.pending == Total(s.table.slots, ET.Occupied, 0)
    && forall i :: 0 <= i < |s.timers| && s.timers[i].recurring ==> s.timers[i].cb.Func?
  }

  /** A fiber taken off the list is at rest until its worker switches to it. */
  ghost predicate GotOk(s: System) {
    forall w :: 0 <= w < |s.workers| && s.workers[w].pc.Got? ==> !Skipped(s.workers[w].pc.task, s.fibers)
  }

  /** A fiber that leaves in `READY` is lost exactly if its worker ran it for a callback. */
  predicate ReadyOk(s: System, x: Worker) {
    (x.pc.Leaving? || x.pc.Left?) && x.pc.fiber < |s.fibers| && s.fibers[x.pc.fiber] == READY ==>
      (x.pc.event <==> x.pc.fiber in s.lost)
  }

  ghost predicate Inv(s: System) {
    CountsOk(s) && GotOk(s) && (forall w :: 0 <= w < |s.workers| ==> ReadyOk(s, s.workers[w])) && forall f: FiberId :: FiberOk(s, f)
  }
}
