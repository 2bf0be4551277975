/** What the token discipline gives over whole runs of the scheduler. */
module SchedulerTheorems {

  import opened Wrappers
  import opened Counting
  import opened Scheduling
  import opened Discipline
  import ET = EventTable

  // ---------------------------------------------------------------- exclusion

  /** The worker runs the fiber, or has not yet finished suspending it. */
  predicate Holds(x: Worker, f: FiberId) {
    (x.pc.Running? || x.pc.Leaving? || x.pc.Left?) && x.pc.fiber == f
  }

  lemma HoldsOnce(s: System, v: nat, w: nat, f: FiberId)
    requires FiberOk(s, f) && v < w < |s.workers|
    ensures !(Holds(s.workers[v], f) && Holds(s.workers[w], f))
  {
    TotalTwo(s.workers, v, w, PcRuns, f);
    TotalTwo(s.workers, v, w, PcLeaves, f);
    TotalSplit(s.workers, v, PcRuns, f);
    TotalSplit(s.workers, w, PcRuns, f);
    TotalSplit(s.workers, v, PcLeaves, f);
    TotalSplit(s.workers, w, PcLeaves, f);
  }

  /** In every interleaving, no fiber is on two workers. */
  lemma Exclusion(threads: nat, acts: seq<Action>, v: nat, w: nat, f: FiberId)
    requires LegalRun(Initial(threads), acts)
    requires v != w && v < |Run(Initial(threads), acts).workers| && w < |Run(Initial(threads), acts).workers|
    ensures !(Holds(Run(Initial(threads), acts).workers[v], f) && Holds(Run(Initial(threads), acts).workers[w], f))
  {
    var s := Run(Initial(threads), acts);
    InitialOk(threads);
    RunKeeps(Initial(threads), acts);
    assert FiberOk(s, f);
    if v < w {
      HoldsOnce(s, v, w, f);
    } else {
      HoldsOnce(s, w, v, f);
    }
  }

  // --------------------------------------------------------- no lost wake-up

  /** The fiber is to be run again some day. */
  predicate Waits(s: System, f: FiberId) {
    f < |s.fibers| && (s.fibers[f] == INIT || s.fibers[f] == HOLD || s.fibers[f] == READY)
  }

  /** The worker took the fiber off the list as such, and will put it back. */
  predicate Owes(s: System, x: Worker) {
    && (x.pc.Leaving? || x.pc.Left?) && !x.pc.event
    && x.pc.fiber < |s.fibers| && s.fibers[x.pc.fiber] == READY
  }

  predicate Owed(s: System, f: FiberId) {
    exists w :: 0 <= w < |s.workers| && Owes(s, s.workers[w]) && s.workers[w].pc.fiber == f
  }

  /** A fiber that runs for a callback sets itself to `READY` and leaves. */
  predicate Drops(s: System, a: Action, f: FiberId) {
    a.YieldReady? && Enabled(s, a) && s.workers[a.w].pc.event && s.workers[a.w].pc.fiber == f
  }

  predicate Dropped(s: System, acts: seq<Action>, f: FiberId)
    requires LegalRun(s, acts)
    decreases |acts|
  {
    acts != [] && (Drops(s, acts[0], f) || Dropped(Apply(s, acts[0]), acts[1..], f))
  }

  lemma {:induction false} LostRun(s: System, acts: seq<Action>, f: FiberId)
    requires LegalRun(s, acts)
    ensures f in Run(s, acts).lost <==> f in s.lost || Dropped(s, acts, f)
    decreases |acts|
  {
    if acts != [] {
      assert f in Apply(s, acts[0]).lost <==> f in s.lost || Drops(s, acts[0], f);
      hide Drops, Apply;
      LostRun(Apply(s, acts[0]), acts[1..], f);
    }
  }

  /** A worker that sees a fiber off in `READY` owes it to the list exactly if the fiber is not lost. */
  lemma OwedIff(s: System, f: FiberId)
    requires Inv(s)
    ensures Owed(s, f) <==> f < |s.fibers| && s.fibers[f] == READY && f !in s.lost && Leaves(s, f) == 1
  {
    assert FiberOk(s, f);
    TotalZero(s.workers, PcLeaves, f);
    hide Total;
    if f < |s.fibers| && s.fibers[f] == READY && Leaves(s, f) == 1 {
      var w :| 0 <= w < |s.workers| && PcLeaves(s.workers[w], f) != 0;
      assert ReadyOk(s, s.workers[w]);
    }
    if Owed(s, f) {
      var w :| 0 <= w < |s.workers| && Owes(s, s.workers[w]) && s.workers[w].pc.fiber == f;
      assert ReadyOk(s, s.workers[w]) && PcLeaves(s.workers[w], f) == 1;
      Moved(s, s, w, f);
    }
  }

  /** How many wake-ups are on their way to a fiber. */
  ghost function WakeUps(s: System, f: FiberId): nat {
    Tokens(s, f) + if Owed(s, f) then 1 else 0
  }

  /**
   In every interleaving, a fiber that waits has exactly one wake-up on its way
   if it never left in `READY` while it ran for a callback. If it did, it waits
   for ever and nothing will wake it. A fiber that runs or has ended has none.
   */
  lemma ExactlyOneToken(threads: nat, acts: seq<Action>, f: FiberId)
    requires LegalRun(Initial(threads), acts)
    ensures var s := Run(Initial(threads), acts);
      && (Waits(s, f) ==> (WakeUps(s, f) == 1 <==> !Dropped(Initial(threads), acts, f)))
      && (Dropped(Initial(threads), acts, f) ==> Waits(s, f) && WakeUps(s, f) == 0)
      && (f < |s.fibers| && s.fibers[f] == EXEC ==> WakeUps(s, f) == Leaves(s, f))
      && (f < |s.fibers| && s.fibers[f] == TERM ==> WakeUps(s, f) == 0)
  {
    var s := Run(Initial(threads), acts);
    InitialOk(threads);
    RunKeeps(Initial(threads), acts);
    LostRun(Initial(threads), acts, f);
    assert FiberOk(s, f);
    hide Run, LegalRun, Dropped, Total;
    OwedIff(s, f);
  }

  /** No wake-up is missing at the end of a run if and only if none was dropped in it. */
  lemma AllWokenIff(threads: nat, acts: seq<Action>)
    requires LegalRun(Initial(threads), acts)
    ensures var s := Run(Initial(threads), acts);
      (forall f :: Waits(s, f) ==> WakeUps(s, f) == 1) <==> (forall f :: !Dropped(Initial(threads), acts, f))
  {
    var s := Run(Initial(threads), acts);
    hide Run, LegalRun, Dropped, Waits, WakeUps;
    if f: FiberId :| Dropped(Initial(threads), acts, f) {
      ExactlyOneToken(threads, acts, f);
    } else {
      forall f | Waits(s, f)
        ensures WakeUps(s, f) == 1
      {
        ExactlyOneToken(threads, acts, f);
      }
    }
  }

  /** One fiber and one worker. */
  function Alone(tasks: seq<Task>, active: int, pc: Pc, fibers: seq<State>, lost: set<FiberId>): System {
    Initial(1).(
      tasks := tasks, active := active, workers := [Worker(pc, false)], fibers := fibers, lost := lost,
      scheduled := [Func(0)], picked := if tasks == [] then [Func(0)] else [])
  }

  lemma AloneSteps()
    ensures var s1 := Alone([CbTask(Func(0))], 0, Top, [], {});
      var s2 := Alone([], 1, Got(CbTask(Func(0))), [], {});
      var s3 := Alone([], 1, Running(0, None, true), [EXEC], {});
      StepTo(Initial(1), Outside(0), s1) && StepTo(s1, Pick(0), s2) && StepTo(s2, Dispatch(0), s3)
    ensures var s3 := Alone([], 1, Running(0, None, true), [EXEC], {});
      var s4 := Alone([], 1, Leaving(0, true), [READY], {0});
      var s5 := Alone([], 0, Left(0, true), [READY], {0});
      StepTo(s3, YieldReady(0), s4) && StepTo(s4, Leave(0), s5) && StepTo(s5, Settle(0), Alone([], 0, Top, [HOLD], {0}))
  {
  }

  function ReadyScript(): seq<Action> {
    [Outside(0), Pick(0), Dispatch(0), YieldReady(0), Leave(0), Settle(0)]
  }

  lemma AloneRun()
    ensures Reaches(Initial(1), ReadyScript(), Alone([], 0, Top, [HOLD], {0}))
  {
    var acts := ReadyScript();
    assert acts == [Outside(0), Pick(0), Dispatch(0), YieldReady(0), Leave(0), Settle(0)];
    hide *;
    var s1 := Alone([CbTask(Func(0))], 0, Top, [], {});
    var s2 := Alone([], 1, Got(CbTask(Func(0))), [], {});
    var s3 := Alone([], 1, Running(0, None, true), [EXEC], {});
    var s4 := Alone([], 1, Leaving(0, true), [READY], {0});
    var s5 := Alone([], 0, Left(0, true), [READY], {0});
    AloneSteps();
    Chain([Initial(1), s1, s2, s3, s4, s5, Alone([], 0, Top, [HOLD], {0})], acts);
  }

  /** A callback that sets its fiber to `READY` and leaves ends in `HOLD`, and nothing will wake it. */
  lemma ReadyIsLost()
    ensures LegalRun(Initial(1), ReadyScript()) && Dropped(Initial(1), ReadyScript(), 0)
    ensures Run(Initial(1), ReadyScript()).fibers == [HOLD] && WakeUps(Run(Initial(1), ReadyScript()), 0) == 0
  {
    AloneRun();
    hide LegalRun, Dropped, WakeUps, ReadyScript;
    LostRun(Initial(1), ReadyScript(), 0);
    ExactlyOneToken(1, ReadyScript(), 0);
  }

  predicate Queued(s: System, f: FiberId) {
    FiberTask(f) in s.tasks
  }

  /** The step takes the fiber's task off the list while the fiber is in `HOLD`. */
  predicate TakenAtRest(s: System, a: Action, f: FiberId)
    requires Enabled(s, a)
  {
    && a.Pick? && Apply(s, a).workers[a.w].pc == Got(FiberTask(f))
    && f < |s.fibers| && s.fibers[f] == HOLD
  }

  /** Somewhere in the run a worker takes the fiber's task while the fiber is in `HOLD`. */
  predicate Woken(s: System, acts: seq<Action>, f: FiberId)
    requires LegalRun(s, acts)
    decreases |acts|
  {
    acts != [] && (TakenAtRest(s, acts[0], f) || Woken(Apply(s, acts[0]), acts[1..], f))
  }

  /** Queued while the suspension is not finished, or just after. */
  predicate Pending(s: System, f: FiberId) {
    Queued(s, f) && f < |s.fibers| && (s.fibers[f] == EXEC || s.fibers[f] == HOLD)
  }

  lemma QueuedToken(s: System, f: FiberId)
    requires Queued(s, f)
    ensures Total(s.tasks, TaskTokens, f) >= 1
  {
    var i :| 0 <= i < |s.tasks| && s.tasks[i] == FiberTask(f);
    TotalSplit(s.tasks, i, TaskTokens, f);
  }

  lemma PickKeepsOthers(s: System, w: nat, f: FiberId)
    requires w < |s.workers| && Queued(s, f)
    ensures Queued(PickStep(s, w), f) || PickStep(s, w).workers[w].pc == Got(FiberTask(f))
  {
    var k := FirstRunnable(s.tasks, s.fibers);
    var i :| 0 <= i < |s.tasks| && s.tasks[i] == FiberTask(f);
    if k < |s.tasks| && i != k {
      assert Without(s.tasks, k)[if i < k then i else i - 1] == FiberTask(f);
    }
  }

  /** While its token is on the list, a fiber is neither running nor about to run. */
  lemma PendingIsStill(s: System, f: FiberId, w: nat)
    requires Inv(s) && Pending(s, f) && w < |s.workers|
    ensures PcRuns(s.workers[w], f) == 0 && PcTokens(s.workers[w], f) == 0
  {
    assert FiberOk(s, f);
    QueuedToken(s, f);
    Moved(s, s, w, f);
  }

  lemma PendingStep(s: System, a: Action, f: FiberId)
    requires Inv(s) && Enabled(s, a) && Pending(s, f)
    ensures Pending(Apply(s, a), f) || TakenAtRest(s, a, f)
  {
    if a.Pick? {
      PendingPick(s, a.w, f);
    } else {
      if !a.Outside? && !a.Stop? {
        PendingIsStill(s, f, a.w);
      }
      PutStep(s, a);
      StaysQueued(s, f, PutNow(s, a));
      hide Inv, PutNow, Callbacks;
      StateKept(s, a, f);
      hide Apply, Enabled;
    }
  }

  lemma StaysQueued(s: System, f: FiberId, more: seq<Task>)
    requires Queued(s, f)
    ensures forall t: System :: t.tasks == s.tasks + more ==> Queued(t, f)
  {
    var i :| 0 <= i < |s.tasks| && s.tasks[i] == FiberTask(f);
    forall t: System | t.tasks == s.tasks + more
      ensures Queued(t, f)
    {
      assert t.tasks[i] == FiberTask(f);
    }
  }

  /** Nobody but its own worker, or the one that switches to it, writes the state of a fiber, apart from `HOLD`. */
  lemma StateKept(s: System, a: Action, f: FiberId)
    requires Enabled(s, a) && !a.Pick? && f < |s.fibers|
    requires !a.Outside? && !a.Stop? ==> a.w < |s.workers| && PcRuns(s.workers[a.w], f) == 0 && PcTokens(s.workers[a.w], f) == 0
    ensures var t := Apply(s, a); f < |t.fibers| && (t.fibers[f] == s.fibers[f] || t.fibers[f] == HOLD)
  {
    hide AsTasks, Quiet, Kept, Due, ET.AddEvent, ET.CancelEvent;
  }

  lemma PendingPick(s: System, w: nat, f: FiberId)
    requires Enabled(s, Pick(w)) && Pending(s, f)
    ensures Pending(Apply(s, Pick(w)), f) || TakenAtRest(s, Pick(w), f)
  {
    PickKeepsOthers(s, w, f);
    PickTakesRest(s, w);
    hide PickStep;
  }

  lemma PickTakesRest(s: System, w: nat)
    requires w < |s.workers| && s.workers[w].pc == Top
    ensures PickStep(s, w).workers[w].pc.Got? ==> !Skipped(PickStep(s, w).workers[w].pc.task, s.fibers)
    ensures PickStep(s, w).fibers == s.fibers
  {
  }

  /**
   A token queued while its fiber is still in `EXEC` stays queued, over every
   continuation, until a worker takes it after `HOLD` has been written.
   */
  lemma {:induction false} NoLostWakeUp(s: System, acts: seq<Action>, f: FiberId)
    requires Inv(s) && LegalRun(s, acts) && Pending(s, f)
    ensures Queued(Run(s, acts), f) || Woken(s, acts, f)
    decreases |acts|
  {
    if acts != [] {
      PendingStep(s, acts[0], f);
      StepKeeps(s, acts[0]);
      if Pending(Apply(s, acts[0]), f) {
        NoLostWakeUp(Apply(s, acts[0]), acts[1..], f);
      }
    }
  }

  // ------------------------------------------------- first come, first served

  function Own(task: Task): seq<Callback> {
    if task.CbTask? then [task.cb] else []
  }

  function Callbacks(tasks: seq<Task>): seq<Callback> {
    if tasks == [] then [] else Own(tasks[0]) + Callbacks(tasks[1..])
  }

  lemma {:induction false} CallbacksConcat(a: seq<Task>, b: seq<Task>)
    ensures Callbacks(a + b) == Callbacks(a) + Callbacks(b)
  {
    if a == [] {
      assert a + b == b;
    } else {
      hide Own;
      assert (a + b)[1..] == a[1..] + b;
      CallbacksConcat(a[1..], b);
      assert Own(a[0]) + (Callbacks(a[1..]) + Callbacks(b)) == (Own(a[0]) + Callbacks(a[1..])) + Callbacks(b);
    }
  }

  lemma {:induction false} NoCallbacks(tasks: seq<Task>, fibers: seq<State>)
    requires forall i :: 0 <= i < |tasks| ==> Skipped(tasks[i], fibers)
    ensures Callbacks(tasks) == []
  {
    if tasks != [] {
      assert Skipped(tasks[0], fibers);
      NoCallbacks(tasks[1..], fibers);
    }
  }

  lemma {:induction false} AllCallbacks(cbs: seq<Callback>)
    ensures Callbacks(AsTasks(cbs)) == cbs
  {
    if cbs != [] {
      assert AsTasks(cbs)[1..] == AsTasks(cbs[1..]);
      AllCallbacks(cbs[1..]);
    }
  }

  predicate InOrder(s: System) {
    s.picked + Callbacks(s.tasks) == s.scheduled
  }

  lemma PushInOrder(s: System, task: Task)
    requires InOrder(s)
    ensures InOrder(Push(s, task))
  {
    CallbacksConcat(s.tasks, [task]);
    assert Callbacks([task]) == if task.CbTask? then [task.cb] else [];
  }

  lemma FirstCallback(task: Task, rest: seq<Task>)
    ensures Callbacks([task] + rest) == Own(task) + Callbacks(rest)
  {
    assert ([task] + rest)[1..] == rest;
  }

  lemma BehindNone(front: seq<Task>, back: seq<Task>, fibers: seq<State>)
    requires forall i :: 0 <= i < |front| ==> Skipped(front[i], fibers)
    ensures Callbacks(front + back) == Callbacks(back)
  {
    NoCallbacks(front, fibers);
    CallbacksConcat(front, back);
    hide *;
  }

  /** Taking out one task that has no callback in front of it takes the first callback or none. */
  lemma WithoutInOrder(tasks: seq<Task>, fibers: seq<State>, k: nat)
    requires k < |tasks|
    requires forall i :: 0 <= i < k ==> Skipped(tasks[i], fibers)
    ensures Callbacks(tasks) == Own(tasks[k]) + Callbacks(Without(tasks, k))
  {
    hide Callbacks, Skipped, Own;
    BehindNone(tasks[..k], tasks[k + 1..], fibers);
    BehindNone(tasks[..k], [tasks[k]] + tasks[k + 1..], fibers);
    assert tasks == tasks[..k] + ([tasks[k]] + tasks[k + 1..]);
    FirstCallback(tasks[k], tasks[k + 1..]);
  }

  lemma PickInOrder(s: System, w: nat)
    requires w < |s.workers| && InOrder(s)
    ensures InOrder(PickStep(s, w))
  {
    var k := FirstRunnable(s.tasks, s.fibers);
    if k < |s.tasks| {
      WithoutInOrder(s.tasks, s.fibers, k);
      hide Callbacks;
    }
  }

  lemma CancelEventInOrder(s: System, fd: nat, ev: ET.Event, ok: bool)
    requires ET.Sized(s.table) && InOrder(s)
    ensures InOrder(CancelEventStep(s, fd, ev, ok))
  {
    var out := ET.CancelEvent(s.table, fd, ev, ok).1;
    if out.Some? {
      PushInOrder(s, AsTask(out.value.reg));
    }
  }

  lemma SettleInOrder(s: System, w: nat)
    requires w < |s.workers| && s.workers[w].pc.Left? && s.workers[w].pc.fiber < |s.fibers| && InOrder(s)
    ensures InOrder(SettleStep(s, w))
  {
    PushInOrder(s, FiberTask(s.workers[w].pc.fiber));
  }

  lemma PushAllInOrder(s: System, cbs: seq<Callback>)
    requires InOrder(s)
    ensures InOrder(PushAll(s, cbs))
  {
    hide Callbacks, AsTasks;
    CallbacksConcat(s.tasks, AsTasks(cbs));
    AllCallbacks(cbs);
  }

  lemma StepInOrder(s: System, a: Action)
    requires Enabled(s, a) && InOrder(s)
    ensures InOrder(Apply(s, a))
  {
    hide Callbacks, PickStep, SettleStep, CancelEventStep, PushAll, Quiet, Kept, Due, Ended;
    match a
    case Pick(w) => PickInOrder(s, w);
    case Serve(w) => PushInOrder(s, FiberTask(s.workers[w].pc.duty.value));
    case Schedule(w, id) => PushInOrder(s, CbTask(Func(id)));
    case Spawn(w) => PushInOrder(s, FiberTask(|s.fibers|));
    case CancelEvent(w, fd, ev, ok) => CancelEventInOrder(s, fd, ev, ok);
    case SuspendSelf(w) => PushInOrder(s, FiberTask(s.workers[w].pc.fiber));
    case Settle(w) => SettleInOrder(s, w);
    case ScheduleExpired(w) => PushAllInOrder(s, s.workers[w].pc.expired);
    case Outside(id) => PushInOrder(s, CbTask(Func(id)));
    case _ =>
  }

  /** The task at a place of the list is a fiber still in `EXEC`. */
  predicate Busy(s: System, i: nat)
    requires i < |s.tasks|
  {
    s.tasks[i].FiberTask? && StateOf(s, s.tasks[i].fiber) == Some(EXEC)
  }

  /**
   The worker took the first task that is not a fiber in `EXEC`, and nothing
   else changed in the list; it took none only if there is no such task.
   */
  predicate InTurn(s: System, w: nat, t: System)
    requires w < |t.workers|
  {
    if t.workers[w].pc.Got? then
      exists k ::
        && 0 <= k < |s.tasks| && !Busy(s, k)
        && s.tasks[k] == t.workers[w].pc.task && t.tasks == s.tasks[..k] + s.tasks[k + 1..]
        && (forall i :: 0 <= i < k ==> Busy(s, i))
    else t.tasks == s.tasks && forall i :: 0 <= i < |s.tasks| ==> Busy(s, i)
  }

  /** Every task picked in the run was picked in its turn. */
  predicate EveryPickInTurn(s: System, acts: seq<Action>)
    requires LegalRun(s, acts)
    decreases |acts|
  {
    acts != [] ==>
      && (acts[0].Pick? ==> InTurn(s, acts[0].w, Apply(s, acts[0])))
      && EveryPickInTurn(Apply(s, acts[0]), acts[1..])
  }

  lemma PickInTurn(s: System, w: nat)
    requires Enabled(s, Pick(w))
    ensures InTurn(s, w, Apply(s, Pick(w)))
  {
    var k := FirstRunnable(s.tasks, s.fibers);
    forall i | 0 <= i < |s.tasks|
      ensures Busy(s, i) <==> Skipped(s.tasks[i], s.fibers)
    {
    }
    hide Busy, Skipped;
    if k < |s.tasks| {
      assert Apply(s, Pick(w)).tasks == s.tasks[..k] + s.tasks[k + 1..];
    }
  }

  /**
   Over every run, the callbacks picked, followed by those still queued, are
   those scheduled, in order; and every pick takes the first task that is not a
   fiber still in `EXEC`, if there is one.
   */
  lemma {:induction false} FirstComeFirstServed(s: System, acts: seq<Action>)
    requires LegalRun(s, acts) && InOrder(s)
    ensures InOrder(Run(s, acts)) && EveryPickInTurn(s, acts)
    decreases |acts|
  {
    if acts != [] {
      StepInOrder(s, acts[0]);
      if acts[0].Pick? {
        PickInTurn(s, acts[0].w);
      }
      hide InOrder, InTurn, Apply;
      FirstComeFirstServed(Apply(s, acts[0]), acts[1..]);
    }
  }

  // ------------------------------------------------------- what is put on it

  /** The tasks one action puts on the list, in order. */
  function PutNow(s: System, a: Action): seq<Task>
    requires Enabled(s, a)
  {
    match a
    case Schedule(_, id) => [CbTask(Func(id))]
    case Outside(id) => [CbTask(Func(id))]
    case Spawn(_) => [FiberTask(|s.fibers|)]
    case Serve(w) => [FiberTask(s.workers[w].pc.duty.value)]
    case SuspendSelf(w) => [FiberTask(s.workers[w].pc.fiber)]
    case CancelEvent(_, fd, ev, ok) =>
      var slot := if fd < ET.Fds(s.table) then s.table.slots[ET.Slot(fd, ev)] else None;
      if ok && slot.Some? then [AsTask(slot.value.reg)] else []
    case Settle(w) =>
      var f := s.workers[w].pc.fiber;
      if s.fibers[f] == READY && !s.workers[w].pc.event then [FiberTask(f)] else []
    case ScheduleExpired(w) =>
      var cbs := s.workers[w].pc.expired;
      seq(|cbs|, i requires 0 <= i < |cbs| => CbTask(cbs[i]))
    case _ => []
  }

  function Put(s: System, acts: seq<Action>): seq<Task>
    requires LegalRun(s, acts)
    decreases |acts|
  {
    if acts == [] then [] else PutNow(s, acts[0]) + Put(Apply(s, acts[0]), acts[1..])
  }

  lemma CallbacksOfOne(task: Task)
    ensures Callbacks([task]) == Own(task)
  {
  }

  lemma ExpiredPut(s: System, w: nat)
    requires Enabled(s, ScheduleExpired(w))
    ensures var a := ScheduleExpired(w);
      Apply(s, a).tasks == s.tasks + PutNow(s, a) && Apply(s, a).scheduled == s.scheduled + Callbacks(PutNow(s, a))
  {
    var cbs := s.workers[w].pc.expired;
    AllCallbacks(cbs);
    assert AsTasks(cbs) == PutNow(s, ScheduleExpired(w));
    hide AsTasks, Callbacks, Quiet, Kept, Due, FirstRunnable, ET.AddEvent, ET.CancelEvent;
  }

  lemma EventPut(s: System, a: Action)
    requires Enabled(s, a) && a.CancelEvent?
    ensures Apply(s, a).tasks == s.tasks + PutNow(s, a) && Apply(s, a).scheduled == s.scheduled + Callbacks(PutNow(s, a))
  {
    var out := ET.CancelEvent(s.table, a.fd, a.ev, a.ok).1;
    if out.Some? {
      CallbacksOfOne(AsTask(out.value.reg));
    }
    hide Callbacks, Quiet, Kept, Due, FirstRunnable, AsTasks, ET.AddEvent;
  }

  lemma OnePut(s: System, a: Action)
    requires Enabled(s, a) && (a.Schedule? || a.Outside? || a.Spawn? || a.Serve? || a.SuspendSelf? || a.Settle?)
    ensures Apply(s, a).tasks == s.tasks + PutNow(s, a) && Apply(s, a).scheduled == s.scheduled + Callbacks(PutNow(s, a))
  {
    if PutNow(s, a) != [] {
      CallbacksOfOne(PutNow(s, a)[0]);
    }
    hide Callbacks, Quiet, Kept, Due, FirstRunnable, AsTasks, ET.AddEvent, ET.CancelEvent;
  }

  lemma NonePut(s: System, a: Action)
    requires Enabled(s, a) && !(a.Schedule? || a.Outside? || a.Spawn? || a.Serve? || a.SuspendSelf? || a.Settle?)
    requires !a.CancelEvent? && !a.ScheduleExpired?
    ensures Apply(s, a).scheduled == s.scheduled && PutNow(s, a) == []
    ensures !a.Pick? ==> Apply(s, a).tasks == s.tasks
  {
    hide Callbacks, Quiet, Kept, Due, FirstRunnable, AsTasks, ET.AddEvent, ET.CancelEvent;
  }

  /** A step but a pick changes the list only at its end. */
  lemma PutStep(s: System, a: Action)
    requires Enabled(s, a)
    ensures !a.Pick? ==> Apply(s, a).tasks == s.tasks + PutNow(s, a)
    ensures Apply(s, a).scheduled == s.scheduled + Callbacks(PutNow(s, a))
  {
    hide Apply, PutNow;
    match a
    case CancelEvent(_, _, _, _) => EventPut(s, a);
    case ScheduleExpired(w) => ExpiredPut(s, w);
    case Schedule(_, _) => OnePut(s, a);
    case Outside(_) => OnePut(s, a);
    case Spawn(_) => OnePut(s, a);
    case Serve(_) => OnePut(s, a);
    case SuspendSelf(_) => OnePut(s, a);
    case Settle(_) => OnePut(s, a);
    case _ => NonePut(s, a);
  }

  /** Over every run, the callbacks picked and those still queued are those that the actions put on the list, in order. */
  lemma {:induction false} PutInOrder(s: System, acts: seq<Action>)
    requires LegalRun(s, acts) && InOrder(s)
    ensures var t := Run(s, acts);
      t.picked + Callbacks(t.tasks) == s.picked + Callbacks(s.tasks) + Callbacks(Put(s, acts))
    decreases |acts|
  {
    if acts == [] {
      hide Callbacks;
      CallbacksConcat(s.tasks, []);
      assert Callbacks([]) == [] by {
        NoCallbacks([], []);
      }
    } else {
      hide Callbacks, PutNow, Apply, Enabled;
      var t, now, later := Apply(s, acts[0]), PutNow(s, acts[0]), Put(Apply(s, acts[0]), acts[1..]);
      PutStep(s, acts[0]);
      StepInOrder(s, acts[0]);
      hide InOrder;
      CallbacksConcat(now, later);
      PutInOrder(t, acts[1..]);
      InOrderIs(s);
      InOrderIs(t);
      assert Put(s, acts) == now + later;
      Regroup(s.scheduled, Callbacks(now), Callbacks(later));
    }
  }

  lemma Regroup(x: seq<Callback>, y: seq<Callback>, z: seq<Callback>)
    ensures (x + y) + z == x + (y + z)
  {
  }

  lemma InOrderIs(s: System)
    ensures InOrder(s) <==> s.picked + Callbacks(s.tasks) == s.scheduled
  {
  }
}
