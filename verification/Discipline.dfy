/** Every step of the scheduler keeps the token discipline. */
module Discipline {

  import opened Wrappers
  import opened Counting
  import opened Scheduling
  import ET = EventTable

  /** Moving one worker changes the sums over the workers by the difference. */
  lemma Moved(s: System, t: System, w: nat, f: nat)
    requires w < |s.workers| == |t.workers| && t.workers == s.workers[w := t.workers[w]]
    ensures Runs(t, f) + PcRuns(s.workers[w], f) == Runs(s, f) + PcRuns(t.workers[w], f)
    ensures Leaves(t, f) + PcLeaves(s.workers[w], f) == Leaves(s, f) + PcLeaves(t.workers[w], f)
    ensures Held(t, f) + PcTokens(s.workers[w], f) == Held(s, f) + PcTokens(t.workers[w], f)
    ensures PcRuns(s.workers[w], f) <= Runs(s, f)
    ensures PcLeaves(s.workers[w], f) <= Leaves(s, f)
    ensures PcTokens(s.workers[w], f) <= Held(s, f)
  {
    TotalUpdate(s.workers, w, t.workers[w], PcTokens, f);
    TotalUpdate(s.workers, w, t.workers[w], PcRuns, f);
    TotalUpdate(s.workers, w, t.workers[w], PcLeaves, f);
    TotalSplit(s.workers, w, PcTokens, f);
    TotalSplit(s.workers, w, PcRuns, f);
    TotalSplit(s.workers, w, PcLeaves, f);
  }

  lemma ActiveMoved(s: System, t: System, w: nat)
    requires w < |s.workers| == |t.workers| && t.workers == s.workers[w := t.workers[w]]
    ensures Total(t.workers, PcActive, 0) + PcActive(s.workers[w], 0) == Total(s.workers, PcActive, 0) + PcActive(t.workers[w], 0)
  {
    TotalUpdate(s.workers, w, t.workers[w], PcActive, 0);
  }

  lemma LooseKept(s: System, t: System, f: nat)
    requires s.tasks == t.tasks && s.timers == t.timers && s.table.slots == t.table.slots
    ensures Loose(s, f) == Loose(t, f)
  {
  }

  // ---------------------------------------------------- the worker's own loop

  lemma PickFiber(s: System, w: nat, f: FiberId)
    requires w < |s.workers| && s.workers[w].pc == Top && FiberOk(s, f)
    ensures FiberOk(PickStep(s, w), f)
  {
    var k := FirstRunnable(s.tasks, s.fibers);
    var t := PickStep(s, w);
    Moved(s, t, w, f);
    if k < |s.tasks| {
      TotalWithout(s.tasks, k, TaskTokens, f);
    }
  }

  lemma PickReady(s: System, w: nat)
    requires w < |s.workers| && s.workers[w].pc == Top && Inv(s)
    ensures var t := PickStep(s, w);
      forall v :: 0 <= v < |t.workers| ==> ReadyOk(t, t.workers[v])
  {
    hide FiberOk, CountsOk, GotOk;
    ReadyKept(s, PickStep(s, w), w);
  }

  lemma PickKeeps(s: System, w: nat)
    requires w < |s.workers| && s.workers[w].pc == Top && Inv(s)
    ensures Inv(PickStep(s, w))
  {
    var t := PickStep(s, w);
    ActiveMoved(s, t, w);
    PickReady(s, w);
    hide FiberOk, Total, ReadyOk;
    assert CountsOk(t);
    assert GotOk(t);
    hide *;
    forall f: FiberId
      ensures FiberOk(t, f)
    {
      PickFiber(s, w, f);
    }
  }

  lemma DispatchFiber(s: System, w: nat, f: FiberId)
    requires w < |s.workers| && s.workers[w].pc.Got? && FiberOk(s, f)
    requires !Skipped(s.workers[w].pc.task, s.fibers)
    ensures FiberOk(DispatchStep(s, w), f)
  {
    hide Runs, Leaves, Held, Loose;
    var t := DispatchStep(s, w);
    Moved(s, t, w, f);
    LooseKept(s, t, f);
  }

  /** No two workers have taken the same fiber off the list. */
  lemma OneGot(s: System, w: nat)
    requires w < |s.workers| && s.workers[w].pc.Got?
    requires s.workers[w].pc.task.FiberTask? ==> FiberOk(s, s.workers[w].pc.task.fiber)
    ensures s.workers[w].pc.task.FiberTask? ==>
      forall v :: 0 <= v < |s.workers| && v != w ==> s.workers[v].pc != s.workers[w].pc
  {
    if s.workers[w].pc.task.FiberTask? {
      var f := s.workers[w].pc.task.fiber;
      forall v | 0 <= v < |s.workers| && v != w
        ensures s.workers[v].pc != s.workers[w].pc
      {
        TotalTwo(s.workers, if v < w then v else w, if v < w then w else v, PcTokens, f);
      }
    }
  }

  /** A fiber taken off the list exists. */
  lemma GotExists(s: System)
    requires Inv(s)
    ensures forall v :: 0 <= v < |s.workers| && s.workers[v].pc.Got? && s.workers[v].pc.task.FiberTask? ==>
      s.workers[v].pc.task.fiber < |s.fibers|
  {
    forall v | 0 <= v < |s.workers| && s.workers[v].pc.Got? && s.workers[v].pc.task.FiberTask?
      ensures s.workers[v].pc.task.fiber < |s.fibers|
    {
      var f := s.workers[v].pc.task.fiber;
      assert FiberOk(s, f);
      TotalSplit(s.workers, v, PcTokens, f);
    }
  }

  lemma DispatchGot(s: System, w: nat)
    requires w < |s.workers| && s.workers[w].pc.Got? && Inv(s)
    ensures GotOk(DispatchStep(s, w))
  {
    OneGot(s, w);
    GotExists(s);
    hide FiberOk, CountsOk, ReadyOk;
  }

  lemma DispatchReady(s: System, w: nat)
    requires w < |s.workers| && s.workers[w].pc.Got? && Inv(s)
    ensures var t := DispatchStep(s, w);
      forall v :: 0 <= v < |t.workers| ==> ReadyOk(t, t.workers[v])
  {
    hide FiberOk, CountsOk, GotOk;
    ReadyKept(s, DispatchStep(s, w), w);
  }

  lemma DispatchKeeps(s: System, w: nat)
    requires w < |s.workers| && s.workers[w].pc.Got? && Inv(s)
    ensures Inv(DispatchStep(s, w))
  {
    var t := DispatchStep(s, w);
    ActiveMoved(s, t, w);
    assert CountsOk(t);
    DispatchGot(s, w);
    DispatchReady(s, w);
    hide *;
    forall f: FiberId
      ensures FiberOk(t, f)
    {
      DispatchFiber(s, w, f);
    }
  }

  lemma SettleFiber(s: System, w: nat, f: FiberId)
    requires w < |s.workers| && s.workers[w].pc.Left? && s.workers[w].pc.fiber < |s.fibers|
    requires FiberOk(s, f) && FiberOk(s, s.workers[w].pc.fiber) && ReadyOk(s, s.workers[w])
    ensures FiberOk(SettleStep(s, w), f)
  {
    hide Runs, Leaves, Held, Loose;
    var t := SettleStep(s, w);
    var g := s.workers[w].pc.fiber;
    Moved(s, t, w, g);
    Moved(s, t, w, f);
    if s.fibers[g] == READY && !s.workers[w].pc.event {
      Pushed(s, FiberTask(g), f);
      LooseKept(Push(s, FiberTask(g)), t, f);
    } else {
      LooseKept(s, t, f);
    }
  }

  /** Settling writes `HOLD` or puts the fiber back on the list, and nothing else. */
  lemma SettleWrites(s: System, w: nat)
    requires w < |s.workers| && s.workers[w].pc.Left? && s.workers[w].pc.fiber < |s.fibers|
    ensures var t := SettleStep(s, w);
      && t == s.(workers := s.workers[w := Worker(Top, s.workers[w].idleDone)], fibers := t.fibers, tasks := t.tasks)
      && |t.fibers| == |s.fibers|
      && forall f :: 0 <= f < |s.fibers| ==> t.fibers[f] == s.fibers[f] || t.fibers[f] == HOLD
  {
  }

  lemma SettleKeeps(s: System, w: nat)
    requires w < |s.workers| && s.workers[w].pc.Left? && s.workers[w].pc.fiber < |s.fibers| && Inv(s)
    ensures Inv(SettleStep(s, w))
  {
    var t := SettleStep(s, w);
    assert FiberOk(s, s.workers[w].pc.fiber) && ReadyOk(s, s.workers[w]);
    SettleWrites(s, w);
    ActiveMoved(s, t, w);
    hide SettleStep, FiberOk, Total;
    assert CountsOk(t);
    assert GotOk(t);
    ReadyKept(s, t, w);
    forall f: FiberId
      ensures FiberOk(t, f)
    {
      assert FiberOk(s, f);
      SettleFiber(s, w, f);
    }
  }

  /** If no fiber was set to `READY`, the other workers' fibers are lost or not as before. */
  lemma ReadyKept(s: System, t: System, w: nat)
    requires w < |s.workers| == |t.workers| && t.workers == s.workers[w := t.workers[w]] && t.lost == s.lost
    requires forall v :: 0 <= v < |s.workers| ==> ReadyOk(s, s.workers[v])
    requires forall f :: 0 <= f < |t.fibers| && t.fibers[f] == READY ==> f < |s.fibers| && s.fibers[f] == READY
    requires ReadyOk(t, t.workers[w])
    ensures forall v :: 0 <= v < |t.workers| ==> ReadyOk(t, t.workers[v])
  {
    forall v | 0 <= v < |t.workers|
      ensures ReadyOk(t, t.workers[v])
    {
      assert ReadyOk(s, s.workers[v]);
      assert v != w ==> t.workers[v] == s.workers[v];
    }
  }

  lemma LeaveKeeps(s: System, w: nat)
    requires Inv(s) && w < |s.workers| && s.workers[w].pc.Leaving?
    ensures Inv(Apply(s, Leave(w)))
  {
    var t := Apply(s, Leave(w));
    ActiveMoved(s, t, w);
    hide Runs, Leaves, Held, Loose;
    forall f: FiberId
      ensures FiberOk(t, f)
    {
      assert FiberOk(s, f);
      Moved(s, t, w, f);
      LooseKept(s, t, f);
    }
  }

  // ------------------------------------------------ what a running fiber does

  /** Who runs is in `EXEC`, and no other worker holds it. */
  lemma RunningIsExec(s: System, w: nat)
    requires Inv(s) && w < |s.workers| && s.workers[w].pc.Running?
    ensures var f := s.workers[w].pc.fiber;
      && f < |s.fibers| && s.fibers[f] == EXEC && f !in s.lost
      && Runs(s, f) == 1 && Leaves(s, f) == 0 && Tokens(s, f) == 0
  {
    var f := s.workers[w].pc.fiber;
    assert FiberOk(s, f);
    Moved(s, s, w, f);
  }

  /** One more task adds its tokens. */
  lemma Pushed(s: System, task: Task, f: FiberId)
    ensures Loose(Push(s, task), f) == Loose(s, f) + TaskTokens(task, f)
  {
    TotalPush(s.tasks, task, TaskTokens, f);
  }

  lemma Armed1(s: System, timer: Armed, f: FiberId)
    ensures Loose(s.(timers := s.timers + [timer]), f) == Loose(s, f) + TimerTokens(timer, f)
  {
    TotalPush(s.timers, timer, TimerTokens, f);
  }

  lemma Registered(s: System, fd: nat, ev: ET.Event, reg: ET.Registration, ok: bool, f: FiberId)
    requires ET.Sized(s.table) && ET.Free(s.table, fd, ev)
    ensures Loose(s.(table := ET.AddEvent(s.table, fd, ev, reg, ok)), f)
         == Loose(s, f) + if ok then TaskTokens(AsTask(reg), f) else 0
  {
    ET.AddTotal(s.table, fd, ev, reg, ok, SlotTokens, f);
  }

  /** A step that only passes tokens around keeps the discipline. */
  lemma Transfer(s: System, t: System, w: nat)
    requires Inv(s) && t.fibers == s.fibers && t.lost == s.lost && CountsOk(t) && GotOk(t)
    requires w < |s.workers| == |t.workers| && t.workers == s.workers[w := t.workers[w]] && ReadyOk(t, t.workers[w])
    requires forall f: FiberId :: PcRuns(t.workers[w], f) == PcRuns(s.workers[w], f)
    requires forall f: FiberId :: PcLeaves(t.workers[w], f) == PcLeaves(s.workers[w], f)
    requires forall f: FiberId :: Loose(t, f) + PcTokens(t.workers[w], f) == Loose(s, f) + PcTokens(s.workers[w], f)
    ensures Inv(t)
  {
    hide Loose, Held, Runs, Leaves, PcRuns, PcLeaves, PcTokens, CountsOk, GotOk, ReadyOk;
    ReadyKept(s, t, w);
    forall f: FiberId
      ensures FiberOk(t, f)
    {
      assert FiberOk(s, f);
      Moved(s, t, w, f);
    }
  }

  lemma PushKeeps(s: System, id: nat)
    requires Inv(s)
    ensures Inv(Push(s, CbTask(Func(id))))
  {
    var t := Push(s, CbTask(Func(id)));
    forall f: FiberId
      ensures FiberOk(t, f)
    {
      assert FiberOk(s, f);
      Pushed(s, CbTask(Func(id)), f);
    }
  }

  lemma SpawnKeeps(s: System)
    requires Inv(s)
    ensures Inv(Push(s, FiberTask(|s.fibers|)).(fibers := s.fibers + [INIT]))
  {
    var t := Push(s, FiberTask(|s.fibers|)).(fibers := s.fibers + [INIT]);
    GotExists(s);
    assert GotOk(t);
    forall f: FiberId
      ensures FiberOk(t, f)
    {
      assert FiberOk(s, f);
      Pushed(s, FiberTask(|s.fibers|), f);
    }
  }

  lemma AddTimerKeeps(s: System, w: nat, id: nat, recurring: bool)
    requires Inv(s) && w < |s.workers|
    ensures Inv(s.(timers := s.timers + [Armed(Func(id), recurring)]))
  {
    var t := s.(timers := s.timers + [Armed(Func(id), recurring)]);
    forall f: FiberId
      ensures Loose(t, f) == Loose(s, f)
    {
      Armed1(s, Armed(Func(id), recurring), f);
    }
    Transfer(s, t, w);
  }

  lemma CancelTimerKeeps(s: System, w: nat, i: nat)
    requires Inv(s) && w < |s.workers| && i < |s.timers| && s.timers[i].cb.Func?
    ensures Inv(s.(timers := Without(s.timers, i)))
  {
    var t := s.(timers := Without(s.timers, i));
    forall f: FiberId
      ensures Loose(t, f) == Loose(s, f)
    {
      TotalWithout(s.timers, i, TimerTokens, f);
    }
    Transfer(s, t, w);
  }

  lemma AddEventKeeps(s: System, w: nat, fd: nat, ev: ET.Event, id: nat, ok: bool)
    requires Inv(s) && w < |s.workers| && ET.Free(s.table, fd, ev)
    ensures Inv(s.(table := ET.AddEvent(s.table, fd, ev, ET.Call(id), ok)))
  {
    var t := s.(table := ET.AddEvent(s.table, fd, ev, ET.Call(id), ok));
    ET.AddTotal(s.table, fd, ev, ET.Call(id), ok, ET.Occupied, 0);
    forall f: FiberId
      ensures Loose(t, f) == Loose(s, f)
    {
      Registered(s, fd, ev, ET.Call(id), ok, f);
    }
    Transfer(s, t, w);
  }

  /** A triggered registration moves its token to the task list. */
  lemma CancelEventKeeps(s: System, w: nat, fd: nat, ev: ET.Event, ok: bool)
    requires Inv(s) && w < |s.workers|
    ensures Inv(CancelEventStep(s, fd, ev, ok))
  {
    var t := CancelEventStep(s, fd, ev, ok);
    var (table, out) := ET.CancelEvent(s.table, fd, ev, ok);
    ET.CancelTotal(s.table, fd, ev, ok, ET.Occupied, 0);
    forall f: FiberId
      ensures Loose(t, f) == Loose(s, f)
    {
      ET.CancelTotal(s.table, fd, ev, ok, SlotTokens, f);
      if out.Some? {
        TotalPush(s.tasks, AsTask(out.value.reg), TaskTokens, f);
      }
    }
    Transfer(s, t, w);
  }

  lemma ServeKeeps(s: System, w: nat)
    requires Inv(s) && Enabled(s, Serve(w))
    ensures Inv(Apply(s, Serve(w)))
  {
    var t := Apply(s, Serve(w));
    ActiveMoved(s, t, w);
    forall f: FiberId
      ensures Loose(t, f) + PcTokens(t.workers[w], f) == Loose(s, f) + PcTokens(s.workers[w], f)
    {
      TotalPush(s.tasks, FiberTask(s.workers[w].pc.duty.value), TaskTokens, f);
    }
    Transfer(s, t, w);
  }

  // ------------------------------------------------------------- suspensions

  /** A suspension makes exactly one token and hands the fiber back to its worker. */
  lemma Suspend(s: System, t: System, w: nat)
    requires Inv(s) && Busy(s, w) && t.fibers == s.fibers && t.lost == s.lost && CountsOk(t)
    requires t.workers == s.workers[w := s.workers[w].(pc := Leaving(s.workers[w].pc.fiber, s.workers[w].pc.event))]
    requires forall f: FiberId :: Loose(t, f) == Loose(s, f) + if f == s.workers[w].pc.fiber then 1 else 0
    ensures Inv(t)
  {
    RunningIsExec(s, w);
    ReadyKept(s, t, w);
    hide Loose, Held, Runs, Leaves, CountsOk, ReadyOk;
    forall f: FiberId
      ensures FiberOk(t, f)
    {
      assert FiberOk(s, f);
      Moved(s, t, w, f);
    }
  }

  lemma SuspendIoKeeps(s: System, w: nat, fd: nat, ev: ET.Event, ok: bool)
    requires Inv(s) && Enabled(s, SuspendIo(w, fd, ev, ok))
    ensures Inv(Apply(s, SuspendIo(w, fd, ev, ok)))
  {
    var t := Apply(s, SuspendIo(w, fd, ev, ok));
    var reg := ET.Resume(s.workers[w].pc.fiber);
    ET.AddTotal(s.table, fd, ev, reg, ok, ET.Occupied, 0);
    forall f: FiberId
      ensures Loose(t, f) == Loose(s, f) + if ok && f == s.workers[w].pc.fiber then 1 else 0
    {
      Registered(s, fd, ev, reg, ok, f);
    }
    ActiveMoved(s, t, w);
    if ok {
      Suspend(s, t, w);
    } else {
      Transfer(s, t, w);
    }
  }

  lemma SuspendSleepKeeps(s: System, w: nat)
    requires Inv(s) && Enabled(s, SuspendSleep(w))
    ensures Inv(Apply(s, SuspendSleep(w)))
  {
    var t := Apply(s, SuspendSleep(w));
    ActiveMoved(s, t, w);
    forall f: FiberId
      ensures Loose(t, f) == Loose(s, f) + if f == s.workers[w].pc.fiber then 1 else 0
    {
      Armed1(s, Armed(Wake(s.workers[w].pc.fiber), false), f);
    }
    Suspend(s, t, w);
  }

  lemma SuspendSelfKeeps(s: System, w: nat)
    requires Inv(s) && Enabled(s, SuspendSelf(w))
    ensures Inv(Apply(s, SuspendSelf(w)))
  {
    var t := Apply(s, SuspendSelf(w));
    ActiveMoved(s, t, w);
    forall f: FiberId
      ensures Loose(t, f) == Loose(s, f) + if f == s.workers[w].pc.fiber then 1 else 0
    {
      Pushed(s, FiberTask(s.workers[w].pc.fiber), f);
    }
    Suspend(s, t, w);
  }

  /** Who sets itself to `READY` makes no token: its worker will, or it is lost. */
  lemma YieldReadyKeeps(s: System, w: nat)
    requires Inv(s) && Enabled(s, YieldReady(w))
    ensures Inv(Apply(s, YieldReady(w)))
  {
    var t := Apply(s, YieldReady(w));
    var g := s.workers[w].pc.fiber;
    RunningIsExec(s, w);
    ActiveMoved(s, t, w);
    assert GotOk(t);
    forall v | 0 <= v < |t.workers|
      ensures ReadyOk(t, t.workers[v])
    {
      assert ReadyOk(s, s.workers[v]);
      if v != w {
        TotalSplit(s.workers, v, PcLeaves, g);
      }
    }
    hide Loose, Held, Runs, Leaves, ReadyOk;
    forall f: FiberId
      ensures FiberOk(t, f)
    {
      assert FiberOk(s, f);
      Moved(s, t, w, f);
      LooseKept(s, t, f);
    }
  }

  lemma FinishKeeps(s: System, w: nat)
    requires Inv(s) && Enabled(s, Finish(w))
    ensures Inv(Apply(s, Finish(w)))
  {
    var t := Apply(s, Finish(w));
    RunningIsExec(s, w);
    ActiveMoved(s, t, w);
    assert GotOk(t);
    hide Loose, Held, Runs, Leaves;
    forall f: FiberId
      ensures FiberOk(t, f)
    {
      assert FiberOk(s, f);
      Moved(s, t, w, f);
      LooseKept(s, t, f);
    }
  }

  // ------------------------------------------------------------ the idle loop

  lemma CheckKeeps(s: System, w: nat)
    requires Inv(s) && Enabled(s, Check(w))
    ensures Inv(Apply(s, Check(w)))
  {
    var t := Apply(s, Check(w));
    ActiveMoved(s, t, w);
    Transfer(s, t, w);
  }

  lemma EndIdleKeeps(s: System, w: nat)
    requires Inv(s) && Enabled(s, EndIdle(w))
    ensures Inv(Apply(s, EndIdle(w)))
  {
    var t := Apply(s, EndIdle(w));
    ActiveMoved(s, t, w);
    Transfer(s, t, w);
  }

  /** Timers due and timers kept share out the tokens. */
  lemma {:induction false} Divided(timers: seq<Armed>, due: seq<bool>, f: FiberId)
    requires |timers| == |due|
    requires forall i :: 0 <= i < |timers| && timers[i].recurring ==> timers[i].cb.Func?
    ensures Total(Kept(timers, due), TimerTokens, f) + Total(Due(timers, due), CbTokens, f) == Total(timers, TimerTokens, f)
    ensures forall i :: 0 <= i < |Kept(timers, due)| && Kept(timers, due)[i].recurring ==> Kept(timers, due)[i].cb.Func?
  {
    if timers != [] {
      Divided(timers[1..], due[1..], f);
      var stays := if due[0] && !timers[0].recurring then [] else [timers[0]];
      var fires := if due[0] then [timers[0].cb] else [];
      TotalConcat(stays, Kept(timers[1..], due[1..]), TimerTokens, f);
      TotalConcat(fires, Due(timers[1..], due[1..]), CbTokens, f);
      TotalOne(timers[0], TimerTokens, f);
      TotalOne(timers[0].cb, CbTokens, f);
    }
  }

  lemma ExpireKeeps(s: System, w: nat, due: seq<bool>)
    requires Inv(s) && Enabled(s, Expire(w, due))
    ensures Inv(Apply(s, Expire(w, due)))
  {
    var t := Apply(s, Expire(w, due));
    ActiveMoved(s, t, w);
    Divided(s.timers, due, 0);
    forall f: FiberId
      ensures Loose(t, f) + PcTokens(t.workers[w], f) == Loose(s, f) + PcTokens(s.workers[w], f)
    {
      Divided(s.timers, due, f);
    }
    Transfer(s, t, w);
  }

  lemma {:induction false} TaskTotal(cbs: seq<Callback>, f: FiberId)
    ensures Total(AsTasks(cbs), TaskTokens, f) == Total(cbs, CbTokens, f)
  {
    if cbs != [] {
      TaskTotal(cbs[1..], f);
      assert AsTasks(cbs)[1..] == AsTasks(cbs[1..]);
    }
  }

  lemma ScheduleExpiredKeeps(s: System, w: nat)
    requires Inv(s) && Enabled(s, ScheduleExpired(w))
    ensures Inv(Apply(s, ScheduleExpired(w)))
  {
    var t := Apply(s, ScheduleExpired(w));
    var cbs := s.workers[w].pc.expired;
    ActiveMoved(s, t, w);
    forall f: FiberId
      ensures Loose(t, f) + PcTokens(t.workers[w], f) == Loose(s, f) + PcTokens(s.workers[w], f)
    {
      TotalConcat(s.tasks, AsTasks(cbs), TaskTokens, f);
      TaskTotal(cbs, f);
    }
    Transfer(s, t, w);
  }

  // ---------------------------------------------------------------- all steps

  /** Every step keeps the discipline. */
  lemma StepKeeps(s: System, a: Action)
    requires Inv(s) && Enabled(s, a)
    ensures Inv(Apply(s, a))
  {
    hide Inv;
    match a
    case Pick(w) => PickKeeps(s, w);
    case Dispatch(w) => DispatchKeeps(s, w);
    case Serve(w) => ServeKeeps(s, w);
    case Schedule(w, id) => PushKeeps(s, id);
    case Spawn(w) => SpawnKeeps(s);
    case AddTimer(w, id, recurring) => AddTimerKeeps(s, w, id, recurring);
    case CancelTimer(w, i) =>
      if i < |s.timers| {
        CancelTimerKeeps(s, w, i);
      }
    case AddEvent(w, fd, ev, id, ok) => AddEventKeeps(s, w, fd, ev, id, ok);
    case CancelEvent(w, fd, ev, ok) => CancelEventKeeps(s, w, fd, ev, ok);
    case SuspendIo(w, fd, ev, ok) => SuspendIoKeeps(s, w, fd, ev, ok);
    case SuspendSleep(w) => SuspendSleepKeeps(s, w);
    case SuspendSelf(w) => SuspendSelfKeeps(s, w);
    case YieldReady(w) => YieldReadyKeeps(s, w);
    case Finish(w) => FinishKeeps(s, w);
    case Leave(w) => LeaveKeeps(s, w);
    case Settle(w) => SettleKeeps(s, w);
    case Check(w) => CheckKeeps(s, w);
    case Expire(w, due) => ExpireKeeps(s, w, due);
    case ScheduleExpired(w) => ScheduleExpiredKeeps(s, w);
    case EndIdle(w) => EndIdleKeeps(s, w);
    case Outside(id) =>
      PushKeeps(s, id);
      FlagsKeep(Push(s, CbTask(Func(id))), s.stopped, s.late || s.stopped);
    case Stop => FlagsKeep(s, true, s.late);
  }

  lemma FlagsKeep(s: System, stopped: bool, late: bool)
    requires Inv(s)
    ensures Inv(s.(stopped := stopped, late := late))
  {
    var t := s.(stopped := stopped, late := late);
    forall f: FiberId
      ensures FiberOk(t, f)
    {
      assert FiberOk(s, f);
    }
  }

  lemma InitialOk(threads: nat)
    ensures Inv(Initial(threads))
  {
    var s := Initial(threads);
    TotalZero(s.workers, PcActive, 0);
    ET.NoneTotal(2 * ET.INITIAL_FDS, ET.Occupied, 0);
    forall f: FiberId
      ensures FiberOk(s, f)
    {
      TotalZero(s.workers, PcRuns, f);
      TotalZero(s.workers, PcLeaves, f);
      TotalZero(s.workers, PcTokens, f);
      ET.NoneTotal(2 * ET.INITIAL_FDS, SlotTokens, f);
    }
  }

  lemma {:induction false} RunKeeps(s: System, acts: seq<Action>)
    requires Inv(s) && LegalRun(s, acts)
    ensures Inv(Run(s, acts))
    decreases |acts|
  {
    if acts != [] {
      StepKeeps(s, acts[0]);
      hide Inv;
      RunKeeps(Apply(s, acts[0]), acts[1..]);
    }
  }
}
