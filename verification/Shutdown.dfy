/**
 Shutting down: what is left once every worker has left its loop, and the one
 way in which something can be left.
 */
module Shutdown {

  import opened Wrappers
  import opened Counting
  import opened Scheduling
  import opened Discipline
  import opened SchedulerTheorems
  import ET = EventTable

  /** A worker whose idle fiber ended never comes back to the idle loop, and only such a worker exits. */
  predicate IdleOk(x: Worker) {
    && (x.idleDone ==> !x.pc.Idle? && !x.pc.Waiting? && !x.pc.Polled? && !x.pc.Serving?)
    && (x.pc.Exited? ==> x.idleDone)
  }

  predicate AllDone(s: System) {
    forall w :: 0 <= w < |s.workers| ==> s.workers[w].idleDone
  }

  predicate AllIdleOk(s: System) {
    forall w :: 0 <= w < |s.workers| ==> IdleOk(s.workers[w])
  }

  predicate AllExited(s: System) {
    forall w :: 0 <= w < |s.workers| ==> s.workers[w].pc == Exited
  }

  /** Some worker is about to put a fiber in `READY` back on the list, and counts as active no more. */
  predicate Owing(s: System) {
    exists w :: 0 <= w < |s.workers| && Owes(s, s.workers[w])
  }

  /** Nothing is left and nothing can come back. */
  predicate Sealed(s: System) {
    Quiet(s) && !Owing(s)
  }

  /** Once every idle fiber ended the system is sealed, unless work came from outside after stop. */
  predicate ShutdownOk(s: System) {
    AllIdleOk(s) && (!s.late && AllDone(s) ==> Sealed(s))
  }

  /** A worker that is done in a quiet system settles a fiber, goes back to the list or exits. */
  lemma QuietDoes(s: System, a: Action)
    requires Inv(s) && Quiet(s) && Enabled(s, a) && !a.Outside? && !a.Stop?
    requires IdleOk(s.workers[a.w]) && s.workers[a.w].idleDone
    ensures a.Pick? || a.Settle?
  {
    TotalSplit(s.workers, a.w, PcActive, 0);
    hide Inv, FiberOk, Total;
  }

  /** A sealed system whose workers are all done can only let them exit. */
  lemma SealedStays(s: System, a: Action)
    requires Inv(s) && Sealed(s) && Enabled(s, a) && !a.Outside? && !a.Stop?
    requires IdleOk(s.workers[a.w]) && s.workers[a.w].idleDone
    ensures Sealed(Apply(s, a))
  {
    QuietDoes(s, a);
    var t := Apply(s, a);
    if a.Settle? {
      assert !Owes(s, s.workers[a.w]);
      assert FiberOk(s, s.workers[a.w].pc.fiber);
    }
    forall v | 0 <= v < |t.workers|
      ensures !Owes(t, t.workers[v])
    {
      if v != a.w {
        assert t.workers[v] == s.workers[v];
        assert !Owes(s, s.workers[v]);
      }
    }
  }

  /** Only one worker moved, and it is done only if it was before or found the system quiet. */
  predicate OneMoved(s: System, t: System, w: nat) {
    && w < |s.workers| == |t.workers| && t.workers == s.workers[w := t.workers[w]] && IdleOk(t.workers[w])
    && (t.workers[w].idleDone ==> s.workers[w].idleDone || (Quiet(s) && Quiet(t)))
    && t.late == s.late
  }

  lemma LoopDone(s: System, w: nat)
    requires w < |s.workers| && IdleOk(s.workers[w])
    ensures s.workers[w].pc == Top ==> OneMoved(s, PickStep(s, w), w)
    ensures s.workers[w].pc.Got? ==> OneMoved(s, DispatchStep(s, w), w)
    ensures s.workers[w].pc.Left? && s.workers[w].pc.fiber < |s.fibers| ==> OneMoved(s, SettleStep(s, w), w)
    ensures s.workers[w].pc == Idle ==> OneMoved(s, Apply(s, Check(w)), w)
  {
  }

  lemma CancelDone(s: System, w: nat, fd: nat, ev: ET.Event, ok: bool)
    requires w < |s.workers| && IdleOk(s.workers[w]) && ET.Sized(s.table)
    ensures OneMoved(s, CancelEventStep(s, fd, ev, ok), w)
  {
  }

  /** A worker that is busy with a fiber or with timers and events. */
  lemma BusyDone(s: System, a: Action)
    requires Enabled(s, a) && !a.Outside? && !a.Stop? && !a.CancelEvent? && IdleOk(s.workers[a.w])
    requires s.workers[a.w].pc.Running? || s.workers[a.w].pc.Leaving? || a.Expire? || a.ScheduleExpired? || a.EndIdle?
    ensures OneMoved(s, Apply(s, a), a.w)
  {
    hide Quiet, Kept, Due, AsTasks, ET.AddEvent;
  }

  lemma WorkerDone(s: System, a: Action)
    requires Enabled(s, a) && !a.Outside? && !a.Stop? && IdleOk(s.workers[a.w])
    ensures OneMoved(s, Apply(s, a), a.w)
  {
    match a
    case Pick(w) => LoopDone(s, w);
    case Dispatch(w) => LoopDone(s, w);
    case Settle(w) => LoopDone(s, w);
    case CancelEvent(w, fd, ev, ok) => CancelDone(s, w, fd, ev, ok);
    case Check(w) => LoopDone(s, w);
    case _ => BusyDone(s, a);
    hide OneMoved, PickStep, DispatchStep, SettleStep, CancelEventStep;
  }

  lemma ShutdownMoved(s: System, t: System, w: nat)
    requires ShutdownOk(s) && OneMoved(s, t, w)
    requires Sealed(s) && s.workers[w].idleDone ==> Sealed(t)
    requires !AllDone(s) && AllDone(t) ==> !Owing(t)
    ensures ShutdownOk(t)
  {
    hide Quiet, IdleOk, Owing;
    forall v | 0 <= v < |t.workers|
      ensures IdleOk(t.workers[v])
    {
      assert v != w ==> t.workers[v] == s.workers[v] && IdleOk(s.workers[v]);
    }
    if !t.late && AllDone(t) && s.workers[w].idleDone {
      forall v | 0 <= v < |s.workers| && v != w
        ensures s.workers[v].idleDone
      {
        assert t.workers[v] == s.workers[v] && t.workers[v].idleDone;
      }
      assert AllDone(s);
    } else if !t.late && AllDone(t) {
      assert t.workers[w].idleDone && !AllDone(s);
    }
  }

  lemma ShutdownOutside(s: System, t: System)
    requires ShutdownOk(s) && |s.workers| > 0 && t.workers == s.workers && t.fibers == s.fibers
    requires Quiet(s) && !t.late ==> Quiet(t) && !s.late
    requires s.late ==> t.late
    ensures ShutdownOk(t)
  {
    assert Owing(t) ==> Owing(s) by {
      if Owing(t) {
        var w :| 0 <= w < |t.workers| && Owes(t, t.workers[w]);
        assert Owes(s, s.workers[w]);
      }
    }
    hide Quiet, IdleOk, Owing;
  }

  /** The last idle fiber ends while some worker still owes a fiber to the list. */
  predicate ClosesOwing(s: System, a: Action)
    requires Enabled(s, a)
  {
    !AllDone(s) && AllDone(Apply(s, a)) && Owing(Apply(s, a))
  }

  lemma ShutdownStep(s: System, a: Action)
    requires Inv(s) && ShutdownOk(s) && Enabled(s, a) && |s.workers| > 0 && !ClosesOwing(s, a)
    ensures ShutdownOk(Apply(s, a)) && |Apply(s, a).workers| == |s.workers|
  {
    if a.Outside? || a.Stop? {
      ShutdownOutside(s, Apply(s, a));
    } else {
      assert IdleOk(s.workers[a.w]);
      WorkerDone(s, a);
      if Sealed(s) && s.workers[a.w].idleDone {
        SealedStays(s, a);
      }
      hide *;
      ShutdownMoved(s, Apply(s, a), a.w);
    }
  }

  /** Somewhere in the run, the last idle fiber ends while a fiber is still owed. */
  predicate EverClosesOwing(s: System, acts: seq<Action>)
    requires LegalRun(s, acts)
    decreases |acts|
  {
    acts != [] && (ClosesOwing(s, acts[0]) || EverClosesOwing(Apply(s, acts[0]), acts[1..]))
  }

  lemma {:induction false} ShutdownRun(s: System, acts: seq<Action>)
    requires Inv(s) && ShutdownOk(s) && LegalRun(s, acts) && |s.workers| > 0 && !EverClosesOwing(s, acts)
    ensures ShutdownOk(Run(s, acts)) && |Run(s, acts).workers| == |s.workers|
    decreases |acts|
  {
    if acts != [] {
      StepKeeps(s, acts[0]);
      ShutdownStep(s, acts[0]);
      hide Inv, ShutdownOk, Apply;
      ShutdownRun(Apply(s, acts[0]), acts[1..]);
    }
  }

  /** In a quiet system without workers in their loops, a fiber has ended or is lost. */
  lemma AllEnded(s: System, f: FiberId)
    requires Inv(s) && Quiet(s) && AllExited(s) && f < |s.fibers|
    ensures s.fibers[f] == if f in s.lost then HOLD else TERM
  {
    assert FiberOk(s, f);
    TotalZero(s.workers, PcRuns, f);
    TotalZero(s.workers, PcLeaves, f);
    TotalZero(s.workers, PcTokens, f);
    TotalZero(s.table.slots, ET.Occupied, 0);
    TotalZero(s.table.slots, SlotTokens, f);
    assert forall i :: 0 <= i < |s.table.slots| ==> ET.Occupied(s.table.slots[i], 0) == 0;
  }

  /** Something is scheduled from outside after a stop. */
  predicate OutsideAfterStop(acts: seq<Action>) {
    exists i, j :: 0 <= i < j < |acts| && acts[i].Stop? && acts[j].Outside?
  }

  lemma {:induction false} LateIff(s: System, acts: seq<Action>)
    requires LegalRun(s, acts)
    ensures Run(s, acts).late <==>
      s.late || OutsideAfterStop(acts) || (s.stopped && exists j :: 0 <= j < |acts| && acts[j].Outside?)
    decreases |acts|
  {
    if acts != [] {
      var a, rest := acts[0], acts[1..];
      LateStep(s, a);
      hide Apply;
      LateIff(Apply(s, a), rest);
      assert forall j :: 0 <= j < |rest| ==> rest[j] == acts[j + 1];
      assert (exists j :: 0 <= j < |acts| && acts[j].Outside?) <==>
        a.Outside? || exists j :: 0 <= j < |rest| && rest[j].Outside? by {
        assert forall j :: 0 < j < |acts| ==> acts[j] == rest[j - 1];
      }
      assert OutsideAfterStop(acts) <==>
        OutsideAfterStop(rest) || (a.Stop? && exists j :: 0 <= j < |rest| && rest[j].Outside?) by {
        assert forall j :: 0 < j < |acts| ==> acts[j] == rest[j - 1];
      }
    }
  }

  lemma LateStep(s: System, a: Action)
    requires Enabled(s, a)
    ensures Apply(s, a).late == (s.late || (s.stopped && a.Outside?))
    ensures Apply(s, a).stopped == (s.stopped || a.Stop?)
  {
    hide AsTasks, FirstRunnable, Kept, Due, Quiet, ET.AddEvent, ET.CancelEvent;
  }

  /**
   Over every run without outside scheduling after stop, in which the last idle
   fiber does not end while a fiber is owed to the list: once every worker has
   left its loop the task list is empty, nothing runs, no timer is armed, no
   event is pending, and every fiber has ended except those dropped. At all
   times the counts are not negative.
   */
  lemma CleanShutdown(threads: nat, acts: seq<Action>)
    requires threads > 0 && LegalRun(Initial(threads), acts)
    ensures var s := Run(Initial(threads), acts);
      && s.active >= 0 && s.table.pending >= 0
      && (!OutsideAfterStop(acts) && AllExited(s) && !EverClosesOwing(Initial(threads), acts) ==>
           && s.tasks == [] && s.active == 0 && s.timers == [] && s.table.pending == 0
           && forall f :: 0 <= f < |s.fibers| ==>
                (s.fibers[f] == TERM <==> !Dropped(Initial(threads), acts, f)))
  {
    var s := Run(Initial(threads), acts);
    InitialOk(threads);
    RunKeeps(Initial(threads), acts);
    LateIff(Initial(threads), acts);
    if !s.late && AllExited(s) && !EverClosesOwing(Initial(threads), acts) {
      assert !Initial(threads).workers[0].idleDone;
      ShutdownRun(Initial(threads), acts);
      assert forall w :: 0 <= w < |s.workers| ==> IdleOk(s.workers[w]);
      forall f | 0 <= f < |s.fibers|
        ensures s.fibers[f] == TERM <==> !Dropped(Initial(threads), acts, f)
      {
        AllEnded(s, f);
        LostRun(Initial(threads), acts, f);
      }
    }
  }

  // -------------------------------------------------------- what can be left

  predicate NoOutside(acts: seq<Action>) {
    forall i :: 0 <= i < |acts| ==> !acts[i].Outside?
  }

  /** Every idle fiber has ended, and no worker is between taking a task and counting it out. */
  ghost predicate Resting(s: System) {
    && Inv(s) && AllDone(s)
    && (forall w :: 0 <= w < |s.workers| ==> s.workers[w].pc == Top || s.workers[w].pc.Left? || s.workers[w].pc == Exited)
    && (forall i :: 0 <= i < |s.tasks| ==> s.tasks[i].FiberTask?)
  }

  lemma QuietRests(s: System)
    requires Inv(s) && AllIdleOk(s) && AllDone(s) && Quiet(s)
    ensures Resting(s)
  {
    TotalZero(s.workers, PcActive, 0);
    forall w | 0 <= w < |s.workers|
      ensures s.workers[w].pc == Top || s.workers[w].pc.Left? || s.workers[w].pc == Exited
    {
      assert IdleOk(s.workers[w]) && PcActive(s.workers[w], 0) == 0 && s.workers[w].idleDone;
    }
  }

  lemma SettleRests(s: System, w: nat)
    requires Resting(s) && w < |s.workers| && s.workers[w].pc.Left?
    ensures s.workers[w].pc.fiber < |s.fibers| && Enabled(s, Settle(w)) && Resting(SettleStep(s, w))
    ensures SettleStep(s, w).workers == s.workers[w := s.workers[w].(pc := Top)]
    ensures Owing(s) || s.tasks != [] ==> Owing(SettleStep(s, w)) || SettleStep(s, w).tasks != []
  {
    hide Inv, Owing;
    LeftExists(s, w);
    SettleKeeps(s, w);
    StillOwed(s, w);
  }

  lemma LeftExists(s: System, w: nat)
    requires Inv(s) && w < |s.workers| && s.workers[w].pc.Left?
    ensures s.workers[w].pc.fiber < |s.fibers|
  {
    assert FiberOk(s, s.workers[w].pc.fiber);
    Moved(s, s, w, s.workers[w].pc.fiber);
  }

  /** What one worker owes is put back by it or by another. */
  lemma StillOwed(s: System, w: nat)
    requires Resting(s) && w < |s.workers| && s.workers[w].pc.Left? && s.workers[w].pc.fiber < |s.fibers|
    ensures Owing(s) || s.tasks != [] ==> Owing(SettleStep(s, w)) || SettleStep(s, w).tasks != []
  {
    assert ReadyOk(s, s.workers[w]);
    hide FiberOk, CountsOk, GotOk;
    var t := SettleStep(s, w);
    if Owing(s) && t.tasks == [] {
      var v :| 0 <= v < |s.workers| && Owes(s, s.workers[v]);
      assert ReadyOk(s, s.workers[v]);
      assert Owes(t, t.workers[v]);
    }
  }

  /** Lets every worker settle its fiber. */
  lemma {:induction false} SettleAll(s: System, k: nat) returns (acts: seq<Action>, t: System)
    requires Resting(s) && k <= |s.workers|
    requires forall v :: 0 <= v < k ==> !s.workers[v].pc.Left?
    ensures Reaches(s, acts, t) && NoOutside(acts) && Resting(t) && |t.workers| == |s.workers|
    ensures forall v :: 0 <= v < |t.workers| ==> !t.workers[v].pc.Left?
    ensures forall v :: 0 <= v < |t.workers| && s.workers[v].pc != Exited ==> t.workers[v].pc == Top
    ensures Owing(s) || s.tasks != [] ==> t.tasks != []
    decreases |s.workers| - k
  {
    hide Inv, SettleStep, Enabled, ReadyOk;
    if k == |s.workers| {
      acts, t := [], s;
    } else if s.workers[k].pc.Left? {
      SettleRests(s, k);
      var u := SettleStep(s, k);
      OneStep(s, Settle(k));
      var rest;
      rest, t := SettleAll(u, k + 1);
      hide Reaches, Resting, Owing;
      ThenRun(s, [Settle(k)], u, rest, t);
      acts := [Settle(k)] + rest;
    } else {
      acts, t := SettleAll(s, k + 1);
    }
  }

  /** The first task is a fiber at rest. */
  lemma FrontRests(s: System)
    requires Resting(s) && s.tasks != [] && forall w :: 0 <= w < |s.workers| ==> !s.workers[w].pc.Left?
    ensures var f := s.tasks[0].fiber; f < |s.fibers| && s.fibers[f] != EXEC && !Ended(s, f)
  {
    var f := s.tasks[0].fiber;
    assert FiberOk(s, f);
    TotalSplit(s.tasks, 0, TaskTokens, f);
    TotalZero(s.workers, PcRuns, f);
    TotalZero(s.workers, PcLeaves, f);
  }

  /** A worker takes the first task; its fiber arms a timer and ends. */
  function Errand(w: nat): seq<Action> {
    [Pick(w), Dispatch(w), AddTimer(w, 0, false), Finish(w), Leave(w), Settle(w)]
  }

  lemma ErrandStarts(s: System, w: nat, f: FiberId, s1: System, s2: System)
    requires w < |s.workers| && s.workers[w].pc == Top && s.tasks != [] && s.tasks[0] == FiberTask(f)
    requires f < |s.fibers| && s.fibers[f] != EXEC && !Ended(s, f)
    requires s1 == SetPc(s, w, Got(FiberTask(f))).(tasks := s.tasks[1..], active := s.active + 1)
    requires s2 == SetPc(s1, w, Running(f, None, false)).(fibers := s.fibers[f := EXEC])
    ensures StepTo(s, Pick(w), s1) && StepTo(s1, Dispatch(w), s2)
  {
  }

  lemma ErrandEnds(s2: System, w: nat, f: FiberId, s3: System, s4: System, s5: System, s6: System)
    requires w < |s2.workers| && s2.workers[w].pc == Running(f, None, false) && f < |s2.fibers|
    requires s3 == s2.(timers := s2.timers + [Armed(Func(0), false)])
    requires s4 == SetPc(s3, w, Leaving(f, false)).(fibers := s2.fibers[f := TERM])
    requires s5 == SetPc(s4, w, Left(f, false)).(active := s4.active - 1)
    requires s6 == SetPc(s5, w, Top)
    ensures StepTo(s2, AddTimer(w, 0, false), s3) && StepTo(s3, Finish(w), s4)
    ensures StepTo(s4, Leave(w), s5) && StepTo(s5, Settle(w), s6)
  {
  }

  lemma ErrandDone(s: System, w: nat) returns (t: System)
    requires Resting(s) && s.tasks != [] && w < |s.workers| && s.workers[w].pc == Top
    requires forall v :: 0 <= v < |s.workers| ==> !s.workers[v].pc.Left?
    ensures Reaches(s, Errand(w), t) && Resting(t)
    ensures t.workers == s.workers && t.tasks == s.tasks[1..] && |t.timers| == |s.timers| + 1
  {
    FrontRests(s);
    var f := s.tasks[0].fiber;
    var s1 := SetPc(s, w, Got(FiberTask(f))).(tasks := s.tasks[1..], active := s.active + 1);
    var s2 := SetPc(s1, w, Running(f, None, false)).(fibers := s.fibers[f := EXEC]);
    var s3 := s2.(timers := s2.timers + [Armed(Func(0), false)]);
    var s4 := SetPc(s3, w, Leaving(f, false)).(fibers := s2.fibers[f := TERM]);
    var s5 := SetPc(s4, w, Left(f, false)).(active := s4.active - 1);
    t := SetPc(s5, w, Top);
    hide Inv, Ended, StepTo, Reaches, Total, FiberOk;
    ErrandStarts(s, w, f, s1, s2);
    ErrandEnds(s2, w, f, s3, s4, s5, t);
    assert t.workers == s.workers;
    hide *;
    Chain([s, s1, s2, s3, s4, s5, t], Errand(w));
    RestsAgain(s, Errand(w), t);
  }

  lemma RestsAgain(s: System, acts: seq<Action>, t: System)
    requires Resting(s) && Reaches(s, acts, t) && s.tasks != [] && t.workers == s.workers && t.tasks == s.tasks[1..]
    ensures Resting(t)
  {
    hide Inv, LegalRun, Run;
    RunKeeps(s, acts);
  }

  /** One worker serves all tasks; each arms a timer. */
  lemma {:induction false} ServeAll(s: System, w: nat) returns (acts: seq<Action>, t: System)
    requires Resting(s) && w < |s.workers| && s.workers[w].pc == Top
    requires forall v :: 0 <= v < |s.workers| ==> !s.workers[v].pc.Left?
    ensures Reaches(s, acts, t) && NoOutside(acts) && Resting(t)
    ensures t.workers == s.workers && t.tasks == [] && |t.timers| == |s.timers| + |s.tasks|
    decreases |s.tasks|
  {
    if s.tasks == [] {
      acts, t := [], s;
    } else {
      var u := ErrandDone(s, w);
      var rest;
      rest, t := ServeAll(u, w);
      hide Resting, Reaches;
      ThenRun(s, Errand(w), u, rest, t);
      acts := Errand(w) + rest;
    }
  }

  /** Workers with nothing to do exit. */
  lemma {:induction false} ExitAll(s: System, k: nat) returns (acts: seq<Action>, t: System)
    requires AllDone(s) && s.tasks == [] && k <= |s.workers|
    requires forall v :: 0 <= v < |s.workers| ==> s.workers[v].pc == Exited || (v >= k && s.workers[v].pc == Top)
    ensures Reaches(s, acts, t) && NoOutside(acts) && AllExited(t) && t.timers == s.timers
    decreases |s.workers| - k
  {
    if k == |s.workers| {
      acts, t := [], s;
    } else if s.workers[k].pc == Top {
      var u := PickStep(s, k);
      OneStep(s, Pick(k));
      var rest;
      rest, t := ExitAll(u, k + 1);
      hide Reaches;
      ThenRun(s, [Pick(k)], u, rest, t);
      acts := [Pick(k)] + rest;
    } else {
      acts, t := ExitAll(s, k + 1);
    }
  }

  /** A run in which a fiber that was owed runs again, and leaves a timer behind. */
  lemma LeavesTimer(s: System) returns (acts: seq<Action>, t: System)
    requires Resting(s) && Owing(s)
    ensures Reaches(s, acts, t) && NoOutside(acts) && AllExited(t) && t.timers != []
  {
    var w :| 0 <= w < |s.workers| && Owes(s, s.workers[w]);
    var a1, s1 := SettleAll(s, 0);
    assert s1.workers[w].pc == Top;
    var a2, s2 := ServeAll(s1, w);
    var a3, s3 := ExitAll(s2, 0);
    hide Reaches, Resting, Quiet;
    ThenRun(s, a1, s1, a2, s2);
    ThenRun(s, a1 + a2, s2, a3, s3);
    acts, t := a1 + a2 + a3, s3;
  }

  lemma {:induction false} SealedRun(s: System, acts: seq<Action>)
    requires Inv(s) && AllIdleOk(s) && AllDone(s) && Sealed(s) && LegalRun(s, acts) && NoOutside(acts) && |s.workers| > 0
    ensures Sealed(Run(s, acts))
    decreases |acts|
  {
    if acts != [] {
      var a, t := acts[0], Apply(s, acts[0]);
      assert !a.Outside?;
      StepKeeps(s, a);
      if a.Stop? {
        assert t == s;
      } else {
        assert IdleOk(s.workers[a.w]) && s.workers[a.w].idleDone;
        SealedStays(s, a);
        WorkerDone(s, a);
        QuietDoes(s, a);
        DoneStays(s, a);
      }
      hide Sealed, Inv, Apply, AllIdleOk, AllDone;
      SealedRun(t, acts[1..]);
    }
  }

  /** A worker whose idle fiber has ended stays that way. */
  lemma DoneStays(s: System, a: Action)
    requires Enabled(s, a) && (a.Pick? || a.Settle?) && AllDone(s) && AllIdleOk(s)
    requires OneMoved(s, Apply(s, a), a.w)
    ensures AllDone(Apply(s, a)) && AllIdleOk(Apply(s, a))
  {
    var t := Apply(s, a);
    assert s.workers[a.w].idleDone;
    forall v | 0 <= v < |t.workers|
      ensures t.workers[v].idleDone && IdleOk(t.workers[v])
    {
      assert s.workers[v].idleDone && IdleOk(s.workers[v]);
    }
  }

  /** No task, no active worker, no timer and no pending event. */
  predicate NothingLeft(s: System) {
    s.tasks == [] && s.active == 0 && s.timers == [] && s.table.pending == 0
  }

  lemma SealedLeft(s: System)
    requires Sealed(s)
    ensures NothingLeft(s)
  {
    hide Owing;
  }

  /**
   At the moment when the last idle fiber has ended, every continuation without
   outside scheduling leaves nothing behind, if and only if no worker still owes
   a fiber in `READY` to the list. The worker has counted the fiber out by then,
   so the stopping check does not see it.
   */
  lemma ShutdownIsCleanIff(s: System)
    requires Inv(s) && AllIdleOk(s) && AllDone(s) && Quiet(s) && |s.workers| > 0
    ensures (forall acts :: LegalRun(s, acts) && NoOutside(acts) && AllExited(Run(s, acts)) ==> NothingLeft(Run(s, acts)))
      <==> !Owing(s)
  {
    assert Sealed(s) <==> !Owing(s);
    hide Inv, AllIdleOk, AllDone, Quiet, Sealed, AllExited, NoOutside;
    if Owing(s) {
      QuietRests(s);
      var acts, t := LeavesTimer(s);
      assert LegalRun(s, acts) && Run(s, acts) == t && !NothingLeft(t);
    } else {
      forall acts | LegalRun(s, acts) && NoOutside(acts)
        ensures NothingLeft(Run(s, acts))
      {
        SealedRun(s, acts);
        SealedLeft(Run(s, acts));
      }
    }
  }

  /** If no fiber sets itself to `READY`, or there is one worker, no fiber is owed when the last idle fiber ends. */
  lemma {:induction false} NeverOwing(s: System, acts: seq<Action>)
    requires LegalRun(s, acts)
    requires |s.workers| == 1 || (NoReady(s) && forall i :: 0 <= i < |acts| ==> !acts[i].YieldReady?)
    ensures !EverClosesOwing(s, acts)
    decreases |acts|
  {
    if acts != [] {
      NotOwing(s, acts[0]);
      hide Apply, NoReady, ClosesOwing;
      NeverOwing(Apply(s, acts[0]), acts[1..]);
    }
  }

  predicate NoReady(s: System) {
    forall f :: 0 <= f < |s.fibers| ==> s.fibers[f] != READY
  }

  lemma NoReadyKept(s: System, a: Action)
    requires Enabled(s, a) && NoReady(s) && !a.YieldReady?
    ensures NoReady(Apply(s, a))
  {
    hide Quiet, ET.AddEvent, FirstRunnable, Kept, Due;
    assert forall f :: 0 <= f < |s.fibers| ==> s.fibers[f] != READY;
  }

  /** One worker moved, and its idle fiber stays as it was. */
  predicate MovesOne(s: System, t: System, w: nat) {
    && w < |s.workers| == |t.workers| && t.workers == s.workers[w := t.workers[w]]
    && t.workers[w].idleDone == s.workers[w].idleDone
  }

  lemma LoopMoves(s: System, w: nat)
    requires w < |s.workers|
    ensures MovesOne(s, PickStep(s, w), w)
    ensures s.workers[w].pc.Got? ==> MovesOne(s, DispatchStep(s, w), w)
    ensures s.workers[w].pc.Left? && s.workers[w].pc.fiber < |s.fibers| ==> MovesOne(s, SettleStep(s, w), w)
  {
    hide FirstRunnable, Ended;
  }

  /** Only the stopping check ends an idle fiber. */
  lemma EndedByCheck(s: System, a: Action)
    requires Enabled(s, a) && !a.Outside? && !a.Stop? && !a.Check?
    ensures MovesOne(s, Apply(s, a), a.w)
  {
    match a
    case Pick(w) => LoopMoves(s, w);
    case Dispatch(w) => LoopMoves(s, w);
    case Settle(w) => LoopMoves(s, w);
    case _ => OthersMove(s, a);
    hide *;
  }

  lemma OthersMove(s: System, a: Action)
    requires Enabled(s, a) && !a.Outside? && !a.Stop? && !a.Check? && !a.Pick? && !a.Dispatch? && !a.Settle?
    ensures MovesOne(s, Apply(s, a), a.w)
  {
    hide Quiet, PickStep, DispatchStep, SettleStep, Kept, Due, AsTasks, ET.AddEvent, ET.CancelEvent, ET.Sized, ET.Free;
  }

  lemma CheckMoves(s: System, w: nat)
    requires Enabled(s, Check(w))
    ensures |Apply(s, Check(w)).workers| == |s.workers|
    ensures |s.workers| == 1 ==> !ClosesOwing(s, Check(w))
  {
    hide Quiet;
  }

  lemma OneWorker(s: System, a: Action)
    requires Enabled(s, a)
    ensures |Apply(s, a).workers| == |s.workers| && (|s.workers| == 1 ==> !ClosesOwing(s, a))
  {
    hide Owing, Quiet, PickStep, DispatchStep, SettleStep, CancelEventStep, Kept, Due, AsTasks, ET.AddEvent;
    if a.Check? {
      CheckMoves(s, a.w);
    } else if a.Outside? || a.Stop? {
      assert Apply(s, a).workers == s.workers;
    } else {
      EndedByCheck(s, a);
    }
    hide Apply;
  }

  lemma NotOwing(s: System, a: Action)
    requires Enabled(s, a) && (|s.workers| == 1 || (NoReady(s) && !a.YieldReady?))
    ensures !ClosesOwing(s, a) && |Apply(s, a).workers| == |s.workers|
    ensures NoReady(s) && !a.YieldReady? ==> NoReady(Apply(s, a))
  {
    OneWorker(s, a);
    hide Apply, AllDone;
    if NoReady(s) && !a.YieldReady? {
      NoReadyKept(s, a);
    }
  }

  // ------------------------------------------- an unclean shutdown by example

  /** Two workers and one fiber, made for a callback that has been picked. */
  function Two(tasks: seq<Task>, active: int, x0: Worker, x1: Worker, state: State, stopped: bool): System {
    Initial(2).(
      tasks := tasks, active := active, workers := [x0, x1], fibers := [state], stopped := stopped,
      scheduled := [Func(0)], picked := [Func(0)])
  }

  /** A worker runs a callback. */
  lemma FiberMade()
    ensures var s1 := Push(Initial(2), CbTask(Func(0)));
      var s2 := Initial(2).(workers := [Worker(Top, false), Worker(Got(CbTask(Func(0))), false)], active := 1,
                            scheduled := [Func(0)], picked := [Func(0)]);
      var s3 := Two([], 1, Worker(Top, false), Worker(Running(0, None, true), false), EXEC, false);
      StepTo(Initial(2), Outside(0), s1) && StepTo(s1, Pick(1), s2) && StepTo(s2, Dispatch(1), s3)
  {
    hide ET.Empty;
    assert seq(2, _ => Worker(Top, false)) == [Worker(Top, false), Worker(Top, false)];
  }

  /** The callback gives way: its fiber is now scheduled as such. */
  lemma FiberScheduled()
    ensures var s3 := Two([], 1, Worker(Top, false), Worker(Running(0, None, true), false), EXEC, false);
      var s4 := Two([FiberTask(0)], 1, Worker(Top, false), Worker(Leaving(0, true), false), EXEC, false);
      var s5 := Two([FiberTask(0)], 0, Worker(Top, false), Worker(Left(0, true), false), EXEC, false);
      StepTo(s3, SuspendSelf(1), s4) && StepTo(s4, Leave(1), s5) && StepTo(s5, Settle(1), Scheduled())
  {
    hide ET.Empty;
  }

  function Scheduled(): System {
    Two([FiberTask(0)], 0, Worker(Top, false), Worker(Top, false), HOLD, false)
  }

  /** After stop it sets itself to `READY`, and the idle fiber of the other worker ends. */
  lemma FirstEnds()
    ensures var s7 := Scheduled().(stopped := true);
      var s8 := Two([], 1, Worker(Top, false), Worker(Got(FiberTask(0)), false), HOLD, true);
      var s9 := Two([], 1, Worker(Top, false), Worker(Running(0, None, false), false), EXEC, true);
      var s10 := Two([], 1, Worker(Top, false), Worker(Leaving(0, false), false), READY, true);
      var s11 := Two([], 0, Worker(Top, false), Worker(Left(0, false), false), READY, true);
      var s12 := Two([], 0, Worker(Idle, false), Worker(Left(0, false), false), READY, true);
      && StepTo(Scheduled(), Stop, s7) && StepTo(s7, Pick(1), s8) && StepTo(s8, Dispatch(1), s9)
      && StepTo(s9, YieldReady(1), s10) && StepTo(s10, Leave(1), s11)
      && StepTo(s11, Pick(0), s12) && StepTo(s12, Check(0), FirstEnded())
  {
  }

  function FirstEnded(): System {
    Two([], 0, Worker(Top, true), Worker(Left(0, false), false), READY, true)
  }

  /** The other worker runs the fiber, which does the same again, and the second idle fiber ends. */
  lemma SecondEnds()
    ensures var s14 := Two([FiberTask(0)], 0, Worker(Top, true), Worker(Top, false), READY, true);
      var s15 := Two([], 1, Worker(Got(FiberTask(0)), true), Worker(Top, false), READY, true);
      var s16 := Two([], 1, Worker(Running(0, None, false), true), Worker(Top, false), EXEC, true);
      var s17 := Two([], 1, Worker(Leaving(0, false), true), Worker(Top, false), READY, true);
      var s18 := Two([], 0, Worker(Left(0, false), true), Worker(Top, false), READY, true);
      var s19 := Two([], 0, Worker(Left(0, false), true), Worker(Idle, false), READY, true);
      && StepTo(FirstEnded(), Settle(1), s14) && StepTo(s14, Pick(0), s15) && StepTo(s15, Dispatch(0), s16)
      && StepTo(s16, YieldReady(0), s17) && StepTo(s17, Leave(0), s18)
      && StepTo(s18, Pick(1), s19) && StepTo(s19, Check(1), BothEnded())
  {
  }

  function BothEnded(): System {
    Two([], 0, Worker(Left(0, false), true), Worker(Top, true), READY, true)
  }

  /** Both idle fibers have ended, and the first worker still owes the fiber. */
  lemma OwingReached() returns (acts: seq<Action>)
    ensures Reaches(Initial(2), acts, BothEnded())
  {
    hide *;
    var s1 := Push(Initial(2), CbTask(Func(0)));
    var s2 := Initial(2).(workers := [Worker(Top, false), Worker(Got(CbTask(Func(0))), false)], active := 1,
                          scheduled := [Func(0)], picked := [Func(0)]);
    var s3 := Two([], 1, Worker(Top, false), Worker(Running(0, None, true), false), EXEC, false);
    var s4 := Two([FiberTask(0)], 1, Worker(Top, false), Worker(Leaving(0, true), false), EXEC, false);
    var s5 := Two([FiberTask(0)], 0, Worker(Top, false), Worker(Left(0, true), false), EXEC, false);
    var s7 := Scheduled().(stopped := true);
    var s8 := Two([], 1, Worker(Top, false), Worker(Got(FiberTask(0)), false), HOLD, true);
    var s9 := Two([], 1, Worker(Top, false), Worker(Running(0, None, false), false), EXEC, true);
    var s10 := Two([], 1, Worker(Top, false), Worker(Leaving(0, false), false), READY, true);
    var s11 := Two([], 0, Worker(Top, false), Worker(Left(0, false), false), READY, true);
    var s12 := Two([], 0, Worker(Idle, false), Worker(Left(0, false), false), READY, true);
    var s14 := Two([FiberTask(0)], 0, Worker(Top, true), Worker(Top, false), READY, true);
    var s15 := Two([], 1, Worker(Got(FiberTask(0)), true), Worker(Top, false), READY, true);
    var s16 := Two([], 1, Worker(Running(0, None, false), true), Worker(Top, false), EXEC, true);
    var s17 := Two([], 1, Worker(Leaving(0, false), true), Worker(Top, false), READY, true);
    var s18 := Two([], 0, Worker(Left(0, false), true), Worker(Top, false), READY, true);
    var s19 := Two([], 0, Worker(Left(0, false), true), Worker(Idle, false), READY, true);
    FiberMade();
    FiberScheduled();
    FirstEnds();
    SecondEnds();
    var made := [Outside(0), Pick(1), Dispatch(1), SuspendSelf(1), Leave(1), Settle(1)];
    var first := [Stop, Pick(1), Dispatch(1), YieldReady(1), Leave(1), Pick(0), Check(0)];
    var second := [Settle(1), Pick(0), Dispatch(0), YieldReady(0), Leave(0), Pick(1), Check(1)];
    Chain([Initial(2), s1, s2, s3, s4, s5, Scheduled()], made);
    Chain([Scheduled(), s7, s8, s9, s10, s11, s12, FirstEnded()], first);
    Chain([FirstEnded(), s14, s15, s16, s17, s18, s19, BothEnded()], second);
    ThenRun(Initial(2), made, Scheduled(), first, FirstEnded());
    ThenRun(Initial(2), made + first, FirstEnded(), second, BothEnded());
    acts := made + first + second;
  }

  /**
   Without outside scheduling after stop, two workers can leave their loops
   while a timer is armed: a fiber in `READY` is counted out before it is put
   back, so the last idle fiber ends while it is owed.
   */
  lemma UncleanShutdown() returns (acts: seq<Action>)
    ensures LegalRun(Initial(2), acts) && EverClosesOwing(Initial(2), acts)
    ensures !OutsideAfterStop(acts)
    ensures var s := Run(Initial(2), acts); AllExited(s) && s.timers != []
  {
    var closing := OwingReached();
    var s := BothEnded();
    InitialOk(2);
    RunKeeps(Initial(2), closing);
    assert Owes(s, s.workers[0]);
    hide Inv, Owing, AllExited, Quiet, Reaches;
    assert Resting(s);
    hide Resting, BothEnded;
    var more, t := LeavesTimer(s);
    ThenRun(Initial(2), closing, s, more, t);
    acts := closing + more;
    NotLate(s, more);
    LateIff(Initial(2), acts);
    CleanShutdown(2, acts);
  }

  lemma {:induction false} NotLate(s: System, acts: seq<Action>)
    requires LegalRun(s, acts) && NoOutside(acts) && !s.late
    ensures !Run(s, acts).late
    decreases |acts|
  {
    if acts != [] {
      assert Apply(s, acts[0]).late == s.late;
      hide Apply;
      NotLate(Apply(s, acts[0]), acts[1..]);
    }
  }
}
