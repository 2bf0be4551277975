/** What is put on the task list, accounted for by what was asked: calls, registrations and timers due. */
module Accounting {

  import opened Wrappers
  import opened Counting
  import opened Scheduling
  import ET = EventTable

  // --------------------------------------------------------------- timers due

  /** Positions in ascending order. */
  predicate Ascending(ix: seq<nat>, n: nat) {
    && (forall k :: 0 <= k < |ix| ==> ix[k] < n)
    && (forall j, k :: 0 <= j < k < |ix| ==> ix[j] < ix[k])
  }

  lemma {:induction false} DuePush(timers: seq<Armed>, due: seq<bool>, t: Armed, d: bool)
    requires |timers| == |due|
    ensures Due(timers + [t], due + [d]) == Due(timers, due) + if d then [t.cb] else []
    ensures Kept(timers + [t], due + [d]) == Kept(timers, due) + if d && !t.recurring then [] else [t]
  {
    if timers == [] {
      assert timers + [t] == [t] && due + [d] == [d] && [t][1..] == [] && [d][1..] == [];
    } else {
      assert (timers + [t])[1..] == timers[1..] + [t] && (due + [d])[1..] == due[1..] + [d];
      DuePush(timers[1..], due[1..], t, d);
    }
  }

  lemma AscendingPush(ix: seq<nat>, n: nat, last: bool)
    requires Ascending(ix, n)
    ensures Ascending(ix + (if last then [n] else []), n + 1)
  {
  }

  /** The callbacks handed over are those of the timers due, each once and in the order of the list. */
  lemma {:induction false} DueInOrder(timers: seq<Armed>, due: seq<bool>) returns (ix: seq<nat>)
    requires |timers| == |due|
    ensures Ascending(ix, |timers|) && |ix| == |Due(timers, due)|
    ensures forall k :: 0 <= k < |ix| ==> due[ix[k]] && Due(timers, due)[k] == timers[ix[k]].cb
    ensures forall i :: 0 <= i < |timers| && due[i] ==> i in ix
    decreases |timers|
  {
    ix := [];
    if timers != [] {
      var n := |timers| - 1;
      var front := DueInOrder(timers[..n], due[..n]);
      hide Due, Ascending;
      assert timers == timers[..n] + [timers[n]] && due == due[..n] + [due[n]];
      DuePush(timers[..n], due[..n], timers[n], due[n]);
      AscendingPush(front, n, due[n]);
      AscendingIn(front, n);
      ix := front + if due[n] then [n] else [];
    }
  }

  lemma AscendingIn(ix: seq<nat>, n: nat)
    requires Ascending(ix, n)
    ensures forall k :: 0 <= k < |ix| ==> ix[k] < n
  {
  }

  /** The timers that stay are those not due and the recurring ones, in the order of the list. */
  lemma {:induction false} KeptInOrder(timers: seq<Armed>, due: seq<bool>) returns (ix: seq<nat>)
    requires |timers| == |due|
    ensures Ascending(ix, |timers|) && |ix| == |Kept(timers, due)|
    ensures forall k :: 0 <= k < |ix| ==> (!due[ix[k]] || timers[ix[k]].recurring) && Kept(timers, due)[k] == timers[ix[k]]
    ensures forall i :: 0 <= i < |timers| && (!due[i] || timers[i].recurring) ==> i in ix
    decreases |timers|
  {
    ix := [];
    if timers != [] {
      var n := |timers| - 1;
      var front := KeptInOrder(timers[..n], due[..n]);
      hide Kept, Ascending;
      assert timers == timers[..n] + [timers[n]] && due == due[..n] + [due[n]];
      DuePush(timers[..n], due[..n], timers[n], due[n]);
      AscendingPush(front, n, !due[n] || timers[n].recurring);
      AscendingIn(front, n);
      ix := front + if !due[n] || timers[n].recurring then [n] else [];
    }
  }

  // ----------------------------------------------------------------- counting

  /** How often an element occurs. */
  function Times<T(==)>(xs: seq<T>, x: T): nat {
    if xs == [] then 0 else Times(xs[..|xs| - 1], x) + if xs[|xs| - 1] == x then 1 else 0
  }

  lemma TimesPush<T>(xs: seq<T>, y: T, x: T)
    ensures Times(xs + [y], x) == Times(xs, x) + if y == x then 1 else 0
  {
    assert (xs + [y])[..|xs|] == xs;
  }

  lemma {:induction false} TimesConcat<T>(xs: seq<T>, ys: seq<T>, x: T)
    ensures Times(xs + ys, x) == Times(xs, x) + Times(ys, x)
  {
    if ys == [] {
      assert xs + ys == xs;
    } else {
      var n := |ys| - 1;
      TimesConcat(xs, ys[..n], x);
      assert (xs + ys)[..|xs| + n] == xs + ys[..n];
    }
  }

  /** How many of the first `n` timers are due and carry the callback. */
  function DueTimes(timers: seq<Armed>, due: seq<bool>, cb: Callback, n: nat): nat
    requires n <= |timers| == |due|
  {
    if n == 0 then 0
    else DueTimes(timers, due, cb, n - 1) + if due[n - 1] && timers[n - 1].cb == cb then 1 else 0
  }

  /** How many of the first `n` timers leave the set: they are due and do not recur. */
  function GoneTimes(timers: seq<Armed>, due: seq<bool>, t: Armed, n: nat): nat
    requires n <= |timers| == |due|
  {
    if n == 0 then 0
    else GoneTimes(timers, due, t, n - 1) + if due[n - 1] && timers[n - 1] == t && !t.recurring then 1 else 0
  }

  /** For every callback, as many are handed over as timers with it are due. */
  lemma {:induction false} DueCounted(timers: seq<Armed>, due: seq<bool>, cb: Callback, n: nat)
    requires n <= |timers| == |due|
    ensures Times(Due(timers[..n], due[..n]), cb) == DueTimes(timers, due, cb, n)
  {
    if n == 0 {
      assert timers[..n] == [] && due[..n] == [];
    } else {
      hide Due, Times;
      DueCounted(timers, due, cb, n - 1);
      DuePush(timers[..n - 1], due[..n - 1], timers[n - 1], due[n - 1]);
      assert timers[..n] == timers[..n - 1] + [timers[n - 1]] && due[..n] == due[..n - 1] + [due[n - 1]];
      var before := Due(timers[..n - 1], due[..n - 1]);
      TimesPush(before, timers[n - 1].cb, cb);
      assert before + [] == before;
    }
  }

  lemma {:induction false} KeptCounted(timers: seq<Armed>, due: seq<bool>, t: Armed, n: nat)
    requires n <= |timers| == |due|
    ensures Times(Kept(timers[..n], due[..n]), t) + GoneTimes(timers, due, t, n) == Times(timers[..n], t)
  {
    if n == 0 {
      assert timers[..n] == [] && due[..n] == [];
    } else {
      hide Kept, Times;
      KeptCounted(timers, due, t, n - 1);
      assert timers[..n] == timers[..n - 1] + [timers[n - 1]] && due[..n] == due[..n - 1] + [due[n - 1]];
      DuePush(timers[..n - 1], due[..n - 1], timers[n - 1], due[n - 1]);
      var before := Kept(timers[..n - 1], due[..n - 1]);
      TimesPush(before, timers[n - 1], t);
      TimesPush(timers[..n - 1], timers[n - 1], t);
      assert before + [] == before;
    }
  }

  // ------------------------------------------------------------ over whole runs

  /** All callbacks, numbered. */
  function CbOf(k: nat): Callback {
    if k % 2 == 0 then Func(k / 2) else Wake(k / 2)
  }

  function KeyOf(cb: Callback): (k: nat)
    ensures CbOf(k) == cb
  {
    match cb
    case Func(id) => 2 * id
    case Wake(f) => 2 * f + 1
  }

  function PolledTimes(x: Worker, k: nat): nat {
    if x.pc.Polled? then Times(x.pc.expired, CbOf(k)) else 0
  }

  function SlotTimes(slot: Option<ET.Entry>, k: nat): nat {
    if slot.Some? && slot.value.reg.Call? && CbOf(k) == Func(slot.value.reg.cb) then 1 else 0
  }

  /** How often a callback was put on the list, is in a poller's hands, or is registered for an event. */
  ghost function Account(s: System, k: nat): nat {
    Times(s.scheduled, CbOf(k)) + Total(s.workers, PolledTimes, k) + Total(s.table.slots, SlotTimes, k)
  }

  /** What one action asks for, read off the action, the timers armed and nothing else. */
  function AskedNow(s: System, a: Action, cb: Callback): nat
    requires Enabled(s, a)
  {
    match a
    case Schedule(_, id) => if cb == Func(id) then 1 else 0
    case Outside(id) => if cb == Func(id) then 1 else 0
    case AddEvent(_, _, _, id, ok) => if ok && cb == Func(id) then 1 else 0
    case Expire(_, due) => DueTimes(s.timers, due, cb, |s.timers|)
    case _ => 0
  }

  function Asked(s: System, acts: seq<Action>, cb: Callback): nat
    requires LegalRun(s, acts)
    decreases |acts|
  {
    if acts == [] then 0 else AskedNow(s, acts[0], cb) + Asked(Apply(s, acts[0]), acts[1..], cb)
  }

  lemma WorkerAccount(s: System, t: System, w: nat, k: nat)
    requires w < |s.workers| == |t.workers| && t.workers == s.workers[w := t.workers[w]]
    ensures Total(t.workers, PolledTimes, k) + PolledTimes(s.workers[w], k)
         == Total(s.workers, PolledTimes, k) + PolledTimes(t.workers[w], k)
  {
    TotalUpdate(s.workers, w, t.workers[w], PolledTimes, k);
  }

  lemma PushAccount(s: System, task: Task, k: nat)
    ensures Account(Push(s, task), k) == Account(s, k) + if task == CbTask(CbOf(k)) then 1 else 0
  {
    if task.CbTask? {
      TimesPush(s.scheduled, task.cb, CbOf(k));
    }
  }

  lemma OutsideAccount(s: System, id: nat, k: nat)
    ensures Account(Apply(s, Outside(id)), k) == Account(s, k) + if CbOf(k) == Func(id) then 1 else 0
  {
    PushAccount(s, CbTask(Func(id)), k);
    hide Times, Total, CbOf;
  }

  lemma CancelAccount(s: System, fd: nat, ev: ET.Event, ok: bool, k: nat)
    requires ET.Sized(s.table)
    ensures Account(CancelEventStep(s, fd, ev, ok), k) == Account(s, k)
  {
    var (table, out) := ET.CancelEvent(s.table, fd, ev, ok);
    ET.CancelTotal(s.table, fd, ev, ok, SlotTimes, k);
    if out.Some? {
      PushAccount(s, AsTask(out.value.reg), k);
    }
    hide Times, Total;
  }

  lemma ExpireAccount(s: System, w: nat, due: seq<bool>, k: nat)
    requires Enabled(s, Expire(w, due))
    ensures Account(Apply(s, Expire(w, due)), k) == Account(s, k) + DueTimes(s.timers, due, CbOf(k), |s.timers|)
  {
    WorkerAccount(s, Apply(s, Expire(w, due)), w, k);
    DueCounted(s.timers, due, CbOf(k), |s.timers|);
    assert s.timers[..|s.timers|] == s.timers && due[..|s.timers|] == due;
    hide Times, Total, Due, Kept, DueTimes, CbOf;
  }

  lemma ScheduledAccount(s: System, w: nat, k: nat)
    requires Enabled(s, ScheduleExpired(w))
    ensures Account(Apply(s, ScheduleExpired(w)), k) == Account(s, k)
  {
    WorkerAccount(s, Apply(s, ScheduleExpired(w)), w, k);
    TimesConcat(s.scheduled, s.workers[w].pc.expired, CbOf(k));
    hide Times, Total, AsTasks, CbOf;
  }

  lemma LoopAccount(s: System, w: nat, k: nat)
    requires w < |s.workers|
    ensures s.workers[w].pc == Top ==> Account(PickStep(s, w), k) == Account(s, k)
    ensures s.workers[w].pc.Got? ==> Account(DispatchStep(s, w), k) == Account(s, k)
    ensures s.workers[w].pc.Left? && s.workers[w].pc.fiber < |s.fibers| ==> Account(SettleStep(s, w), k) == Account(s, k)
  {
    hide Times, Total, CbOf, FirstRunnable;
    if s.workers[w].pc == Top {
      WorkerAccount(s, PickStep(s, w), w, k);
    } else if s.workers[w].pc.Got? {
      WorkerAccount(s, DispatchStep(s, w), w, k);
    } else if s.workers[w].pc.Left? && s.workers[w].pc.fiber < |s.fibers| {
      WorkerAccount(s, SettleStep(s, w), w, k);
    }
  }

  lemma RegisterAccount(s: System, a: Action, k: nat)
    requires Enabled(s, a) && (a.AddEvent? || a.SuspendIo?)
    ensures Account(Apply(s, a), k) == Account(s, k) + AskedNow(s, a, CbOf(k))
  {
    hide Times, Total, CbOf, ET.AddEvent;
    if a.AddEvent? {
      ET.AddTotal(s.table, a.fd, a.ev, ET.Call(a.id), a.ok, SlotTimes, k);
    } else {
      ET.AddTotal(s.table, a.fd, a.ev, ET.Resume(s.workers[a.w].pc.fiber), a.ok, SlotTimes, k);
      if a.ok {
        WorkerAccount(s, Apply(s, a), a.w, k);
      }
    }
  }

  /** Every action adds to the account what it asks for, and nothing else does. */
  lemma StepAccounted(s: System, a: Action, k: nat)
    requires Enabled(s, a)
    ensures Account(Apply(s, a), k) == Account(s, k) + AskedNow(s, a, CbOf(k))
  {
    hide Account, DueTimes, CbOf, PickStep, DispatchStep, SettleStep, CancelEventStep, Kept, Due, AsTasks, Quiet, ET.AddEvent;
    match a
    case Pick(w) => LoopAccount(s, w, k);
    case Dispatch(w) => LoopAccount(s, w, k);
    case Settle(w) => LoopAccount(s, w, k);
    case Schedule(_, id) => PushAccount(s, CbTask(Func(id)), k);
    case Outside(id) => OutsideAccount(s, id, k);
    case CancelEvent(_, fd, ev, ok) => CancelAccount(s, fd, ev, ok, k);
    case AddEvent(_, _, _, _, _) => RegisterAccount(s, a, k);
    case SuspendIo(_, _, _, _) => RegisterAccount(s, a, k);
    case Expire(w, due) => ExpireAccount(s, w, due, k);
    case ScheduleExpired(w) => ScheduledAccount(s, w, k);
    case _ => OtherAccount(s, a, k);
  }

  /** Actions that ask for no callback and hand none over. */
  lemma OtherAccount(s: System, a: Action, k: nat)
    requires Enabled(s, a) && !a.Pick? && !a.Dispatch? && !a.Settle? && !a.Schedule? && !a.Outside? && !a.CancelEvent?
    requires !a.AddEvent? && !a.SuspendIo? && !a.Expire? && !a.ScheduleExpired?
    ensures Account(Apply(s, a), k) == Account(s, k) && AskedNow(s, a, CbOf(k)) == 0
  {
    hide Times, Total, CbOf, PickStep, DispatchStep, SettleStep, CancelEventStep, Kept, Due, AsTasks, Quiet, ET.AddEvent;
    if !a.Stop? && !a.Spawn? && !a.AddTimer? && !a.CancelTimer? {
      WorkerAccount(s, Apply(s, a), a.w, k);
    }
  }

  lemma {:induction false} RunAccounted(s: System, acts: seq<Action>, k: nat)
    requires LegalRun(s, acts)
    ensures Account(Run(s, acts), k) == Account(s, k) + Asked(s, acts, CbOf(k))
    decreases |acts|
  {
    if acts != [] {
      StepAccounted(s, acts[0], k);
      hide Account, AskedNow, Apply, CbOf;
      RunAccounted(Apply(s, acts[0]), acts[1..], k);
    }
  }

  /**
   Over every run and for every callback: as often as it was asked for - by a
   call of `schedule`, by a registration the kernel accepted, by a timer that
   carries it and is due - it was put on the task list, is in the hands of the
   worker that took it from the timers, or still waits for its event.
   */
  lemma CallbacksAccounted(threads: nat, acts: seq<Action>, cb: Callback)
    requires LegalRun(Initial(threads), acts)
    ensures var s := Run(Initial(threads), acts);
      Times(s.scheduled, cb) + Total(s.workers, PolledTimes, KeyOf(cb)) + Total(s.table.slots, SlotTimes, KeyOf(cb))
      == Asked(Initial(threads), acts, cb)
  {
    var s, k := Initial(threads), KeyOf(cb);
    RunAccounted(s, acts, k);
    ET.NoneTotal(2 * ET.INITIAL_FDS, SlotTimes, k);
    TotalZero(s.workers, PolledTimes, k);
    hide Asked, Run, LegalRun;
  }

  // ------------------------------------------------------------- timers armed

  /** What one action does to the number of times a timer is armed. */
  function ArmedNow(s: System, a: Action, t: Armed): nat
    requires Enabled(s, a)
  {
    match a
    case AddTimer(_, id, recurring) => if t == Armed(Func(id), recurring) then 1 else 0
    case SuspendSleep(w) => if t == Armed(Wake(s.workers[w].pc.fiber), false) then 1 else 0
    case _ => 0
  }

  function DisarmedNow(s: System, a: Action, t: Armed): nat
    requires Enabled(s, a)
  {
    match a
    case CancelTimer(_, i) => if i < |s.timers| && s.timers[i] == t then 1 else 0
    case Expire(_, due) => GoneTimes(s.timers, due, t, |s.timers|)
    case _ => 0
  }

  function ArmedIn(s: System, acts: seq<Action>, t: Armed): nat
    requires LegalRun(s, acts)
    decreases |acts|
  {
    if acts == [] then 0 else ArmedNow(s, acts[0], t) + ArmedIn(Apply(s, acts[0]), acts[1..], t)
  }

  function DisarmedIn(s: System, acts: seq<Action>, t: Armed): nat
    requires LegalRun(s, acts)
    decreases |acts|
  {
    if acts == [] then 0 else DisarmedNow(s, acts[0], t) + DisarmedIn(Apply(s, acts[0]), acts[1..], t)
  }

  lemma WithoutTimes(xs: seq<Armed>, i: nat, t: Armed)
    requires i < |xs|
    ensures Times(Without(xs, i), t) + (if xs[i] == t then 1 else 0) == Times(xs, t)
  {
    assert xs == (xs[..i] + [xs[i]]) + xs[i + 1..];
    TimesConcat(xs[..i] + [xs[i]], xs[i + 1..], t);
    TimesPush(xs[..i], xs[i], t);
    TimesConcat(xs[..i], xs[i + 1..], t);
    hide Times;
  }

  lemma TimersStep(s: System, a: Action, t: Armed)
    requires Enabled(s, a)
    ensures Times(Apply(s, a).timers, t) + DisarmedNow(s, a, t) == Times(s.timers, t) + ArmedNow(s, a, t)
  {
    hide Times, PickStep, DispatchStep, SettleStep, CancelEventStep, Kept, Due, AsTasks, Quiet, ET.AddEvent;
    match a
    case AddTimer(_, id, recurring) => TimesPush(s.timers, Armed(Func(id), recurring), t);
    case SuspendSleep(w) => TimesPush(s.timers, Armed(Wake(s.workers[w].pc.fiber), false), t);
    case CancelTimer(_, i) =>
      if i < |s.timers| {
        WithoutTimes(s.timers, i, t);
      }
    case Expire(_, due) =>
      KeptCounted(s.timers, due, t, |s.timers|);
      assert s.timers[..|s.timers|] == s.timers && due[..|s.timers|] == due;
    case _ => OthersKeepTimers(s, a);
  }

  lemma OthersKeepTimers(s: System, a: Action)
    requires Enabled(s, a) && !a.AddTimer? && !a.SuspendSleep? && !a.CancelTimer? && !a.Expire?
    ensures Apply(s, a).timers == s.timers
  {
    hide Quiet, AsTasks, FirstRunnable, ET.AddEvent, ET.CancelEvent;
  }

  /** Over every run, a timer armed and neither cancelled nor gone off for good is still armed. */
  lemma {:induction false} TimersAccounted(s: System, acts: seq<Action>, t: Armed)
    requires LegalRun(s, acts)
    ensures Times(Run(s, acts).timers, t) + DisarmedIn(s, acts, t) == Times(s.timers, t) + ArmedIn(s, acts, t)
    decreases |acts|
  {
    if acts != [] {
      TimersStep(s, acts[0], t);
      hide Times, DisarmedNow, ArmedNow, Apply;
      TimersAccounted(Apply(s, acts[0]), acts[1..], t);
    }
  }
}
