/**
 The I/O manager's event operations on its context objects, proved to do to
 the objects what `EventTable` does to the table.
 */
module IoManagers {

  import opened Wrappers
  import opened EventTable

  /** One direction of a descriptor: empty, or who waits for it. */
  datatype EventContext = EventContext(scheduled: bool, fiber: Option<nat>, cb: Option<nat>)

  const NO_CONTEXT := EventContext(false, None, None)

  datatype ControlOp = CTL_ADD | CTL_MOD | CTL_DEL

  predicate ContextIs(ctx: EventContext, reg: Registration) {
    match reg
    case Resume(fiber) => ctx == EventContext(true, Some(fiber), None)
    case Call(cb) => ctx == EventContext(true, None, Some(cb))
  }

  class FdContext {
    const fd: nat
    var events: set<Event>
    var read: EventContext
    var write: EventContext

    constructor (fd: nat)
      ensures this.fd == fd && events == {} && read == NO_CONTEXT && write == NO_CONTEXT
    {
      this.fd, events, read, write := fd, {}, NO_CONTEXT, NO_CONTEXT;
    }

    function GetContext(ev: Event): EventContext
      reads `read, `write
    {
      match ev
      case READ => read
      case WRITE => write
    }

    method SetContext(ev: Event, ctx: EventContext)
      modifies `read, `write
      ensures GetContext(ev) == ctx
      ensures forall other :: other != ev ==> GetContext(other) == old(GetContext(other))
    {
      if ev == READ {
        read := ctx;
      } else {
        write := ctx;
      }
    }

    /** Records who waits for one event. */
    method Arm(ev: Event, cb: Option<nat>, current: nat, ghost r: Option<Entry>, ghost w: Option<Entry>, ghost e: Entry)
      requires Agrees(this, fd, r, w) && (if ev.READ? then r else w) == None
      requires e.reg == Waiter(cb, current)
      modifies this
      ensures events == old(events) + {ev}
      ensures GetContext(ev) == if cb.Some? then EventContext(true, None, cb) else EventContext(true, Some(current), None)
      ensures Agrees(this, fd, if ev.READ? then Some(e) else r, if ev.READ? then w else Some(e))
    {
      events := events + {ev};
      var ctx := GetContext(ev).(scheduled := true);
      if cb.Some? {
        ctx := ctx.(cb := cb);
      } else {
        ctx := ctx.(fiber := Some(current));
      }
      SetContext(ev, ctx);
    }

    /** Clears one event and hands out who waited for it; the context is left empty. */
    method TriggerEvent(ev: Event, ghost r: Option<Entry>, ghost w: Option<Entry>) returns (task: Registration)
      requires Agrees(this, fd, r, w) && (if ev.READ? then r else w).Some?
      modifies this
      ensures task == (if ev.READ? then r else w).value.reg
      ensures events == old(events) - {ev} && GetContext(ev) == NO_CONTEXT
      ensures old(GetContext(ev)).fiber.Some? ==> task == Resume(old(GetContext(ev)).fiber.value)
      ensures old(GetContext(ev)).fiber.None? ==> old(GetContext(ev)).cb.Some? && task == Call(old(GetContext(ev)).cb.value)
      ensures Agrees(this, fd, if ev.READ? then None else r, if ev.READ? then w else None)
    {
      events := events - {ev};
      var ctx := GetContext(ev);
      if ctx.fiber.Some? {
        task := Resume(ctx.fiber.value);
        ctx := ctx.(fiber := None);
      } else {
        task := Call(ctx.cb.value);
        ctx := ctx.(cb := None);
      }
      ctx := ctx.(scheduled := false);
      SetContext(ev, ctx);
    }
  }

  /** The callback if there is one, else the running fiber. */
  function Waiter(cb: Option<nat>, current: nat): Registration {
    if cb.Some? then Call(cb.value) else Resume(current)
  }

  /** One direction of a context object agrees with its slot of the table. */
  ghost predicate DirectionOk(c: FdContext, ev: Event, slot: Option<Entry>)
    reads c
  {
    match slot
    case None => ev !in c.events && c.GetContext(ev) == NO_CONTEXT
    case Some(e) => ev in c.events && ContextIs(c.GetContext(ev), e.reg)
  }

  ghost predicate Agrees(c: FdContext, fd: nat, r: Option<Entry>, w: Option<Entry>)
    reads c
  {
    c.fd == fd && DirectionOk(c, READ, r) && DirectionOk(c, WRITE, w)
  }

  /** The kernel watches a descriptor for exactly these events. */
  ghost predicate Watched(events: set<Event>, fd: nat, interest: map<nat, set<Event>>) {
    if events == {} then fd !in interest else fd in interest && interest[fd] == events
  }

  lemma ControlFits(few: set<Event>, more: set<Event>, ev: Event, fd: nat, interest: map<nat, set<Event>>)
    requires more == few + {ev}
    ensures more != {}
    ensures Watched(few, fd, interest) ==> (few == {} <==> fd !in interest)
    ensures Watched(more, fd, interest) ==> fd in interest
  {
    assert ev in more;
  }

  /** What one successful registration changes in the table. */
  lemma AddedSlot(h: History, fd: nat, ev: Event, reg: Registration)
    requires Conserved(h) && Legal(h, Add(fd, ev, reg, true))
    ensures Slot(fd, ev) < |Reserve(h.table, fd).slots|
    ensures var k := Perform(h, Add(fd, ev, reg, true));
      && k.table.slots == Reserve(h.table, fd).slots[Slot(fd, ev) := Some(Entry(h.table.issued, reg))]
      && k.table.pending == h.table.pending + 1 && k.handed == h.handed && Conserved(k)
  {
    ReserveSuffices(h.table, fd);
    PerformConserves(h, Add(fd, ev, reg, true));
  }

  /** Growing first and registering then is one registration. */
  lemma ReservedFirst(h: History, fd: nat, ev: Event, reg: Registration, ok: bool)
    requires Legal(h, Add(fd, ev, reg, ok))
    ensures var k := h.(table := Reserve(h.table, fd));
      Legal(k, Add(fd, ev, reg, ok)) && Perform(k, Add(fd, ev, reg, ok)) == Perform(h, Add(fd, ev, reg, ok))
  {
    ReserveSuffices(h.table, fd);
  }

  /** What one completed registration changes in the table. */
  lemma CancelledSlot(h: History, fd: nat, ev: Event)
    requires Conserved(h) && fd < Fds(h.table) && h.table.slots[Slot(fd, ev)].Some?
    ensures var k := Perform(h, Cancel(fd, ev, true));
      && k.table.slots == h.table.slots[Slot(fd, ev) := None]
      && k.table.pending == h.table.pending - 1 && k.handed == h.handed + [h.table.slots[Slot(fd, ev)].value]
      && Conserved(k)
  {
    PerformConserves(h, Cancel(fd, ev, true));
  }

  /** Only the two slots of one descriptor may differ. */
  ghost predicate SlotsKept(before: seq<Option<Entry>>, after: seq<Option<Entry>>, fd: nat) {
    |after| == |before| && forall i: nat :: i != fd && 2 * i + 1 < |before| ==>
      after[Slot(i, READ)] == before[Slot(i, READ)] && after[Slot(i, WRITE)] == before[Slot(i, WRITE)]
  }

  class IoManager {
    var contexts: seq<FdContext>
    var pending: int
    var tasks: seq<Registration>                  // what triggered events put on the task list

    ghost var history: History
    ghost var interest: map<nat, set<Event>>      // what the kernel watches, descriptor by descriptor

    /** The context objects agree with the slots of the table. */
    ghost predicate ContextsOk()
      reads `contexts, `history, contexts
    {
      && |history.table.slots| == 2 * |contexts|
      && (forall i, j :: 0 <= i < j < |contexts| ==> contexts[i] != contexts[j])
      && (forall i :: 0 <= i < |contexts| ==>
        Agrees(contexts[i], i, history.table.slots[Slot(i, READ)], history.table.slots[Slot(i, WRITE)]))
    }

    /** The kernel watches exactly the events set in the contexts. */
    ghost predicate KernelOk()
      reads `contexts, `interest, contexts
    {
      && (forall fd :: fd in interest ==> fd < |contexts|)
      && (forall i :: 0 <= i < |contexts| ==> Watched(contexts[i].events, i, interest))
    }

    /** The tasks are the registrations handed out, in order. */
    ghost predicate TasksAre(handed: seq<Entry>)
      reads `tasks
    {
      |tasks| == |handed| && forall i :: 0 <= i < |tasks| ==> tasks[i] == handed[i].reg
    }

    ghost predicate Valid()
      reads this, contexts
    {
      && ContextsOk() && KernelOk()
      && Conserved(history)
      && pending == history.table.pending
      && TasksAre(history.handed)
    }

    constructor ()
      ensures Valid() && history == Start() && fresh(contexts)
    {
      contexts, pending, tasks := [], 0, [];
      history, interest := Start(), map[];
      new;
      hide Conserved;
      StartConserved();
      Resize(INITIAL_FDS);
      assert contexts[0..] == contexts;
    }

    /** Makes room for `size` descriptors; those that have a context keep it. */
    method Resize(size: nat)
      requires forall i, j :: 0 <= i < j < |contexts| ==> contexts[i] != contexts[j]
      requires forall i :: 0 <= i < |contexts| ==> contexts[i].fd == i
      modifies `contexts
      ensures |contexts| == if size < |old(contexts)| then |old(contexts)| else size
      ensures old(contexts) <= contexts && fresh(contexts[|old(contexts)|..])
      ensures forall i, j :: 0 <= i < j < |contexts| ==> contexts[i] != contexts[j]
      ensures forall i :: 0 <= i < |contexts| ==> contexts[i].fd == i
      ensures forall i :: |old(contexts)| <= i < |contexts| ==>
        contexts[i].events == {} && contexts[i].read == NO_CONTEXT && contexts[i].write == NO_CONTEXT
    {
      if size < |contexts| {
        return;
      }
      var i := |contexts|;
      while i < size
        invariant |old(contexts)| <= i <= size && |contexts| == i
        invariant old(contexts) <= contexts && fresh(contexts[|old(contexts)|..])
        invariant forall a, b :: 0 <= a < b < i ==> contexts[a] != contexts[b]
        invariant forall a :: 0 <= a < i ==> contexts[a].fd == a
        invariant forall a :: |old(contexts)| <= a < i ==>
          contexts[a].events == {} && contexts[a].read == NO_CONTEXT && contexts[a].write == NO_CONTEXT
      {
        var c := new FdContext(i);
        assert (contexts + [c])[|old(contexts)|..] == contexts[|old(contexts)|..] + [c];
        contexts := contexts + [c];
        i := i + 1;
      }
    }

    /** `epoll_ctl`, which the kernel may refuse; the operation asked for always fits what it watches. */
    ghost method Control(op: ControlOp, fd: nat, mask: set<Event>, ok: bool)
      requires op.CTL_ADD? <==> fd !in interest
      requires op.CTL_DEL? <==> mask == {}
      modifies `interest
      ensures !ok ==> interest == old(interest)
      ensures ok ==> Watched(mask, fd, interest)
      ensures forall i: nat :: i in interest ==> i in old(interest) || i == fd
      ensures forall es, i: nat :: i != fd && Watched(es, i, old(interest)) ==> Watched(es, i, interest)
    {
      if ok {
        interest := if op.CTL_DEL? then interest - {fd} else interest[fd := mask];
      }
    }

    /** Makes sure that the descriptor has a context. */
    method ReserveContext(fd: nat)
      requires Valid()
      modifies `contexts, `history
      ensures Valid() && old(contexts) <= contexts && fd < |contexts| && fresh(contexts[|old(contexts)|..])
      ensures history == old(history).(table := Reserve(old(history.table), fd))
    {
      ReserveConserves(history, fd);
      hide Conserved;
      if |contexts| <= fd {
        Resize(fd * 3 / 2);
      }
      history := history.(table := Reserve(history.table, fd));
    }

    /** What validity says about one descriptor. */
    lemma Focus(fd: nat)
      requires Valid() && fd < |contexts|
      ensures Conserved(history) && Slot(fd, WRITE) < |history.table.slots| && fd < Fds(history.table)
      ensures contexts[fd].fd == fd && Watched(contexts[fd].events, fd, interest)
      ensures Agrees(contexts[fd], fd, history.table.slots[Slot(fd, READ)], history.table.slots[Slot(fd, WRITE)])
      ensures forall ev :: ev in contexts[fd].events <==> history.table.slots[Slot(fd, ev)].Some?
      ensures Reserve(history.table, fd) == history.table
    {
    }

    /** Changing one context and its slots alike keeps all others in agreement. */
    twostate lemma OthersKept(fd: nat)
      requires old(ContextsOk() && KernelOk()) && contexts == old(contexts) && fd < |contexts|
      requires SlotsKept(old(history.table.slots), history.table.slots, fd)
      requires forall c :: c in contexts && c != contexts[fd] ==> unchanged(c)
      requires Agrees(contexts[fd], fd, history.table.slots[Slot(fd, READ)], history.table.slots[Slot(fd, WRITE)])
      requires Watched(contexts[fd].events, fd, interest)
      requires forall i: nat :: i in interest ==> i in old(interest) || i == fd
      requires forall es, i: nat :: i != fd && Watched(es, i, old(interest)) ==> Watched(es, i, interest)
      ensures ContextsOk() && KernelOk()
    {
      hide Agrees, Watched;
      forall i | 0 <= i < |contexts|
        ensures Agrees(contexts[i], i, history.table.slots[Slot(i, READ)], history.table.slots[Slot(i, WRITE)])
        ensures Watched(contexts[i].events, i, interest)
      {
        if i != fd {
          assert contexts[i] in contexts && contexts[i] != contexts[fd];
          assert old(Watched(contexts[i].events, i, interest));
        }
      }
    }

    /** Registers the callback, or the running fiber if there is none. */
    method AddEvent(fd: nat, ev: Event, cb: Option<nat>, current: nat, ok: bool) returns (rt: int)
      requires Valid() && Free(history.table, fd, ev)
      modifies this, contexts
      ensures Valid() && old(contexts) <= contexts && fresh(contexts[|old(contexts)|..])
      ensures history == Perform(old(history), Add(fd, ev, Waiter(cb, current), ok))
      ensures rt == (if ok then 0 else -1) && tasks == old(tasks) && fd < |contexts|
      ensures pending == old(pending) + if ok then 1 else 0
      ensures ok ==> ev in contexts[fd].events
      ensures ok && cb.Some? ==> contexts[fd].GetContext(ev) == EventContext(true, None, cb)
      ensures ok && cb.None? ==> contexts[fd].GetContext(ev) == EventContext(true, Some(current), None)
    {
      ReservedFirst(history, fd, ev, Waiter(cb, current), ok);
      ReserveContext(fd);
      assert contexts[fd] in old(contexts) || contexts[fd] in contexts[|old(contexts)|..] by {
        assert contexts == old(contexts) + contexts[|old(contexts)|..];
      }
      rt := Register(fd, ev, cb, current, ok);
    }

    /** Asks the kernel to watch one event more. */
    method Watch(fd: nat, events: set<Event>, ev: Event, ok: bool)
      requires Watched(events, fd, interest)
      modifies `interest
      ensures if ok then Watched(events + {ev}, fd, interest) else interest == old(interest)
      ensures forall i: nat :: i in interest ==> i in old(interest) || i == fd
      ensures forall es, i: nat :: i != fd && Watched(es, i, old(interest)) ==> Watched(es, i, interest)
    {
      var op := if events != {} then CTL_MOD else CTL_ADD;
      ControlFits(events, events + {ev}, ev, fd, interest);
      Control(op, fd, events + {ev}, ok);
    }

    /** The part of `addEvent` under the lock of the context. */
    method Register(fd: nat, ev: Event, cb: Option<nat>, current: nat, ok: bool) returns (rt: int)
      requires Valid() && fd < |contexts| && Free(history.table, fd, ev)
      modifies `pending, `history, `interest, contexts[fd]
      ensures Valid() && history == Perform(old(history), Add(fd, ev, Waiter(cb, current), ok))
      ensures rt == (if ok then 0 else -1) && pending == old(pending) + if ok then 1 else 0
      ensures contexts[fd].events == old(contexts[fd].events) + if ok then {ev} else {}
      ensures ok && cb.Some? ==> contexts[fd].GetContext(ev) == EventContext(true, None, cb)
      ensures ok && cb.None? ==> contexts[fd].GetContext(ev) == EventContext(true, Some(current), None)
    {
      hide Conserved, Agrees, Perform, Reserve, Waiter, Watched, ContextsOk, KernelOk, Legal, SlotsKept, Free, Slot, Fds, Sized, TasksAre, DirectionOk, ContextIs, FdContext.GetContext;
      AddFacts(fd, ev, Waiter(cb, current), ok);
      ghost var after := Perform(history, Add(fd, ev, Waiter(cb, current), ok));
      ghost var slots := history.table.slots;
      var c := contexts[fd];
      Watch(fd, c.events, ev, ok);
      if !ok {
        return -1;
      }
      pending := pending + 1;
      c.Arm(ev, cb, current, slots[Slot(fd, READ)], slots[Slot(fd, WRITE)], Entry(history.table.issued, Waiter(cb, current)));
      history := after;
      OthersKept(fd);
      return 0;
    }

    lemma AddFacts(fd: nat, ev: Event, reg: Registration, ok: bool)
      requires Valid() && fd < |contexts| && Free(history.table, fd, ev)
      ensures Legal(history, Add(fd, ev, reg, ok))
      ensures contexts[fd].fd == fd && Watched(contexts[fd].events, fd, interest)
      ensures Slot(fd, READ) < |history.table.slots| && Slot(fd, WRITE) < |history.table.slots|
      ensures var slots := history.table.slots;
        && (if ev.READ? then slots[Slot(fd, READ)] else slots[Slot(fd, WRITE)]) == None
        && Agrees(contexts[fd], fd, slots[Slot(fd, READ)], slots[Slot(fd, WRITE)])
        && var k := Perform(history, Add(fd, ev, reg, ok));
          if ok
          then Conserved(k) && SlotsKept(slots, k.table.slots, fd) && |k.table.slots| == |slots|
            && k.table.pending == history.table.pending + 1 && k.handed == history.handed
            && (var e := Some(Entry(history.table.issued, reg));
                && k.table.slots[Slot(fd, READ)] == (if ev.READ? then e else slots[Slot(fd, READ)])
                && k.table.slots[Slot(fd, WRITE)] == (if ev.READ? then slots[Slot(fd, WRITE)] else e))
          else k == history
    {
      Focus(fd);
      if ok {
        AddedSlot(history, fd, ev, reg);
      } else {
        assert Perform(history, Add(fd, ev, reg, false)) == history.(table := Reserve(history.table, fd));
      }
      hide Conserved, Agrees, ContextsOk, KernelOk, Watched, Perform, Reserve;
    }

    lemma CancelFacts(fd: nat, ev: Event, ok: bool)
      requires Valid() && fd < |contexts|
      ensures Legal(history, Cancel(fd, ev, ok))
      ensures contexts[fd].fd == fd && Watched(contexts[fd].events, fd, interest)
      ensures Slot(fd, READ) < |history.table.slots| && Slot(fd, WRITE) < |history.table.slots|
      ensures var slots := history.table.slots;
        var slot := if ev.READ? then slots[Slot(fd, READ)] else slots[Slot(fd, WRITE)];
        && Agrees(contexts[fd], fd, slots[Slot(fd, READ)], slots[Slot(fd, WRITE)])
        && (ev in contexts[fd].events <==> slot.Some?)
        && var k := Perform(history, Cancel(fd, ev, ok));
          if slot.Some? && ok
          then Conserved(k) && SlotsKept(slots, k.table.slots, fd) && |k.table.slots| == |slots|
            && k.table.pending == history.table.pending - 1 && k.handed == history.handed + [slot.value]
            && k.table.slots[Slot(fd, READ)] == (if ev.READ? then None else slots[Slot(fd, READ)])
            && k.table.slots[Slot(fd, WRITE)] == (if ev.READ? then slots[Slot(fd, WRITE)] else None)
          else k == history
    {
      Focus(fd);
      if history.table.slots[Slot(fd, ev)].Some? && ok {
        CancelledSlot(history, fd, ev);
      }
      hide Conserved, Agrees, ContextsOk, KernelOk, Watched;
    }

    /** Triggers a registration early, or because its descriptor is ready. */
    method CancelEvent(fd: nat, ev: Event, ok: bool) returns (done: bool)
      requires Valid()
      modifies `pending, `tasks, `history, `interest, contexts
      ensures Valid()
      ensures history == Perform(old(history), Cancel(fd, ev, ok))
      ensures done <==> ok && fd < |contexts| && ev in old(contexts[fd].events)
      ensures if done then Triggered(fd, ev) else tasks == old(tasks) && pending == old(pending)
    {
      if fd >= |contexts| {
        return false;
      }
      done := CancelLocked(fd, ev, ok);
    }

    /** Who waited for the event is the last task now, and waits no more. */
    twostate predicate Triggered(fd: nat, ev: Event)
      requires fd < |old(contexts)| && contexts == old(contexts)
      reads this, contexts
    {
      var was := old(contexts[fd].GetContext(ev));
      && pending == old(pending) - 1
      && contexts[fd].events == old(contexts[fd].events) - {ev} && contexts[fd].GetContext(ev) == NO_CONTEXT
      && (was.fiber.Some? ==> tasks == old(tasks) + [Resume(was.fiber.value)])
      && (was.fiber.None? ==> was.cb.Some? && tasks == old(tasks) + [Call(was.cb.value)])
    }

    /** A registration that is triggered hands over its own callback, or the running fiber if it has none. */
    method AddThenCancel(fd: nat, ev: Event, cb: Option<nat>, current: nat)
      requires Valid() && Free(history.table, fd, ev)
      modifies this, contexts
      ensures Valid() && pending == old(pending)
      ensures tasks == old(tasks) + [if cb.Some? then Call(cb.value) else Resume(current)]
    {
      hide Valid;
      var rt := AddEvent(fd, ev, cb, current, true);
      assert contexts == old(contexts) + contexts[|old(contexts)|..];
      var done := CancelEvent(fd, ev, true);
    }

    /** Hands a registration to the task list. */
    method Schedule(task: Registration, ghost handed: seq<Entry>, ghost e: Entry)
      requires TasksAre(handed) && task == e.reg
      modifies `tasks
      ensures tasks == old(tasks) + [task] && TasksAre(handed + [e])
    {
      tasks := tasks + [task];
    }

    /** The part of `cancelEvent` under the lock of the context. */
    method CancelLocked(fd: nat, ev: Event, ok: bool) returns (done: bool)
      requires Valid() && fd < |contexts|
      modifies `pending, `tasks, `history, `interest, contexts[fd]
      ensures Valid()
      ensures history == Perform(old(history), Cancel(fd, ev, ok))
      ensures done <==> ok && ev in old(contexts[fd].events)
      ensures if done then Triggered(fd, ev) else tasks == old(tasks) && pending == old(pending)
    {
      hide Conserved, Agrees, Perform, ContextsOk, KernelOk, Legal, Watched, Fds, Sized, Free, SlotsKept, Slot, TasksAre;
      CancelFacts(fd, ev, ok);
      ghost var after := Perform(history, Cancel(fd, ev, ok));
      ghost var slots := history.table.slots;
      var c := contexts[fd];
      if ev !in c.events {
        return false;
      }
      var left := c.events - {ev};
      var op := if left != {} then CTL_MOD else CTL_DEL;
      ControlFits(left, c.events, ev, fd, interest);
      Control(op, fd, left, ok);
      if !ok {
        return false;
      }
      var task := c.TriggerEvent(ev, slots[Slot(fd, READ)], slots[Slot(fd, WRITE)]);
      Schedule(task, history.handed, if ev.READ? then slots[Slot(fd, READ)].value else slots[Slot(fd, WRITE)].value);
      pending := pending - 1;
      history := after;
      OthersKept(fd);
      return true;
    }
  }
}
