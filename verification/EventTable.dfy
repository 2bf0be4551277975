/**
 The event registrations of the I/O manager as a value: one slot for every
 file descriptor and direction, the pending count, and what each completed
 registration hands to the task list.
 */
module EventTable {

  import opened Wrappers
  import opened Counting

  datatype Event = READ | WRITE

  /** Who is to be scheduled when the event happens. */
  datatype Registration = Resume(fiber: nat) | Call(cb: nat)

  /** A registration and its serial number among all successful ones. */
  datatype Entry = Entry(serial: nat, reg: Registration)

  datatype Table = Table(slots: seq<Option<Entry>>, pending: int, issued: nat)

  /** How many descriptors the constructor makes room for. */
  const INITIAL_FDS: nat := 32

  function Slot(fd: nat, ev: Event): nat {
    2 * fd + if ev.READ? then 0 else 1
  }

  function Fds(t: Table): nat {
    |t.slots| / 2
  }

  /** The table never shrinks below its first size, and holds both directions of every descriptor. */
  predicate Sized(t: Table) {
    |t.slots| % 2 == 0 && Fds(t) >= INITIAL_FDS
  }

  function Empty(): Table {
    Table(seq(2 * INITIAL_FDS, _ => None), 0, 0)
  }

  /** `vector::resize` to more descriptors. */
  function Resized(slots: seq<Option<Entry>>, fds: nat): seq<Option<Entry>> {
    if 2 * fds < |slots| then slots else slots + seq(2 * fds - |slots|, _ => None)
  }

  function Reserve(t: Table, fd: nat): Table {
    if Fds(t) > fd then t else t.(slots := Resized(t.slots, fd * 3 / 2))
  }

  /** Growing by half again always makes room for the descriptor asked for, because the first size is 32. */
  lemma ReserveSuffices(t: Table, fd: nat)
    requires Sized(t)
    ensures Sized(Reserve(t, fd)) && Fds(Reserve(t, fd)) > fd
    ensures t.slots <= Reserve(t, fd).slots
    ensures Fds(Reserve(t, fd)) == if Fds(t) > fd then Fds(t) else fd + fd / 2
  {
  }

  predicate Free(t: Table, fd: nat, ev: Event) {
    Slot(fd, ev) < |t.slots| ==> t.slots[Slot(fd, ev)] == None
  }

  /** `addEvent`; `ok` says whether the kernel accepts the change. */
  function AddEvent(t: Table, fd: nat, ev: Event, reg: Registration, ok: bool): (r: Table)
    requires Sized(t) && Free(t, fd, ev)
    ensures Sized(r)
  {
    ReserveSuffices(t, fd);
    var u := Reserve(t, fd);
    if ok
    then Table(u.slots[Slot(fd, ev) := Some(Entry(t.issued, reg))], t.pending + 1, t.issued + 1)
    else u
  }

  /** `cancelEvent`: the registration that is triggered, if there is one and the kernel accepts the change. */
  function CancelEvent(t: Table, fd: nat, ev: Event, ok: bool): (r: (Table, Option<Entry>))
    requires Sized(t)
    ensures Sized(r.0)
  {
    if fd >= Fds(t) || t.slots[Slot(fd, ev)] == None || !ok then (t, None)
    else (t.(slots := t.slots[Slot(fd, ev) := None], pending := t.pending - 1), t.slots[Slot(fd, ev)])
  }

  // ------------------------------------------------------------------- runs

  /** A call by a fiber, by a timer callback or by the poller when the descriptor is ready. */
  datatype Op = Add(fd: nat, ev: Event, reg: Registration, ok: bool) | Cancel(fd: nat, ev: Event, ok: bool)

  /** The table, all successful registrations in order, and all that were handed to the task list in order. */
  datatype History = History(table: Table, log: seq<Registration>, handed: seq<Entry>)

  function Start(): History {
    History(Empty(), [], [])
  }

  predicate Legal(h: History, op: Op) {
    Sized(h.table) && (op.Add? ==> Free(h.table, op.fd, op.ev))
  }

  function Perform(h: History, op: Op): History
    requires Legal(h, op)
  {
    match op
    case Add(fd, ev, reg, ok) =>
      History(AddEvent(h.table, fd, ev, reg, ok), if ok then h.log + [reg] else h.log, h.handed)
    case Cancel(fd, ev, ok) =>
      var (table, out) := CancelEvent(h.table, fd, ev, ok);
      History(table, h.log, if out.Some? then h.handed + [out.value] else h.handed)
  }

  predicate LegalRun(h: History, ops: seq<Op>)
    decreases |ops|
  {
    ops != [] ==> Legal(h, ops[0]) && LegalRun(Perform(h, ops[0]), ops[1..])
  }

  function Run(h: History, ops: seq<Op>): History
    requires LegalRun(h, ops)
    decreases |ops|
  {
    if ops == [] then h else Run(Perform(h, ops[0]), ops[1..])
  }

  // ----------------------------------------------------------- conservation

  function Occupied(s: Option<Entry>, f: nat): nat {
    if s.Some? then 1 else 0
  }

  function Holds(s: Option<Entry>, serial: nat): nat {
    if s.Some? && s.value.serial == serial then 1 else 0
  }

  function IsSerial(e: Entry, serial: nat): nat {
    if e.serial == serial then 1 else 0
  }

  /** How often a registration is to be found: waiting in the table or handed to the task list. */
  ghost function Places(h: History, serial: nat): nat {
    Total(h.table.slots, Holds, serial) + Total(h.handed, IsSerial, serial)
  }

  ghost predicate Conserved(h: History) {
    && Sized(h.table)
    && h.table.pending == Total(h.table.slots, Occupied, 0)
    && h.table.issued == |h.log|
    && (forall i :: 0 <= i < |h.table.slots| && h.table.slots[i].Some? ==> Faithful(h, h.table.slots[i].value))
    && (forall i :: 0 <= i < |h.handed| ==> Faithful(h, h.handed[i]))
    && (forall serial: nat :: Places(h, serial) == if serial < |h.log| then 1 else 0)
  }

  predicate Faithful(h: History, e: Entry) {
    e.serial < |h.log| && e.reg == h.log[e.serial]
  }

  lemma {:induction false} NoneTotal(n: nat, g: (Option<Entry>, nat) -> nat, f: nat)
    requires g(None, f) == 0
    ensures Total(seq(n, _ => None), g, f) == 0
  {
    TotalZero(seq(n, _ => None), g, f);
  }

  lemma StartConserved()
    ensures Conserved(Start())
  {
    NoneTotal(2 * INITIAL_FDS, Occupied, 0);
    forall serial: nat
      ensures Places(Start(), serial) == 0
    {
      NoneTotal(2 * INITIAL_FDS, Holds, serial);
    }
  }

  lemma ReserveConserves(h: History, fd: nat)
    requires Conserved(h)
    ensures Conserved(h.(table := Reserve(h.table, fd)))
  {
    ReserveSuffices(h.table, fd);
    ReserveTotal(h.table, fd, Occupied, 0);
    var k := h.(table := Reserve(h.table, fd));
    forall serial: nat
      ensures Places(k, serial) == if serial < |k.log| then 1 else 0
    {
      assert Places(h, serial) == if serial < |h.log| then 1 else 0;
      ReserveTotal(h.table, fd, Holds, serial);
    }
  }

  /** Growing the table changes no sum. */
  lemma ReserveTotal(t: Table, fd: nat, g: (Option<Entry>, nat) -> nat, f: nat)
    requires g(None, f) == 0
    ensures Total(Reserve(t, fd).slots, g, f) == Total(t.slots, g, f)
  {
    if Reserve(t, fd) != t && 2 * (fd * 3 / 2) >= |t.slots| {
      var more := 2 * (fd * 3 / 2) - |t.slots|;
      NoneTotal(more, g, f);
      TotalConcat(t.slots, seq(more, _ => None), g, f);
    }
  }

  lemma AddTotal(t: Table, fd: nat, ev: Event, reg: Registration, ok: bool, g: (Option<Entry>, nat) -> nat, f: nat)
    requires Sized(t) && Free(t, fd, ev) && g(None, f) == 0
    ensures Total(AddEvent(t, fd, ev, reg, ok).slots, g, f)
         == Total(t.slots, g, f) + if ok then g(Some(Entry(t.issued, reg)), f) else 0
  {
    ReserveSuffices(t, fd);
    ReserveTotal(t, fd, g, f);
    TotalUpdate(Reserve(t, fd).slots, Slot(fd, ev), Some(Entry(t.issued, reg)), g, f);
  }

  lemma CancelTotal(t: Table, fd: nat, ev: Event, ok: bool, g: (Option<Entry>, nat) -> nat, f: nat)
    requires Sized(t) && g(None, f) == 0
    ensures var (u, out) := CancelEvent(t, fd, ev, ok);
      Total(u.slots, g, f) + (if out.Some? then g(out, f) else 0) == Total(t.slots, g, f)
  {
    if fd < Fds(t) {
      TotalUpdate(t.slots, Slot(fd, ev), None, g, f);
    }
  }

  lemma PerformConserves(h: History, op: Op)
    requires Conserved(h) && Legal(h, op)
    ensures Conserved(Perform(h, op))
  {
    var k := Perform(h, op);
    match op
    case Add(fd, ev, reg, ok) =>
      AddTotal(h.table, fd, ev, reg, ok, Occupied, 0);
      forall serial: nat
        ensures Places(k, serial) == if serial < |k.log| then 1 else 0
      {
        assert Places(h, serial) == if serial < |h.log| then 1 else 0;
        AddTotal(h.table, fd, ev, reg, ok, Holds, serial);
      }
    case Cancel(fd, ev, ok) =>
      CancelTotal(h.table, fd, ev, ok, Occupied, 0);
      var out := CancelEvent(h.table, fd, ev, ok).1;
      forall serial: nat
        ensures Places(k, serial) == if serial < |k.log| then 1 else 0
      {
        assert Places(h, serial) == if serial < |h.log| then 1 else 0;
        CancelTotal(h.table, fd, ev, ok, Holds, serial);
        if out.Some? {
          TotalPush(h.handed, out.value, IsSerial, serial);
        }
      }
  }

  /**
   Over every run, with the kernel free to refuse any change: the pending count
   is the number of occupied slots, and every successful registration is in
   exactly one place, waiting or handed over, with its own fiber or callback.
   */
  lemma {:induction false} EventsConserved(h: History, ops: seq<Op>)
    requires Conserved(h) && LegalRun(h, ops)
    ensures Conserved(Run(h, ops))
    decreases |ops|
  {
    if ops != [] {
      PerformConserves(h, ops[0]);
      EventsConserved(Perform(h, ops[0]), ops[1..]);
    }
  }

  /** The pending count is the number of event bits set. */
  lemma PendingIsBits(h: History)
    requires Conserved(h)
    ensures h.table.pending == |Bits(h.table, |h.table.slots|)|
  {
    BitsTotal(h.table, |h.table.slots|);
    assert h.table.slots[..|h.table.slots|] == h.table.slots;
  }

  /** The descriptors and directions, among the first `n`, that someone waits for. */
  function Bits(t: Table, n: nat): set<nat>
    requires n <= |t.slots|
  {
    set i | 0 <= i < n && t.slots[i].Some?
  }

  lemma {:induction false} BitsTotal(t: Table, n: nat)
    requires n <= |t.slots|
    ensures |Bits(t, n)| == Total(t.slots[..n], Occupied, 0)
  {
    if n > 0 {
      BitsTotal(t, n - 1);
      assert t.slots[..n] == t.slots[..n - 1] + [t.slots[n - 1]];
      TotalPush(t.slots[..n - 1], t.slots[n - 1], Occupied, 0);
      assert Bits(t, n) == Bits(t, n - 1) + if t.slots[n - 1].Some? then {n - 1} else {};
    }
  }

  /** No registration is handed over twice, whether readiness or a timer comes first. */
  lemma HandedOnce(ops: seq<Op>, i: nat, j: nat)
    requires LegalRun(Start(), ops) && i < j < |Run(Start(), ops).handed|
    ensures var h := Run(Start(), ops);
      && h.handed[i].serial != h.handed[j].serial
      && Faithful(h, h.handed[i])
      && forall s :: 0 <= s < |h.table.slots| && h.table.slots[s].Some? ==> h.table.slots[s].value.serial != h.handed[i].serial
  {
    var h := Run(Start(), ops);
    var serial := h.handed[i].serial;
    StartConserved();
    EventsConserved(Start(), ops);
    TotalTwo(h.handed, i, j, IsSerial, serial);
    TotalSplit(h.handed, i, IsSerial, serial);
    assert Places(h, serial) <= 1;
    TotalZero(h.table.slots, Holds, serial);
    assert forall s :: 0 <= s < |h.table.slots| ==> Holds(h.table.slots[s], serial) == 0;
  }
}
