/**
 The timer manager: an ordered set of timers keyed by a deadline that can
 change, and the one-bit flag that limits wake-ups of the poller. The clock
 is an input of every operation that reads it. A method is one region under
 the lock; `AddTimerFront` is the call behind the unlock, made by the caller
 of `AddTimer` or `Reset` if the answer says so, after any other operations.
 */
module Timers {

  import opened Wrappers
  import F = Fronts

  /** The identity of a non-empty function object. */
  type Callback = nat

  const WORD: nat := 0x1_0000_0000_0000_0000

  /** What `getNextTime` answers when nothing is armed. */
  const NEVER: nat := WORD - 1

  /** A deadline as the 64-bit sum computes it. */
  function Deadline(ms: nat, now: nat): nat {
    (ms + now) % WORD
  }

  /** The sum keeps the deadline at or after the period exactly if it does not wrap around. */
  lemma DeadlineWrapsIff(ms: nat, now: nat)
    requires ms < WORD && now < WORD
    ensures Deadline(ms, now) >= ms <==> ms + now < WORD
    ensures ms + now < WORD ==> Deadline(ms, now) == ms + now
  {
  }

  class Timer {
    const address: nat       // where the object lies in memory
    const recurring: bool
    var ms: nat
    var next: nat
    var cb: Option<Callback>

    ghost const armed: bool  // made with a non-empty callback
    ghost var fired: nat     // how often its callback was handed out
    ghost var cancelled: bool

    constructor (address: nat, ms: nat, cb: Option<Callback>, recurring: bool, now: nat)
      requires ms + now < WORD
      ensures this.address == address && this.recurring == recurring && this.ms == ms && this.cb == cb
      ensures next == ms + now && armed == cb.Some? && fired == 0 && !cancelled
    {
      this.address, this.recurring, this.ms, this.cb := address, recurring, ms, cb;
      DeadlineWrapsIff(ms, now);
      next := Deadline(ms, now);
      armed, fired, cancelled := cb.Some?, 0, false;
    }
  }

  /** The comparator of the ordered set. */
  predicate Less(l: Timer?, r: Timer?)
    reads (if l == null then {} else {l})`next, (if r == null then {} else {r})`next
  {
    if l == null && r == null then false
    else if l == null then true
    else if r == null then false
    else if l.next < r.next then true
    else if l.next > r.next then false
    else l.address < r.address
  }

  /** The comparator is a strict total order on timers with different addresses. */
  lemma LessIsStrictOrder(a: Timer, b: Timer, c: Timer)
    ensures !Less(a, a)
    ensures Less(a, b) ==> !Less(b, a)
    ensures Less(a, b) && Less(b, c) ==> Less(a, c)
    ensures !Less(a, b) && !Less(b, a) <==> a.next == b.next && a.address == b.address
  {
  }

  ghost predicate Sorted(ts: seq<Timer>)
    reads ts`next
  {
    forall i, j :: 0 <= i < j < |ts| ==> Less(ts[i], ts[j])
  }

  ghost function Elems(ts: seq<Timer>): set<Timer> {
    set t | t in ts
  }

  ghost function Deadlines(ts: seq<Timer>): map<Timer, nat>
    reads ts`next
  {
    map t | t in ts :: t.next
  }

  class TimerManager {
    var timers: seq<Timer>            // the ordered set, first element first
    var flag: bool

    ghost var clock: nat              // the latest clock value read so far
    ghost var front: F.Front<Timer>   // the front-change protocol, and all its steps so far
    ghost var trace: seq<F.Step<Timer>>
    ghost var known: set<Timer>       // all timer objects made here and not yet freed

    /** Addresses tell the known timers apart, and the ordered set holds some of them, in order. */
    ghost predicate Shape()
      reads `timers, `known, timers`next
    {
      && Elems(timers) <= known
      && (forall s, t :: s in known && t in known && s.address == t.address ==> s == t)
      && Sorted(timers)
    }

    /** A timer made with a callback is in the set exactly while it has one, and its history fits. */
    ghost predicate LifeOk(t: Timer)
      reads `timers, t
    {
      && (t.armed ==> (t in timers <==> t.cb.Some?))
      && (!t.armed ==> t.cb == None && !t.cancelled)
      && (t.armed && !t.recurring ==> t.fired + (if t.cancelled then 1 else 0) == if t in timers then 0 else 1)
      && (t.armed && t.recurring ==> (t in timers <==> !t.cancelled))
    }

    /** The deadline is the period after a start that is not in the future. */
    ghost predicate TimeOk(t: Timer)
      reads `clock, t
    {
      t.ms <= t.next < WORD && t.next - t.ms <= clock
    }

    /** The object is where the steps of the protocol lead. */
    ghost predicate FrontOk()
      reads `timers, `flag, `front, `trace, timers`next
    {
      && F.Reaches(F.Start(), trace, front)
      && front.armed == Deadlines(timers)
      && front.flag == flag
    }

    ghost predicate Valid()
      reads this, known, timers
    {
      && Shape()
      && (forall t :: t in known ==> LifeOk(t) && TimeOk(t))
      && FrontOk()
    }

    /**
     No front change is missed: if something armed is earlier than what the
     poller saw, exactly one call was decided since, and it has been made since
     or is still owed; in no round is more than one decided.
     */
    lemma NoMissedFront()
      requires Valid()
      ensures forall t :: t in timers && (front.seen == None || t.next < front.seen.value) ==> flag
      ensures front.owed[front.round] + F.MadeIn(front.calls, front.round, true) == if flag then 1 else 0
      ensures forall r: nat :: F.Decisions(front, r) <= 1
    {
      F.NoMissedFront(trace);
      F.ReachesIs(F.Start(), trace, front);
      assert forall t :: t in timers ==> t in front.armed && front.armed[t] == t.next;
    }

    /** The life of a timer made with a callback: a one-shot timer is fired or cancelled, never both and never twice. */
    lemma LifeCycle(t: Timer)
      requires Valid() && t in known && t.armed
      ensures t in timers <==> t.cb.Some?
      ensures !t.recurring ==> t.fired <= 1 && !(t.fired == 1 && t.cancelled)
      ensures !t.recurring && t !in timers ==> t.fired == 1 || t.cancelled
      ensures t.ms <= t.next
    {
      assert LifeOk(t) && TimeOk(t);
    }

    constructor ()
      ensures Valid() && timers == [] && known == {} && clock == 0 && trace == []
    {
      timers, flag := [], false;
      clock, front, trace, known := 0, F.Start(), [], {};
      F.Stay(F.Start<Timer>());
    }

    /** One more step of the protocol. */
    ghost method Did(step: F.Step<Timer>)
      requires F.Reaches(F.Start(), trace, front) && F.Legal(front, step)
      modifies `front, `trace
      ensures trace == old(trace) + [step] && front == F.Apply(old(front), step)
      ensures F.Reaches(F.Start(), trace, front)
    {
      F.Then(F.Start(), trace, front, step);
      trace, front := trace + [step], F.Apply(front, step);
    }

    /** A timer was taken out of the set. */
    ghost method NoteOut(t: Timer)
      requires F.Reaches(F.Start(), trace, front) && front.flag == flag
      requires t in front.armed && Deadlines(timers) == front.armed - {t}
      modifies `front, `trace
      ensures FrontOk() && trace == old(trace) + [F.TakenOut(t)]
    {
      hide F.Reaches;
      Did(F.TakenOut(t));
    }

    /** The deadline of a timer was moved back. */
    ghost method NoteLater(t: Timer)
      requires F.Reaches(F.Start(), trace, front) && front.flag == flag
      requires t in front.armed && front.armed[t] <= t.next && Deadlines(timers) == front.armed[t := t.next]
      modifies `front, `trace
      ensures FrontOk() && trace == old(trace) + [F.Later(t, t.next)]
    {
      hide F.Reaches;
      Did(F.Later(t, t.next));
    }

    /** The poller has looked at the first deadline. */
    ghost method NoteLook()
      requires F.Reaches(F.Start(), trace, front) && !flag && Sorted(timers) && front.armed == Deadlines(timers)
      modifies `front, `trace
      ensures FrontOk() && front.seen == (if timers == [] then None else Some(timers[0].next))
      ensures trace == old(trace) + [F.GetNext(front.seen)]
      ensures forall t :: t in timers ==> timers[0].next <= t.next
    {
      hide F.Reaches;
      assert forall j :: 0 < j < |timers| ==> Less(timers[0], timers[j]);
      if timers == [] {
        Did(F.GetNext(None));
      } else {
        assert timers[0] in front.armed && front.armed[timers[0]] == timers[0].next;
        Did(F.GetNext(Some(timers[0].next)));
      }
    }

    /** Deadlines of a set from which one timer was taken. */
    twostate lemma OutDeadlines(t: Timer)
      requires Elems(timers) == old(Elems(timers)) - {t} && t in old(timers)
      requires forall u :: u in old(timers) && u != t ==> u.next == old(u.next)
      ensures t in old(Deadlines(timers)) && Deadlines(timers) == old(Deadlines(timers)) - {t}
    {
      assert forall u :: u in timers <==> u in Elems(timers);
      assert forall u :: u in old(timers) <==> u in old(Elems(timers));
    }

    /** Deadlines of a set in which one timer was moved. */
    twostate lemma LaterDeadlines(t: Timer)
      requires Elems(timers) == old(Elems(timers)) && t in old(timers)
      requires forall u :: u in old(timers) && u != t ==> u.next == old(u.next)
      ensures t in old(Deadlines(timers)) && old(Deadlines(timers))[t] == old(t.next)
      ensures Deadlines(timers) == old(Deadlines(timers))[t := t.next]
    {
      assert forall u :: u in timers <==> u in Elems(timers);
      assert forall u :: u in old(timers) <==> u in old(Elems(timers));
    }

    // ------------------------------------------------- the ordered set itself

    /** The first position whose timer does not come before `(next, address)`. */
    method LowerBound(next: nat, address: nat) returns (it: nat)
      requires Sorted(timers)
      ensures it <= |timers|
      ensures forall i :: 0 <= i < it ==> Before(timers[i], next, address)
      ensures forall i :: it <= i < |timers| ==> !Before(timers[i], next, address)
    {
      it := 0;
      while it < |timers| && Before(timers[it], next, address)
        invariant it <= |timers|
        invariant forall i :: 0 <= i < it ==> Before(timers[i], next, address)
      {
        it := it + 1;
      }
      forall i | it <= i < |timers|
        ensures !Before(timers[i], next, address)
      {
        if it < i {
          assert Less(timers[it], timers[i]);
        }
      }
    }

    static predicate Before(t: Timer, next: nat, address: nat)
      reads t`next
    {
      t.next < next || (t.next == next && t.address < address)
    }

    /** The position of an equivalent timer, or the end. */
    method Find(t: Timer) returns (it: nat)
      requires Shape() && t in known
      ensures it <= |timers|
      ensures t in timers ==> it < |timers| && timers[it] == t
      ensures t !in timers ==> it == |timers|
    {
      it := LowerBound(t.next, t.address);
      ghost var here := if it < |timers| then timers[it] else t;
      if t in timers {
        var k :| 0 <= k < |timers| && timers[k] == t;
        FrontBefore(timers, k);
      }
      if it < |timers| && !Less(t, timers[it]) {
        assert timers[it] in Elems(timers);
        return;
      }
      it := |timers|;
    }

    /** `std::set::erase` of one position. */
    method Erase(it: nat)
      requires Shape() && it < |timers|
      modifies `timers
      ensures Shape() && timers == old(timers[..it] + timers[it + 1..])
      ensures Elems(timers) == old(Elems(timers)) - {old(timers[it])}
    {
      ghost var before := timers;
      timers := timers[..it] + timers[it + 1..];
      ErasedElems(before, it);
    }

    /** Looks a timer up and erases it. */
    method TakeOut(t: Timer) returns (found: bool)
      requires Shape() && t in known
      modifies `timers
      ensures Shape() && found == old(t in timers) && t !in timers
      ensures Elems(timers) == old(Elems(timers)) - {t}
      ensures forall u :: u in timers ==> u in old(timers)
      ensures !found ==> timers == old(timers)
    {
      var it := Find(t);
      if it == |timers| {
        return false;
      }
      Erase(it);
      assert forall u :: u in timers ==> u in Elems(timers);
      return true;
    }

    /** `std::set::insert` of a timer whose address no member has. */
    method Insert(t: Timer) returns (it: nat)
      requires Shape() && t in known && t !in timers
      modifies `timers
      ensures Shape() && it <= |old(timers)| && timers == old(timers[..it] + [t] + timers[it..])
      ensures Elems(timers) == old(Elems(timers)) + {t}
    {
      it := LowerBound(t.next, t.address);
      assert forall u :: u in timers ==> u in Elems(timers);
      InsertedSorted(timers, it, t);
      timers := timers[..it] + [t] + timers[it..];
    }

    /** Inserts a timer; the answer says whether it became the first. */
    method InsertFirst(t: Timer) returns (first: bool)
      requires Shape() && t in known && t !in timers
      modifies `timers
      ensures Shape() && Sorted(timers) && timers != [] && (first <==> timers[0] == t)
      ensures Elems(timers) == old(Elems(timers)) + {t}
    {
      var it := Insert(t);
      assert timers[it] == t;
      assert it > 0 ==> timers[0] == old(timers)[0];
      return it == 0;
    }

    // --------------------------------------------------------------- arming

    /** Inserts a timer and sets the flag if it became the first; the answer says whether a call is owed. */
    method Arm(t: Timer) returns (owes: bool)
      requires Shape() && t in known && t !in timers
      requires F.Reaches(F.Start(), trace, front) && front.flag == flag && front.armed - {t} == Deadlines(timers)
      modifies `timers, `flag, `front, `trace
      ensures Shape() && FrontOk() && Elems(timers) == old(Elems(timers)) + {t}
      ensures trace == old(trace) + [F.Arm(t, t.next, timers[0] == t)]
      ensures front == F.Apply(old(front), F.Arm(t, t.next, timers[0] == t))
      ensures owes <==> timers[0] == t && !old(flag)
      ensures owes ==> front.round in front.owed
    {
      hide Less, Sorted, Elems, Shape, Deadlines, F.Reaches, F.Legal, F.Apply, F.Start;
      var first := InsertFirst(t);
      owes := first && !flag;
      ArmedFirst(t);
      NoteArm(t);
      if owes {
        flag := true;
      }
    }

    /** A timer was put into the set. */
    ghost method NoteArm(t: Timer)
      requires F.Reaches(F.Start(), trace, front) && timers != []
      requires F.Legal(front, F.Arm(t, t.next, timers[0] == t))
      modifies `front, `trace
      ensures F.Reaches(F.Start(), trace, front) && trace == old(trace) + [F.Arm(t, t.next, timers[0] == t)]
      ensures front == F.Apply(old(front), F.Arm(t, t.next, timers[0] == t))
      ensures front.armed == old(front.armed)[t := t.next]
      ensures front.flag == (old(front.flag) || timers[0] == t)
      ensures !old(front.flag) && timers[0] == t ==> front.round in front.owed
    {
      hide F.Reaches, F.Legal;
      Did(F.Arm(t, t.next, timers[0] == t));
    }

    /** The protocol's view of a timer just inserted. */
    twostate lemma ArmedFirst(t: Timer)
      requires Sorted(timers) && t !in old(timers) && unchanged(old(timers))
      requires Elems(timers) == old(Elems(timers)) + {t}
      requires front.armed - {t} == old(Deadlines(timers))
      ensures F.Legal(front, F.Arm(t, t.next, timers[0] == t))
      ensures front.armed[t := t.next] == Deadlines(timers)
    {
      assert forall u :: u in timers <==> u in Elems(timers);
      assert forall u :: u in old(timers) <==> u in old(Elems(timers));
      hide Elems, Sorted;
      forall u | u in front.armed && u != t
        ensures u in old(timers) && front.armed[u] == u.next
      {
        assert u in front.armed - {t};
      }
      var first := timers[0];
      if first == t {
        forall u | u in front.armed && u != t
          ensures t.next <= front.armed[u]
        {
          var i :| 0 <= i < |timers| && timers[i] == u;
          InOrder(timers, i);
        }
      } else {
        var i :| 0 <= i < |timers| && timers[i] == t;
        InOrder(timers, i);
        assert first in old(Deadlines(timers)) && first in front.armed - {t};
        assert first in front.armed && front.armed[first] <= t.next;
      }
    }

    /** Makes a timer and arms it. The clock was read before the lock was taken. */
    method AddTimer(ms: nat, cb: Option<Callback>, recurring: bool, now: nat, address: nat) returns (t: Timer, owes: bool)
      requires Valid() && ms + now < WORD
      requires forall u :: u in known ==> u.address != address
      modifies `timers, `flag, `front, `trace, `known, `clock
      ensures Valid() && fresh(t) && known == old(known) + {t}
      ensures Elems(timers) == old(Elems(timers)) + {t}
      ensures t.next == ms + now && t.ms == ms && t.cb == cb && t.recurring == recurring && t.armed == cb.Some?
      ensures clock == if now > old(clock) then now else old(clock)
      ensures trace == old(trace) + [F.Arm(t, t.next, timers[0] == t)]
      ensures owes <==> timers[0] == t && !old(flag)
      ensures owes ==> front.round in front.owed
    {
      hide Less, Sorted, Deadlines, F.Reaches, F.Legal, F.Apply;
      t := new Timer(address, ms, cb, recurring, now);
      assert forall u :: u in timers ==> u in Elems(timers);
      known := known + {t};
      if now > clock {
        clock := now;
      }
      assert Sorted(timers);
      owes := Arm(t);
      assert forall u :: u in timers <==> u in Elems(timers);
      assert forall u :: u in old(timers) <==> u in old(Elems(timers));
    }

    /** The call behind the unlock, for a round in which one was decided and is still owed. */
    method AddTimerFront(ghost decided: nat)
      requires Valid() && decided in front.owed
      modifies `front, `trace
      ensures Valid() && trace == old(trace) + [F.Tell(decided)]
      ensures front.calls == old(front.calls) + [F.Call(decided, front.round)]
    {
      Did(F.Tell(decided));
    }

    /** The last reference to a timer that is no longer in the set is dropped. */
    ghost method Forget(t: Timer)
      requires Valid() && t in known && t !in timers
      modifies `known
      ensures Valid() && known == old(known) - {t}
    {
      known := known - {t};
      assert forall u :: u in Elems(timers) ==> u in timers;
    }

    /** Cancels an armed timer: its callback is dropped and the lookup finds it. */
    method Cancel(t: Timer) returns (ok: bool)
      requires Valid() && t in known
      modifies `timers, `front, `trace, t`cb, t`cancelled
      ensures Valid() && ok == old(t.cb.Some?) && t.cb == None
      ensures trace == old(trace) + if ok then [F.TakenOut(t)] else []
      ensures Elems(timers) == if ok then old(Elems(timers)) - {t} else old(Elems(timers))
      ensures ok ==> t.cancelled && t !in timers && old(t in timers)
      ensures !ok ==> t.cancelled == old(t.cancelled) && timers == old(timers)
    {
      hide Less, Sorted, Deadlines, F.Reaches, F.Legal, F.Apply;
      if t.cb.Some? {
        assert LifeOk(t);
        t.cb := None;
        t.cancelled := true;
        var it := Find(t);
        assert it < |timers|;
        Erase(it);
        assert forall u :: u in timers <==> u in Elems(timers);
        assert forall u :: u in old(timers) <==> u in old(Elems(timers));
        OutDeadlines(t);
        NoteOut(t);
        return true;
      }
      return false;
    }

    /** Moving the deadline of one armed timer leaves every history as it was. */
    twostate lemma Moved(t: Timer)
      requires old(Valid()) && t in known && known == old(known) && Elems(timers) == old(Elems(timers))
      requires old(clock) <= clock && TimeOk(t)
      requires forall u :: u in known && u != t ==> unchanged(u)
      requires unchanged(t`cb) && unchanged(t`fired) && unchanged(t`cancelled)
      requires Shape() && FrontOk()
      ensures Valid()
    {
      hide Less, Sorted, Shape, FrontOk, F.Reaches;
      forall u | u in known
        ensures LifeOk(u) && TimeOk(u)
      {
        assert old(LifeOk(u) && TimeOk(u));
        assert u in timers <==> u in Elems(timers);
        assert old(u in timers) <==> u in old(Elems(timers));
      }
    }

    /** What the history of one timer says about its place and its deadline. */
    lemma ArmedFacts(t: Timer)
      requires Valid() && t in known
      ensures Shape() && FrontOk() && LifeOk(t) && (t.cb.Some? ==> t in timers && t in Elems(timers))
      ensures t.ms <= t.next < WORD && t.next - t.ms <= clock
    {
      assert LifeOk(t) && TimeOk(t);
    }

    /** Starts the period again. The clock is read under the lock. */
    method Refresh(t: Timer, now: nat) returns (ok: bool)
      requires Valid() && t in known && clock <= now && t.ms + now < WORD
      modifies `timers, `clock, `front, `trace, t`next
      ensures Valid() && ok == t.cb.Some? && Elems(timers) == old(Elems(timers))
      ensures trace == old(trace) + if ok then [F.Later(t, t.ms + now)] else []
      ensures t.next == if ok then t.ms + now else old(t.next)
      ensures t.next >= old(t.next)
      ensures clock == if ok then now else old(clock)
    {
      hide Less, Sorted, Deadlines, F.Reaches, F.Legal, F.Apply;
      if t.cb == None {
        return false;
      }
      assert LifeOk(t) && TimeOk(t);
      var found := TakeOut(t);
      if !found {
        return false;
      }
      clock := now;
      DeadlineWrapsIff(t.ms, now);
      t.next := Deadline(t.ms, now);
      assert Sorted(timers);
      var it := Insert(t);
      LaterDeadlines(t);
      NoteLater(t);
      Moved(t);
      return true;
    }

    /** Changes the period, counted from now or from the same start as before. */
    method Reset(t: Timer, ms: nat, fromNow: bool, now: nat) returns (ok: bool, owes: bool)
      requires Valid() && t in known
      requires ms < WORD && (if fromNow then now + ms else t.next - t.ms + ms) < WORD
      modifies `timers, `clock, `flag, `front, `trace, t`next, t`ms
      ensures Valid() && ok == t.cb.Some? && Elems(timers) == old(Elems(timers))
      ensures !ok ==> t.next == old(t.next) && t.ms == old(t.ms) && timers == old(timers) && flag == old(flag)
      ensures ok ==> t.ms == ms && t.next == (if fromNow then now else old(t.next - t.ms)) + ms
      ensures trace == old(trace) + if ok then [F.Arm(t, t.next, timers[0] == t)] else []
      ensures owes <==> ok && timers[0] == t && !old(flag)
      ensures owes ==> front.round in front.owed
    {
      hide Valid, LifeOk, Shape, Elems, Less, Sorted, Deadlines, F.Reaches, F.Legal, F.Apply;
      if t.cb == None {
        return false, false;
      }
      ArmedFacts(t);
      var found := TakeOut(t);
      if !found {
        return false, false;
      }
      var start;
      if fromNow {
        if now > clock {
          clock := now;
        }
        start := Deadline(now, ms);
      } else {
        start := Deadline((t.next - t.ms) % WORD, ms);
      }
      t.ms := ms;
      t.next := start;
      assert Sorted(timers);
      OutDeadlines(t);
      owes := Arm(t);
      Moved(t);
      ok := true;
    }

    // ------------------------------------------------------------- the poller

    lemma FirstInWord()
      requires Valid()
      ensures timers != [] ==> timers[0].next < WORD
    {
      if timers != [] {
        assert timers[0] in Elems(timers);
        assert TimeOk(timers[0]);
      }
    }

    /** How long the poller may sleep. Opens a new round of the front-change protocol. */
    method GetNextTime(now: nat) returns (wait: nat)
      requires Valid() && now < WORD
      modifies `flag, `front, `trace, `clock
      ensures Valid() && !flag && trace == old(trace) + [F.GetNext(front.seen)]
      ensures timers == [] ==> front.seen == None && wait == 0xffff_ffff_ffff_ffff
      ensures 0 <= wait <= 0xffff_ffff_ffff_ffff
      ensures timers != [] ==> front.seen.Some? && wait == if front.seen.value <= now then 0 else front.seen.value - now
      ensures front.seen.Some? ==>
        (forall t :: t in timers ==> front.seen.value <= t.next) && exists t :: t in timers && t.next == front.seen.value
    {
      hide Less, Sorted, Elems, Deadlines, F.Reaches, F.Legal, F.Apply;
      FirstInWord();
      flag := false;
      NoteLook();
      if |timers| == 0 {
        wait := NEVER;
      } else {
        if now > clock {
          clock := now;
        }
        var first := timers[0];
        wait := if now >= first.next then 0 else first.next - now;
      }
      forall t | t in known
        ensures LifeOk(t) && TimeOk(t)
      {
        assert old(LifeOk(t) && TimeOk(t));
      }
    }

    /** Takes out every timer that is due and hands out its callback; recurring ones are armed again. */
    method ListExpired(now: nat, probe: nat) returns (cbs: seq<Option<Callback>>)
      requires Valid() && now < WORD
      requires forall t :: t in timers && t.recurring ==> now + t.ms < WORD
      modifies `timers, `clock, `front, `trace, timers`next, timers`cb, timers`fired
      ensures Valid()
      ensures trace == old(trace) + if old(timers) == [] then [] else [old(Firing(timers, now))]
      ensures cbs == old(Callbacks(Due(timers, now)))
      ensures |cbs| <= |old(timers)| && forall i :: 0 <= i < |old(timers)| ==> (i < |cbs| <==> old(timers[i].next) <= now)
      ensures forall i :: 0 <= i < |cbs| ==> cbs[i] == old(timers[i].cb)
      ensures forall t :: t in timers <==> t in old(timers) && (old(t.next) > now || t.recurring)
      ensures forall t :: t in old(timers) ==> Outcome(t, now)
      ensures (forall t :: t in timers && t.recurring ==> t.ms > 0) ==> forall t :: t in timers ==> t.next > now
    {
      hide Less, Sorted, Due, Callbacks, Periodic, Elems, Shape, LifeOk, TimeOk, Deadlines, Firing, Outcome, F.Reaches, F.Legal, F.Apply;
      if |timers| == 0 {
        NothingDue(now);
        return [];
      }
      cbs := FireDue(now, probe);
      FiringLegal(now);
      Did(old(Firing(timers, now)));
      Fired(now);
    }

    /** The region under the lock. */
    method FireDue(now: nat, probe: nat) returns (cbs: seq<Option<Callback>>)
      requires Shape() && now < WORD
      requires forall t :: t in timers && t.recurring ==> now + t.ms < WORD
      modifies `timers, `clock, timers`next, timers`cb, timers`fired
      ensures Shape() && clock == if now > old(clock) then now else old(clock)
      ensures cbs == old(Callbacks(Due(timers, now)))
      ensures |cbs| <= |old(timers)| && forall i :: 0 <= i < |old(timers)| ==> (i < |cbs| <==> old(timers[i].next) <= now)
      ensures forall i :: 0 <= i < |cbs| ==> cbs[i] == old(timers[i].cb)
      ensures forall t :: t in timers <==> t in old(timers) && (old(t.next) > now || t.recurring)
      ensures forall t :: t in old(timers) ==> Outcome(t, now)
      ensures (forall t :: t in timers && t.recurring ==> t.ms > 0) ==> forall t :: t in timers ==> t.next > now
    {
      hide Less, Sorted, Due, Callbacks, Periodic, Elems, Shape;
      var it := CountDue(now, probe);
      cbs := Rearm(it, now);
      if now > clock {
        clock := now;
      }
      Membership(now);
    }

    /** Taking out the timers due, and putting the recurring ones back later, is a step of the protocol. */
    twostate lemma FiringLegal(now: nat)
      requires old(FrontOk()) && flag == old(flag) && front == old(front) && trace == old(trace)
      requires forall t :: t in timers <==> t in old(timers) && (old(t.next) > now || t.recurring)
      requires forall t :: t in old(timers) ==> Outcome(t, now)
      ensures F.Reaches(F.Start(), trace, front) && F.Legal(front, old(Firing(timers, now)))
      ensures F.Apply(front, old(Firing(timers, now))).armed == Deadlines(timers)
      ensures F.Apply(front, old(Firing(timers, now))).flag == flag
    {
      hide Less, Sorted, F.Reaches;
    }

    /** Who is in the set after the timers due have been handed out. */
    twostate lemma Membership(now: nat)
      requires |old(Due(timers, now))| <= |old(timers)|
      requires var n := |old(Due(timers, now))|;
        && Elems(timers) == Elems(old(timers)[n..]) + Periodic(old(timers)[..n])
        && (forall i :: 0 <= i < n ==> old(timers[i].next) <= now && HandedOut(old(timers)[i], now))
        && (forall i :: n <= i < |old(timers)| ==> old(timers[i].next) > now && unchanged(old(timers)[i]))
      ensures forall t :: t in timers <==> t in old(timers) && (old(t.next) > now || t.recurring)
      ensures forall t :: t in old(timers) ==> Outcome(t, now)
      ensures (forall t :: t in timers && t.recurring ==> t.ms > 0) ==> forall t :: t in timers ==> t.next > now
    {
      hide Due;
      ghost var n := |old(Due(timers, now))|;
      assert old(timers) == old(timers)[..n] + old(timers)[n..];
      assert forall t :: t in timers <==> t in Elems(timers);
    }

    /** Handing out callbacks keeps every history. */
    twostate lemma Fired(now: nat)
      requires old(Valid()) && known == old(known) && old(clock) <= clock && now <= clock
      requires forall t :: t in timers <==> t in old(timers) && (old(t.next) > now || t.recurring)
      requires forall t :: t in old(timers) ==> Outcome(t, now)
      requires forall t :: t in known && t !in old(timers) ==> unchanged(t)
      requires forall t :: t in timers && t.recurring ==> now + t.ms < WORD
      ensures forall t :: t in known ==> LifeOk(t) && TimeOk(t)
    {
      hide Less, Sorted, F.Reaches;
      forall t | t in known
        ensures LifeOk(t) && TimeOk(t)
      {
        assert old(LifeOk(t) && TimeOk(t));
      }
    }

    /** How many timers are due: the front of the set up to them. The probe's address does not matter. */
    method CountDue(now: nat, probe: nat) returns (it: nat)
      requires Shape()
      ensures it <= |timers| && Due(timers, now) == timers[..it]
      ensures forall i :: 0 <= i < it ==> timers[i].next <= now
      ensures forall i :: it <= i < |timers| ==> timers[i].next > now
    {
      it := LowerBound(now, probe);
      while it < |timers| && timers[it].next == now
        invariant it <= |timers|
        invariant forall i :: 0 <= i < it ==> timers[i].next <= now
        invariant forall i :: it <= i < |timers| ==> timers[i].next >= now
      {
        it := it + 1;
      }
      assert it < |timers| ==> forall i :: it < i < |timers| ==> Less(timers[it], timers[i]);
      CutDue(timers, it, now);
    }

    /** `std::set::erase` of the first `n` members. */
    method TakeFirst(n: nat) returns (expired: seq<Timer>)
      requires Shape() && n <= |timers|
      modifies `timers
      ensures Shape() && expired == old(timers)[..n] && timers == old(timers)[n..]
      ensures forall i :: 0 <= i < |old(timers)| ==> old(timers)[i] in known
      ensures forall i, j :: 0 <= i < j < |old(timers)| ==> old(timers)[i] != old(timers)[j]
    {
      SplitElems(timers, n);
      assert forall t :: t in timers ==> t in Elems(timers);
      expired, timers := timers[..n], timers[n..];
    }

    /** Takes out the first `n` timers, hands out their callbacks and puts the recurring ones back. */
    method Rearm(n: nat, now: nat) returns (cbs: seq<Option<Callback>>)
      requires Shape() && now < WORD && n <= |timers|
      requires forall t :: t in timers && t.recurring ==> now + t.ms < WORD
      modifies `timers, timers`next, timers`cb, timers`fired
      ensures Shape() && cbs == old(Callbacks(timers[..n]))
      ensures Elems(timers) == Elems(old(timers)[n..]) + Periodic(old(timers)[..n])
      ensures forall i :: 0 <= i < n ==> HandedOut(old(timers)[i], now)
      ensures forall i :: n <= i < |old(timers)| ==> unchanged(old(timers)[i])
    {
      hide Less, Sorted, Elems, Periodic, Callbacks, Shape;
      var expired := TakeFirst(n);
      cbs := [];
      var k := 0;
      NonePeriodic(expired);
      while k < |expired|
        invariant k <= |expired| == |old(Callbacks(expired))|
        invariant Shape()
        invariant cbs == old(Callbacks(expired))[..k]
        invariant Elems(timers) == Elems(old(timers)[n..]) + Periodic(expired[..k])
        invariant forall i :: 0 <= i < k ==> HandedOut(old(timers)[i], now)
        invariant forall i :: k <= i < |old(timers)| ==> unchanged(old(timers)[i])
        invariant forall i :: k <= i < n ==> expired[i] !in timers
      {
        assert expired[k] == old(timers)[k];
        var cb := HandOut(expired[k], now);
        assert HandedOut(old(timers)[k], now);
        cbs := cbs + [cb];
        PeriodicStep(expired, k);
        k := k + 1;
      }
      assert expired[..k] == expired;
    }

    /** One step of the loop over the timers taken out. */
    method HandOut(t: Timer, now: nat) returns (cb: Option<Callback>)
      requires Shape() && now < WORD && t in known && t !in timers
      requires t.recurring ==> now + t.ms < WORD
      modifies `timers, t`next, t`cb, t`fired
      ensures Shape() && cb == old(t.cb) && HandedOut(t, now)
      ensures Elems(timers) == old(Elems(timers)) + if t.recurring then {t} else {}
      ensures forall u :: u in timers ==> u in old(timers) || u == t
    {
      cb := t.cb;
      t.fired := t.fired + 1;
      if t.recurring {
        t.next := Deadline(now, t.ms);
        assert Sorted(timers);
        var it := Insert(t);
      } else {
        t.cb := None;
      }
    }

    /** What happens to one timer of the set when the poller lists the timers due. */
    twostate predicate Outcome(t: Timer, now: nat)
      reads t
    {
      if old(t.next) > now then unchanged(t) else HandedOut(t, now)
    }

    /** What firing does to one timer. */
    twostate predicate HandedOut(t: Timer, now: nat)
      reads t
    {
      && t.fired == old(t.fired) + 1 && t.ms == old(t.ms) && t.cancelled == old(t.cancelled)
      && (if t.recurring then t.next == now + t.ms && t.cb == old(t.cb) else t.next == old(t.next) && t.cb == None)
    }
  }

  ghost function Periodic(ts: seq<Timer>): set<Timer> {
    set t | t in ts && t.recurring
  }

  /** What the front-change protocol sees of the timers handed out. */
  ghost function Firing(ts: seq<Timer>, now: nat): F.Step<Timer>
    reads ts`next, ts`ms
  {
    F.Withdraw(set t | t in ts && t.next <= now, map t | t in ts && t.next <= now && t.recurring :: now + t.ms)
  }

  lemma InOrder(ts: seq<Timer>, i: nat)
    requires Sorted(ts) && i < |ts|
    ensures ts[0].next <= ts[i].next
  {
    assert i > 0 ==> Less(ts[0], ts[i]);
  }

  lemma NonePeriodic(ts: seq<Timer>)
    ensures Periodic(ts[..0]) == {}
  {
  }

  lemma PeriodicStep(ts: seq<Timer>, k: nat)
    requires k < |ts|
    ensures Periodic(ts[..k + 1]) == Periodic(ts[..k]) + if ts[k].recurring then {ts[k]} else {}
  {
    assert ts[..k + 1] == ts[..k] + [ts[k]];
  }

  /** The timers due at `now`, in the order of the set. */
  ghost function Due(ts: seq<Timer>, now: nat): seq<Timer>
    reads ts`next
  {
    if ts == [] then [] else (if ts[0].next <= now then [ts[0]] else []) + Due(ts[1..], now)
  }

  ghost function Callbacks(ts: seq<Timer>): (cbs: seq<Option<Callback>>)
    reads ts`cb
    ensures |cbs| == |ts| && forall i :: 0 <= i < |ts| ==> cbs[i] == ts[i].cb
  {
    if ts == [] then [] else [ts[0].cb] + Callbacks(ts[1..])
  }

  lemma NothingDue(now: nat)
    ensures Callbacks(Due([], now)) == []
  {
  }

  lemma {:induction false} CutDue(ts: seq<Timer>, it: nat, now: nat)
    requires it <= |ts|
    requires forall i :: 0 <= i < it ==> ts[i].next <= now
    requires forall i :: it <= i < |ts| ==> ts[i].next > now
    ensures Due(ts, now) == ts[..it]
  {
    if ts != [] {
      CutDue(ts[1..], if it == 0 then 0 else it - 1, now);
    }
  }

  lemma SplitElems(ts: seq<Timer>, it: nat)
    requires Sorted(ts) && it <= |ts|
    ensures Sorted(ts[it..]) && Elems(ts) == Elems(ts[..it]) + Elems(ts[it..])
    ensures forall i, j :: 0 <= i < j < |ts| ==> ts[i] != ts[j]
  {
    assert ts == ts[..it] + ts[it..];
    forall i, j | 0 <= i < j < |ts|
      ensures ts[i] != ts[j]
    {
      assert Less(ts[i], ts[j]);
    }
  }

  /** Everything in front of a member comes before it. */
  lemma FrontBefore(ts: seq<Timer>, k: nat)
    requires Sorted(ts) && k < |ts|
    ensures forall i :: 0 <= i < k ==> TimerManager.Before(ts[i], ts[k].next, ts[k].address)
    ensures !TimerManager.Before(ts[k], ts[k].next, ts[k].address)
  {
    assert forall i :: 0 <= i < k ==> Less(ts[i], ts[k]);
  }

  lemma ErasedElems(ts: seq<Timer>, it: nat)
    requires Sorted(ts) && it < |ts|
    ensures Sorted(ts[..it] + ts[it + 1..])
    ensures Elems(ts[..it] + ts[it + 1..]) == Elems(ts) - {ts[it]}
  {
    var rest := ts[..it] + ts[it + 1..];
    forall t
      ensures t in rest <==> t in ts && t != ts[it]
    {
      if t in ts && t != ts[it] {
        var k :| 0 <= k < |ts| && ts[k] == t;
        assert rest[if k < it then k else k - 1] == t;
      }
      if t in rest {
        var k :| 0 <= k < |rest| && rest[k] == t;
        assert if k < it then Less(ts[k], ts[it]) else Less(ts[it], ts[k + 1]);
      }
    }
  }

  lemma InsertedSorted(ts: seq<Timer>, it: nat, t: Timer)
    requires Sorted(ts) && it <= |ts|
    requires forall i :: 0 <= i < it ==> TimerManager.Before(ts[i], t.next, t.address)
    requires forall i :: it <= i < |ts| ==> !TimerManager.Before(ts[i], t.next, t.address)
    requires forall u :: u in ts ==> u.address != t.address
    ensures Sorted(ts[..it] + [t] + ts[it..])
    ensures Elems(ts[..it] + [t] + ts[it..]) == Elems(ts) + {t}
  {
    var all := ts[..it] + [t] + ts[it..];
    assert all[it] == t;
    forall u
      ensures u in all <==> u in ts || u == t
    {
      if u in ts {
        var k :| 0 <= k < |ts| && ts[k] == u;
        assert all[if k < it then k else k + 1] == u;
      }
    }
    forall i, j | 0 <= i < j < |all|
      ensures Less(all[i], all[j])
    {
      if i < it {
        assert all[i] == ts[i];
      } else if it < i {
        assert all[i] == ts[i - 1];
      }
      if j < it {
        assert all[j] == ts[j];
      } else if it < j {
        assert all[j] == ts[j - 1] && ts[j - 1] in ts;
      }
    }
  }
}
