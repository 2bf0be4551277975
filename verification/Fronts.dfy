/**
 The protocol that tells the poller of a new first timer, as a value. Every
 region under the lock is one step. The call of `addTimerFront` comes behind
 the unlock, so it is a step of its own: whatever the other threads do may come
 between the decision to call and the call. A round lasts from one
 `getNextTime` to the next.
 */
module Fronts {

  import opened Wrappers

  /** A call of `addTimerFront`: the round in which it was decided and the one in which it was made. */
  datatype Call = Call(decided: nat, made: nat)

  /** The deadlines armed, the flag, what the poller saw last, and the calls decided but not made, and made. */
  datatype Front<K> = Front(
    armed: map<K, nat>,
    flag: bool,
    seen: Option<nat>,
    round: nat,
    owed: multiset<nat>,
    calls: seq<Call>)

  /**
   `addTimer` and `reset` arm a timer, `first` in the set or not; `cancel`,
   `refresh` and `listExpiredCb` take timers out and put some back later;
   `getNextTime` looks at the first; a call decided before is made.
   */
  datatype Step<K> =
    | Arm(key: K, next: nat, first: bool)
    | Withdraw(gone: set<K>, again: map<K, nat>)
    | GetNext(earliest: Option<nat>)
    | Tell(decided: nat)

  /** `cancel` and `refresh` as steps. */
  function TakenOut<K>(key: K): Step<K> {
    Withdraw({key}, map[])
  }

  function Later<K>(key: K, next: nat): Step<K> {
    Withdraw({key}, map[key := next])
  }

  function Start<K>(): Front<K> {
    Front(map[], false, None, 0, multiset{}, [])
  }

  ghost predicate Legal<K>(p: Front<K>, step: Step<K>) {
    match step
    case Arm(key, next, first) =>
      if first
      then forall k :: k in p.armed && k != key ==> next <= p.armed[k]
      else exists k :: k in p.armed && k != key && p.armed[k] <= next
    case Withdraw(gone, again) =>
      && gone <= p.armed.Keys && again.Keys <= gone
      && forall k :: k in again ==> p.armed[k] <= again[k]
    case GetNext(earliest) =>
      if earliest.None? then p.armed == map[]
      else (forall k :: k in p.armed ==> earliest.value <= p.armed[k]) && earliest.value in p.armed.Values
    case Tell(decided) => decided in p.owed
  }

  function Apply<K>(p: Front<K>, step: Step<K>): Front<K> {
    match step
    case Arm(key, next, first) =>
      var q := p.(armed := p.armed[key := next]);
      if first && !p.flag then q.(flag := true, owed := p.owed + multiset{p.round}) else q
    case Withdraw(gone, again) => p.(armed := p.armed - gone + again)
    case GetNext(earliest) => p.(flag := false, seen := earliest, round := p.round + 1)
    case Tell(decided) =>
      p.(owed := p.owed - multiset{decided}, calls := p.calls + [Call(decided, p.round)])
  }

  ghost predicate LegalRun<K>(p: Front<K>, steps: seq<Step<K>>) {
    steps != [] ==>
      var n := |steps| - 1;
      LegalRun(p, steps[..n]) && Legal(Run(p, steps[..n]), steps[n])
  }

  ghost function Run<K>(p: Front<K>, steps: seq<Step<K>>): Front<K> {
    if steps == [] then p
    else Apply(Run(p, steps[..|steps| - 1]), steps[|steps| - 1])
  }

  ghost predicate Reaches<K>(p: Front<K>, steps: seq<Step<K>>, q: Front<K>) {
    LegalRun(p, steps) && Run(p, steps) == q
  }

  lemma Stay<K>(p: Front<K>)
    ensures Reaches(p, [], p)
  {
  }

  /** One more step. */
  lemma Then<K>(p: Front<K>, steps: seq<Step<K>>, q: Front<K>, step: Step<K>)
    requires Reaches(p, steps, q) && Legal(q, step)
    ensures Reaches(p, steps + [step], Apply(q, step))
  {
    assert (steps + [step])[..|steps|] == steps;
  }

  lemma ReachesIs<K>(p: Front<K>, steps: seq<Step<K>>, q: Front<K>)
    requires Reaches(p, steps, q)
    ensures LegalRun(p, steps) && Run(p, steps) == q
  {
  }

  // -------------------------------------------------------- counting the calls

  function Decided(calls: seq<Call>, r: nat): (n: nat)
    ensures n <= |calls|
  {
    if calls == [] then 0
    else Decided(calls[..|calls| - 1], r) + if calls[|calls| - 1].decided == r then 1 else 0
  }

  /** How many of the calls satisfy `own` or its opposite: decided in the round in which they are made. */
  function MadeIn(calls: seq<Call>, r: nat, own: bool): (n: nat)
    ensures n <= |calls|
  {
    if calls == [] then 0
    else MadeIn(calls[..|calls| - 1], r, own) + if Made(calls[|calls| - 1], r, own) then 1 else 0
  }

  predicate Made(call: Call, r: nat, own: bool) {
    call.made == r && (call.decided == r <==> own)
  }

  /** The calls made in a round: its own and those decided before. */
  function Calls<K>(p: Front<K>, r: nat): nat {
    MadeIn(p.calls, r, true) + MadeIn(p.calls, r, false)
  }

  /** How often the flag was set in a round: every time a call is decided, made or not. */
  function Decisions<K>(p: Front<K>, r: nat): nat {
    p.owed[r] + Decided(p.calls, r)
  }

  lemma OneMore(calls: seq<Call>, call: Call, r: nat)
    ensures Decided(calls + [call], r) == Decided(calls, r) + if call.decided == r then 1 else 0
    ensures MadeIn(calls + [call], r, true) == MadeIn(calls, r, true) + if Made(call, r, true) then 1 else 0
    ensures MadeIn(calls + [call], r, false) == MadeIn(calls, r, false) + if Made(call, r, false) then 1 else 0
  {
    assert (calls + [call])[..|calls|] == calls;
  }

  // ------------------------------------------------------------- the invariant

  /** What the poller saw is out of date: the timer is earlier, or nothing was armed then. */
  predicate Unseen<K>(p: Front<K>, key: K)
    requires key in p.armed
  {
    p.seen == None || p.armed[key] < p.seen.value
  }

  ghost predicate RoundOk<K>(p: Front<K>, r: nat) {
    && Decisions(p, r) <= (if r < p.round then 1 else 0) + (if r == p.round && p.flag then 1 else 0)
    && (r == p.round && p.flag ==> Decisions(p, r) == 1)
    && MadeIn(p.calls, r, true) <= Decided(p.calls, r)
    && (r == p.round ==> MadeIn(p.calls, r, true) == Decided(p.calls, r))
    && (r > p.round ==> Calls(p, r) == 0)
  }

  ghost predicate Ok<K>(p: Front<K>) {
    && (!p.flag ==> forall k :: k in p.armed ==> !Unseen(p, k))
    && (forall r: nat :: RoundOk(p, r))
    && |p.calls| + |p.owed| <= p.round + if p.flag then 1 else 0
  }

  lemma TellOk<K>(p: Front<K>, decided: nat)
    requires Ok(p) && Legal(p, Tell(decided))
    ensures Ok(Apply(p, Tell(decided)))
  {
    var q := Apply(p, Tell(decided));
    forall r: nat
      ensures RoundOk(q, r)
    {
      assert RoundOk(p, r) && RoundOk(p, p.round) && RoundOk(p, decided);
      OneMore(p.calls, Call(decided, p.round), r);
      hide Decided, MadeIn;
    }
  }

  lemma StepOk<K>(p: Front<K>, step: Step<K>)
    requires Ok(p) && Legal(p, step)
    ensures Ok(Apply(p, step))
  {
    hide Decided, MadeIn;
    if step.Tell? {
      TellOk(p, step.decided);
      return;
    }
    var q := Apply(p, step);
    forall r: nat
      ensures RoundOk(q, r)
    {
      assert RoundOk(p, r) && RoundOk(p, p.round);
    }
  }

  lemma {:induction false} RunOk<K>(p: Front<K>, steps: seq<Step<K>>)
    requires Ok(p) && LegalRun(p, steps)
    ensures Ok(Run(p, steps))
  {
    if steps != [] {
      RunOk(p, steps[..|steps| - 1]);
      StepOk(Run(p, steps[..|steps| - 1]), steps[|steps| - 1]);
    }
  }

  // --------------------------------------------------------------- the theorems

  /**
   No front change is missed, in any interleaving: if an armed timer is earlier
   than what the poller saw, exactly one call was decided in this round, and it
   has been made in this round or is still owed. In no round is more than one
   decided.
   */
  lemma NoMissedFront<K>(steps: seq<Step<K>>)
    requires LegalRun(Start<K>(), steps)
    ensures var p := Run(Start<K>(), steps);
      && (forall k :: k in p.armed && Unseen(p, k) ==> p.flag)
      && (p.flag <==> p.owed[p.round] + MadeIn(p.calls, p.round, true) == 1)
      && (!p.flag <==> p.owed[p.round] + MadeIn(p.calls, p.round, true) == 0)
      && (forall r: nat :: Decisions(p, r) <= 1)
      && |p.calls| + |p.owed| <= p.round + 1
  {
    var p := Run(Start<K>(), steps);
    assert Ok(Start<K>());
    RunOk(Start<K>(), steps);
    assert RoundOk(p, p.round);
    forall r: nat
      ensures Decisions(p, r) <= 1
    {
      assert RoundOk(p, r);
    }
  }

  /** A round makes more than one call only with the help of calls decided in earlier rounds. */
  lemma AtMostOneInRound<K>(steps: seq<Step<K>>, r: nat)
    requires LegalRun(Start<K>(), steps)
    ensures var p := Run(Start<K>(), steps);
      var late := MadeIn(p.calls, r, false);
      && MadeIn(p.calls, r, true) <= 1
      && (Calls(p, r) <= 1 <==> late == 0 || (late == 1 && MadeIn(p.calls, r, true) == 0))
  {
    assert Ok(Start<K>());
    RunOk(Start<K>(), steps);
    assert RoundOk(Run(Start<K>(), steps), r);
  }

  predicate NoLook<K>(steps: seq<Step<K>>) {
    forall i :: 0 <= i < |steps| ==> !steps[i].GetNext?
  }

  /** Every call made in the round and every call owed goes back to the one time the flag was set. */
  predicate AllOwn<K>(p: Front<K>, r: nat) {
    p.round == r && Calls(p, r) + |p.owed| <= if p.flag then 1 else 0
  }

  lemma OwnStep<K>(p: Front<K>, step: Step<K>, r: nat)
    requires AllOwn(p, r) && Legal(p, step) && !step.GetNext?
    ensures AllOwn(Apply(p, step), r)
  {
    if step.Tell? {
      OneMore(p.calls, Call(step.decided, p.round), r);
    }
    hide MadeIn;
  }

  lemma {:induction false} OwnRound<K>(p: Front<K>, steps: seq<Step<K>>)
    requires AllOwn(p, p.round) && LegalRun(p, steps) && NoLook(steps)
    ensures AllOwn(Run(p, steps), p.round)
  {
    if steps != [] {
      var n := |steps| - 1;
      assert !steps[n].GetNext?;
      hide AllOwn, Legal, Apply;
      OwnRound(p, steps[..n]);
      OwnStep(Run(p, steps[..n]), steps[n], p.round);
    }
  }

  /** A new first timer, its call, and a call left over from an earlier round. */
  function LeftOver<K>(p: Front<K>, left: nat, key: K): seq<Step<K>> {
    [] + [Arm(key, 0, true)] + [Tell(p.round)] + [Tell(left)]
  }

  lemma LeftOverLegal<K>(p: Front<K>, left: nat, key: K)
    requires !p.flag && left in p.owed
    ensures Legal(p, Arm(key, 0, true))
    ensures var p1 := Apply(p, Arm(key, 0, true));
      && p1.owed == p.owed + multiset{p.round} && p1.calls == p.calls && p1.round == p.round
      && Legal(p1, Tell(p.round)) && Legal(Apply(p1, Tell(p.round)), Tell(left))
  {
    hide Run, LegalRun, MadeIn;
  }

  lemma LeftOverCalls<K>(p1: Front<K>, left: nat)
    requires Legal(p1, Tell(p1.round)) && Legal(Apply(p1, Tell(p1.round)), Tell(left))
    ensures Calls(Apply(Apply(p1, Tell(p1.round)), Tell(left)), p1.round) == Calls(p1, p1.round) + 2
  {
    OneMore(p1.calls, Call(p1.round, p1.round), p1.round);
    OneMore(p1.calls + [Call(p1.round, p1.round)], Call(left, p1.round), p1.round);
    hide MadeIn;
  }

  lemma ToldBoth<K>(p: Front<K>, left: nat, key: K)
    requires !p.flag && left in p.owed && Calls(p, p.round) == 0
    ensures LegalRun(p, LeftOver(p, left, key)) && Calls(Run(p, LeftOver(p, left, key)), p.round) == 2
  {
    hide Legal, LegalRun, Run, MadeIn, Apply, Reaches;
    LeftOverLegal(p, left, key);
    var p1 := Apply(p, Arm(key, 0, true));
    LeftOverCalls(p1, left);
    Stay(p);
    Then(p, [], p, Arm(key, 0, true));
    Then(p, [] + [Arm(key, 0, true)], p1, Tell(p.round));
    Then(p, [] + [Arm(key, 0, true)] + [Tell(p.round)], Apply(p1, Tell(p.round)), Tell(left));
    ReachesIs(p, LeftOver(p, left, key), Apply(Apply(p1, Tell(p.round)), Tell(left)));
  }

  /**
   Whatever happens until the next `getNextTime`, the poller is told at most
   once, exactly if no call is owed when the round begins.
   */
  lemma AtMostOneIff<K>(before: Front<K>, earliest: Option<nat>, key: K)
    requires Ok(before) && Legal(before, GetNext(earliest))
    ensures var p := Apply(before, GetNext(earliest));
      (forall steps :: LegalRun(p, steps) && NoLook(steps) ==> Calls(Run(p, steps), p.round) <= 1)
      <==> before.owed == multiset{}
  {
    var p := Apply(before, GetNext(earliest));
    StepOk(before, GetNext(earliest));
    assert RoundOk(before, p.round);
    hide Ok, RoundOk, Legal, LegalRun, Run, MadeIn;
    if before.owed == multiset{} {
      forall steps | LegalRun(p, steps) && NoLook(steps)
        ensures Calls(Run(p, steps), p.round) <= 1
      {
        OwnRound(p, steps);
      }
    } else {
      var left :| left in before.owed;
      ToldBoth(p, left, key);
      assert NoLook(LeftOver(p, left, key));
    }
  }

  /**
   The poller can be told twice in one round: a thread decides to call and is
   held up behind the unlock; the poller looks; another thread arms an earlier
   timer and calls; then the first one calls. Before any call is made, a timer
   the poller has not seen is armed.
   */
  lemma ToldTwice()
    ensures Reaches(Start<nat>(), HeldUp(), Window())
    ensures Unseen(Window(), 1) && Window().calls == [] && Window().owed == multiset{0, 1}
    ensures LegalRun(Start<nat>(), HeldUp() + [Tell(1)] + [Tell(0)])
    ensures Run(Start<nat>(), HeldUp() + [Tell(1)] + [Tell(0)]).calls == [Call(1, 1), Call(0, 1)]
  {
    hide Legal, LegalRun, Run, Apply, Reaches, Unseen;
    var p := Start<nat>();
    var p1: Front<nat> := Front(map[0 := 10], true, None, 0, multiset{0}, []);
    var p2: Front<nat> := Front(map[0 := 10], false, Some(10), 1, multiset{0}, []);
    WindowSteps();
    assert HeldUp() == [] + [Arm(0, 10, true)] + [GetNext(Some(10))] + [Arm(1, 5, true)];
    Stay(p);
    Then(p, [], p, Arm(0, 10, true));
    Then(p, [] + [Arm(0, 10, true)], p1, GetNext(Some(10)));
    Then(p, [] + [Arm(0, 10, true)] + [GetNext(Some(10))], p2, Arm(1, 5, true));
    var p4: Front<nat> := Front(map[0 := 10, 1 := 5], true, Some(10), 1, multiset{0}, [Call(1, 1)]);
    var p5: Front<nat> := Front(map[0 := 10, 1 := 5], true, Some(10), 1, multiset{}, [Call(1, 1), Call(0, 1)]);
    Then(p, HeldUp(), Window(), Tell(1));
    Then(p, HeldUp() + [Tell(1)], p4, Tell(0));
    ReachesIs(p, HeldUp() + [Tell(1)] + [Tell(0)], p5);
  }

  /** Two threads have armed a first timer each, and the poller has looked in between. */
  function HeldUp(): seq<Step<nat>> {
    [] + [Arm(0, 10, true)] + [GetNext(Some(10))] + [Arm(1, 5, true)]
  }

  /** A new first timer is armed, and neither thread has called yet. */
  function Window(): Front<nat> {
    Front(map[0 := 10, 1 := 5], true, Some(10), 1, multiset{0, 1}, [])
  }

  lemma WindowSteps()
    ensures var p := Start<nat>();
      var p1: Front<nat> := Front(map[0 := 10], true, None, 0, multiset{0}, []);
      var p2: Front<nat> := Front(map[0 := 10], false, Some(10), 1, multiset{0}, []);
      && Legal(p, Arm(0, 10, true)) && Apply(p, Arm(0, 10, true)) == p1
      && Legal(p1, GetNext(Some(10))) && Apply(p1, GetNext(Some(10))) == p2
      && Legal(p2, Arm(1, 5, true)) && Apply(p2, Arm(1, 5, true)) == Window()
    ensures var p4: Front<nat> := Front(map[0 := 10, 1 := 5], true, Some(10), 1, multiset{0}, [Call(1, 1)]);
      var p5: Front<nat> := Front(map[0 := 10, 1 := 5], true, Some(10), 1, multiset{}, [Call(1, 1), Call(0, 1)]);
      && Legal(Window(), Tell(1)) && Apply(Window(), Tell(1)) == p4
      && Legal(p4, Tell(0)) && Apply(p4, Tell(0)) == p5
    ensures Unseen(Window(), 1)
  {
    var p1: Front<nat> := Front(map[0 := 10], true, None, 0, multiset{0}, []);
    assert p1.armed[0] in p1.armed.Values;
  }
}
