/**
 The byte buffer seen from outside: one flat sequence as long as the
 capacity, a position and a size. Each operation is a relation between
 the state before and the state after it.
 */
module Flat {
  import opened Blocks

  datatype Result<+T> = Ok(value: T) | OutOfRange

  datatype State = State(bytes: seq<byte>, pos: nat, size: nat)

  // ---------------------------------------------------------------- growth

  /** The number of blocks that a request for `more` bytes appends when `remain` bytes are left. */
  function GrowBlocks(base: nat, remain: nat, more: nat): nat
    requires 0 < base
  {
    if remain >= more then 0
    else
      var size := more - remain;
      size / base + if size % base > remain then 1 else 0
  }

  /** The condition under which the growth formula leaves room for `more` bytes. */
  predicate Fits(base: nat, remain: nat, more: nat)
    requires 0 < base
  {
    || more <= remain
    || (more - remain) % base == 0
    || (more - remain) % base > remain
  }

  /** The formula leaves enough room exactly under `Fits`, and never a whole spare block. */
  lemma GrowthSufficesIff(base: nat, remain: nat, more: nat)
    requires 0 < base
    ensures Fits(base, remain, more) <==> remain + GrowBlocks(base, remain, more) * base >= more
    ensures remain < more ==> remain + GrowBlocks(base, remain, more) * base < more + base
  {
    if remain < more {
      var size := more - remain;
      assert size == (size / base) * base + size % base;
      assert (size / base + 1) * base == (size / base) * base + base;
    }
  }

  /** A request that the formula under-serves: blocks of 4, 3 bytes left, 5 wanted. */
  lemma GrowthCanFallShort()
    ensures 3 + GrowBlocks(4, 3, 5) * 4 < 5
  {
  }

  /** Requests that always fit. */
  lemma FitsAlways(base: nat, remain: nat, more: nat)
    requires 0 < base
    requires base == 1 || remain == 0 || more <= remain || more == 1
    ensures Fits(base, remain, more)
  {
    if remain == 0 && 0 < more {
      assert (more - remain) % base == 0 || (more - remain) % base > 0;
    }
  }

  lemma NeedsBlocks(base: nat, remain: nat, more: nat)
    requires 0 < base
    ensures more <= remain ==> GrowBlocks(base, remain, more) == 0
    ensures remain == 0 < more ==> 0 < GrowBlocks(base, remain, more)
  {
    if remain == 0 < more && more / base == 0 {
      assert more == (more / base) * base + more % base;
    }
  }

  // ------------------------------------------------------------ operations

  function Max(x: nat, y: nat): nat {
    if x < y then y else x
  }

  /** With room made for `room` bytes, bytes `[pos, pos + |buf|)` become `buf` and all other old bytes stay. */
  ghost predicate WriteEffect(base: nat, s: State, room: nat, buf: seq<byte>, t: State)
    requires 0 < base && s.pos <= |s.bytes|
  {
    && t.pos == s.pos + |buf| <= |t.bytes|
    && t.size == Max(s.size, t.pos)
    && |t.bytes| == |s.bytes| + GrowBlocks(base, |s.bytes| - s.pos, room) * base
    && t.bytes[..s.pos] == s.bytes[..s.pos]
    && t.bytes[s.pos..t.pos] == buf
    && (forall k :: t.pos <= k < |s.bytes| ==> t.bytes[k] == s.bytes[k])
  }

  /** Growing and then overwriting is a write. */
  lemma SpliceIsWrite(base: nat, s: State, room: nat, grown: seq<byte>, buf: seq<byte>)
    requires 0 < base && s.pos <= |s.bytes| && s.bytes <= grown
    requires |grown| == |s.bytes| + GrowBlocks(base, |s.bytes| - s.pos, room) * base
    requires s.pos + |buf| <= |grown|
    ensures WriteEffect(base, s, room, buf, State(Splice(grown, s.pos, buf), s.pos + |buf|, Max(s.size, s.pos + |buf|)))
  {
    hide GrowBlocks;
    assert grown[..s.pos] == s.bytes[..s.pos];
  }

  /** Exactly the next `n` bytes up to the size, or an exception that leaves the state alone. */
  ghost predicate ReadEffect(s: State, n: nat, r: Result<seq<byte>>, t: State)
    requires s.pos <= s.size <= |s.bytes|
  {
    if n > s.size - s.pos then
      r == OutOfRange && t == s
    else
      r == Ok(s.bytes[s.pos..s.pos + n]) && t == s.(pos := s.pos + n)
  }

  ghost predicate SeekEffect(s: State, v: nat, ok: bool, t: State) {
    && ok == (v <= |s.bytes|)
    && t == if ok then s.(pos := v, size := Max(s.size, v)) else s
  }

  ghost predicate ClearEffect(base: nat, s: State, t: State) {
    base <= |s.bytes| && t == State(s.bytes[..base], 0, 0)
  }

  // ------------------------------------------------------------------ runs

  datatype Op = Write(buf: seq<byte>) | Read(n: nat) | Seek(v: nat) | Clear

  ghost predicate Ready(s: State) {
    s.pos <= s.size <= |s.bytes|
  }

  ghost predicate Step(base: nat, s: State, op: Op, t: State)
    requires 0 < base && Ready(s)
  {
    match op
    case Write(buf) => WriteEffect(base, s, |buf|, buf, t)
    case Read(n) => exists r :: ReadEffect(s, n, r, t)
    case Seek(v) => exists ok :: SeekEffect(s, v, ok, t)
    case Clear => ClearEffect(base, s, t)
  }

  /** `states` is a run of `ops`. */
  ghost predicate Run(base: nat, states: seq<State>, ops: seq<Op>)
    requires 0 < base
  {
    && |states| == |ops| + 1
    && (forall i :: 0 <= i < |states| ==> Ready(states[i]))
    && (forall i :: 0 <= i < |ops| ==> Step(base, states[i], ops[i], states[i + 1]))
  }

  // --------------------------------------------------- which runs are allowed

  /** The three numbers that decide whether an operation is in order. */
  datatype Sizes = Sizes(capacity: nat, pos: nat, size: nat)

  function SizesOf(s: State): Sizes {
    Sizes(|s.bytes|, s.pos, s.size)
  }

  /** Writes fit after growing, and a read of nothing is not made at the capacity. */
  predicate InOrder(base: nat, s: Sizes, op: Op)
    requires 0 < base && s.pos <= s.size <= s.capacity
  {
    match op
    case Write(buf) => Fits(base, s.capacity - s.pos, |buf|)
    case Read(n) => n == 0 ==> s.pos < s.capacity
    case _ => true
  }

  function After(base: nat, s: Sizes, op: Op): Sizes
    requires 0 < base && s.pos <= s.size <= s.capacity
  {
    match op
    case Write(buf) =>
      Sizes(s.capacity + GrowBlocks(base, s.capacity - s.pos, |buf|) * base, s.pos + |buf|, Max(s.size, s.pos + |buf|))
    case Read(n) => if n > s.size - s.pos then s else s.(pos := s.pos + n)
    case Seek(v) => if v <= s.capacity then s.(pos := v, size := Max(s.size, v)) else s
    case Clear => Sizes(base, 0, 0)
  }

  predicate Allowed(base: nat, s: Sizes, ops: seq<Op>)
    requires 0 < base
    decreases |ops|
  {
    ops != [] ==>
      && s.pos <= s.size <= s.capacity
      && InOrder(base, s, ops[0])
      && Allowed(base, After(base, s, ops[0]), ops[1..])
  }

  /** The furthest position of a run, where a `Clear` starts afresh. */
  ghost function Furthest(states: seq<State>, ops: seq<Op>): nat
    requires |states| == |ops| + 1
  {
    if ops == [] then states[0].pos
    else
      var n := |ops| - 1;
      if ops[n] == Clear then 0
      else Max(Furthest(states[..n + 1], ops[..n]), states[n + 1].pos)
  }

  /** A list of operations is allowed exactly if along its run every operation is in order. */
  lemma {:induction false} AllowedIff(base: nat, states: seq<State>, ops: seq<Op>)
    requires 0 < base && Run(base, states, ops)
    ensures Allowed(base, SizesOf(states[0]), ops) <==>
      forall i :: 0 <= i < |ops| ==> InOrder(base, SizesOf(states[i]), ops[i])
    decreases |ops|
  {
    if ops != [] {
      assert Step(base, states[0], ops[0], states[1]) && Ready(states[0]);
      StepIsAfter(base, states[0], ops[0], states[1]);
      forall i | 0 <= i < |ops| - 1
        ensures Step(base, states[1..][i], ops[1..][i], states[1..][i + 1])
      {
        assert Step(base, states[i + 1], ops[i + 1], states[i + 2]);
      }
      AllowedIff(base, states[1..], ops[1..]);
      hide Step, Run, InOrder, After;
      assert forall i :: 0 < i < |ops| ==> ops[i] == ops[1..][i - 1] && states[i] == states[1..][i - 1];
    }
  }

  lemma StepIsAfter(base: nat, s: State, op: Op, t: State)
    requires 0 < base && Ready(s) && Step(base, s, op, t)
    ensures SizesOf(t) == After(base, SizesOf(s), op)
  {
    hide GrowBlocks;
  }

  /** With one-byte blocks every list of operations is allowed that reads no empty strings. */
  lemma {:induction false} UnitBlocksAllowed(s: Sizes, ops: seq<Op>)
    requires s.pos <= s.size <= s.capacity && forall i :: 0 <= i < |ops| && ops[i].Read? ==> ops[i].n > 0
    ensures Allowed(1, s, ops)
    decreases |ops|
  {
    if ops != [] {
      if ops[0].Write? {
        FitsAlways(1, s.capacity - s.pos, |ops[0].buf|);
        GrowthSufficesIff(1, s.capacity - s.pos, |ops[0].buf|);
      }
      hide GrowBlocks, Fits;
      UnitBlocksAllowed(After(1, s, ops[0]), ops[1..]);
    }
  }

  /** One more operation of a run, and what is left stays allowed. */
  lemma Advance(base: nat, states: seq<State>, ops: seq<Op>, i: nat, t: State)
    requires 0 < base && i < |ops| && |states| == i + 1 && Run(base, states, ops[..i]) && Ready(states[i]) && Ready(t)
    requires Step(base, states[i], ops[i], t) && Allowed(base, SizesOf(states[i]), ops[i..])
    ensures Run(base, states + [t], ops[..i + 1]) && Allowed(base, SizesOf(t), ops[i + 1..])
  {
    StepIsAfter(base, states[i], ops[i], t);
    hide Step, Ready, InOrder, After;
    assert ops[i..][1..] == ops[i + 1..];
    assert ops[..i] + [ops[i]] == ops[..i + 1];
  }

  /** Over any run from a fresh buffer, the size is the furthest position since the start or the last `Clear`. */
  lemma {:induction false} SizeIsFurthest(base: nat, states: seq<State>, ops: seq<Op>)
    requires 0 < base && Run(base, states, ops)
    requires states[0].size == states[0].pos
    ensures states[|ops|].size == Furthest(states, ops)
  {
    if ops == [] {
    } else {
      var n := |ops| - 1;
      assert Run(base, states[..n + 1], ops[..n]);
      SizeIsFurthest(base, states[..n + 1], ops[..n]);
      assert Step(base, states[n], ops[n], states[n + 1]);
    }
  }
}
