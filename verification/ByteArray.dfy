/**
 The chained byte buffer: a list of equal blocks and a cursor block.
 Its contents are the flat sequence of all block bytes, and every
 operation is specified on that sequence.
 */
module ByteArrays {
  import opened Blocks
  import opened Flat

  lemma CapacityGrows(n: nat, count: nat, base: nat)
    ensures Start(n + count, base) == Start(n, base) + count * base
  {
    StartIsProduct(n + count, base);
    StartIsProduct(n, base);
  }

  // ---------------------------------------------------------------- blocks

  class Node {
    const size: nat
    const ptr: array<byte>
    var next: Node?

    constructor (s: nat)
      ensures size == s && next == null
      ensures fresh(ptr) && ptr.Length == s
    {
      size := s;
      ptr := new byte[s];
      next := null;
    }
  }

  /** Copies `src` over the bytes of `dst` from `off` on. */
  method CopyInto(dst: array<byte>, off: nat, src: seq<byte>)
    requires off + |src| <= dst.Length
    modifies dst
    ensures dst[..] == Splice(old(dst[..]), off, src)
  {
    forall k | 0 <= k < |src| {
      dst[off + k] := src[k];
    }
  }

  /** A view of `len` bytes of a block, as handed to scatter and gather system calls. */
  datatype IoVec = IoVec(ptr: array<byte>, off: nat, len: nat)

  ghost function TotalLen(buffers: seq<IoVec>): nat {
    if buffers == [] then 0 else TotalLen(buffers[..|buffers| - 1]) + buffers[|buffers| - 1].len
  }

  lemma TotalLenStep(buffers: seq<IoVec>, i: nat)
    requires i < |buffers|
    ensures TotalLen(buffers[..i + 1]) == TotalLen(buffers[..i]) + buffers[i].len
  {
    assert buffers[..i + 1][..i] == buffers[..i];
  }

  lemma {:induction false} TotalLenMono(buffers: seq<IoVec>, i: nat, j: nat)
    requires i < j <= |buffers|
    ensures TotalLen(buffers[..i]) + buffers[i].len <= TotalLen(buffers[..j])
  {
    assert buffers[..j][..j - 1] == buffers[..j - 1];
    if i + 1 < j {
      TotalLenMono(buffers, i, j - 1);
    }
  }

  /** The bytes under all pieces, in order. */
  ghost function Gathered(buffers: seq<IoVec>): seq<byte>
    requires forall i :: 0 <= i < |buffers| ==> buffers[i].off + buffers[i].len <= buffers[i].ptr.Length
    reads set i | 0 <= i < |buffers| :: buffers[i].ptr
  {
    if buffers == [] then []
    else
      var n := |buffers| - 1;
      Gathered(buffers[..n]) + buffers[n].ptr[buffers[n].off..buffers[n].off + buffers[n].len]
  }

  class ByteArray {
    const baseSize: nat
    var position: nat
    var capacity: nat
    var size: nat
    var root: Node
    var cur: Node?
    ghost var at: nat                 // number of the block that `position` lies in
    ghost var nodes: seq<Node>        // the blocks from `root` on
    ghost var store: seq<seq<byte>>   // their bytes
    ghost var Repr: set<object>

    /** The list structure: `nodes` are the blocks reachable from `root`, all different, all of one size. */
    ghost predicate Chain()
      reads `nodes, `root, `capacity, `Repr, `store, nodes, set n | n in nodes :: n.ptr
    {
      && this !in Repr
      && 0 < baseSize
      && nodes != [] && nodes[0] == root
      && (forall i :: 0 <= i < |nodes| ==> nodes[i] in Repr && nodes[i].ptr in Repr && nodes[i].size == nodes[i].ptr.Length == baseSize)
      && (forall i, j :: 0 <= i < j == i + 1 < |nodes| ==> nodes[i].next == nodes[j])
      && nodes[|nodes| - 1].next == null
      && (forall i, j :: 0 <= i < j < |nodes| ==> nodes[i] != nodes[j] && nodes[i].ptr != nodes[j].ptr)
      && capacity == Start(|nodes|, baseSize)
      && |store| == |nodes|
      && (forall i :: 0 <= i < |nodes| ==> store[i] == nodes[i].ptr[..])
    }

    /** Block number `q`, or null behind the last block. */
    ghost function Block(q: nat): Node?
      reads `nodes
    {
      if q < |nodes| then nodes[q] else null
    }

    /** `at` is the number of the block that `position` lies in, and `cur` is that block. */
    ghost predicate Cursor()
      reads `nodes, `root, `capacity, `Repr, `store, `position, `at, `cur, nodes, set n | n in nodes :: n.ptr
    {
      && Chain()
      && position <= capacity
      && InBlock(position, baseSize, at)
      && cur == Block(at)
    }

    ghost predicate Valid()
      reads this, nodes, set n | n in nodes :: n.ptr
    {
      && Cursor()
      && position <= size <= capacity
    }

    /** All bytes of the buffer, up to the capacity. */
    ghost function Contents(): seq<byte>
      reads `store
    {
      Flatten(store)
    }

    /** The buffer as a flat state. */
    ghost function View(): State
      reads `store, `position, `size
    {
      State(Contents(), position, size)
    }

    lemma ContentsLength()
      requires Chain()
      ensures |Contents()| == capacity
    {
      FlattenLength(store, baseSize);
    }

    /** The cursor is block `position / baseSize`, and it is null exactly at the capacity. */
    lemma CursorIsQuotient()
      requires Valid()
      ensures cur == Block(position / baseSize)
      ensures cur == null <==> position == capacity
    {
      InBlockIsDivMod(position, baseSize, at);
      InBlockOrder(position, baseSize, at, |nodes|);
    }

    lemma CursorBlock()
      requires Cursor()
      ensures InBlock(position, baseSize, at) && position % baseSize == position - Start(at, baseSize)
      ensures Chain() && this !in Repr && 0 < baseSize && cur == Block(at) && position <= capacity
      ensures (at < |nodes| <==> position < capacity)
      ensures at < |nodes| ==> cur != null && cur == nodes[at] && cur.size == baseSize
    {
      InBlockIsDivMod(position, baseSize, at);
      InBlockOrder(position, baseSize, at, |nodes|);
    }

    constructor (base: nat)
      requires 0 < base
      ensures Valid() && fresh(Repr)
      ensures baseSize == base && capacity == base && position == size == 0
    {
      var first := new Node(base);
      baseSize := base;
      position, size, capacity := 0, 0, base;
      root, cur := first, first;
      at, nodes, store, Repr := 0, [first], [first.ptr[..]], {first, first.ptr};
    }

    function RemainCapacity(): (r: int)
      reads this
    {
      capacity - position
    }

    function ReadSize(): (r: int)
      reads this
    {
      size - position
    }

    // -------------------------------------------------------------- growing

    /** Walks to the last block of the list. */
    method LastBlock() returns (tmp: Node)
      requires Chain()
      ensures tmp == nodes[|nodes| - 1]
    {
      tmp := root;
      ghost var last := 0;
      while tmp.next != null
        invariant 0 <= last < |nodes| && tmp == nodes[last]
        invariant tmp.next == Block(last + 1)
        decreases |nodes| - last
      {
        tmp := tmp.next;
        last := last + 1;
      }
    }

    /** One turn of the growth loop: a new block behind the last one. */
    method AppendBlock(last: Node) returns (node: Node)
      requires Chain() && last == nodes[|nodes| - 1]
      modifies `nodes, `store, `Repr, `capacity, last`next
      ensures Chain() && fresh(node) && fresh(node.ptr) && Repr == old(Repr) + {node, node.ptr}
      ensures nodes == old(nodes) + [node]
      ensures Contents() == old(Contents()) + node.ptr[..]
    {
      node := new Node(baseSize);
      FlattenAppend(store, node.ptr[..]);
      last.next := node;
      nodes, store, Repr := nodes + [node], store + [node.ptr[..]], Repr + {node, node.ptr};
      capacity := capacity + baseSize;
    }

    /** Appends `count` blocks and returns the first of them. */
    method AppendBlocks(count: nat) returns (first: Node?)
      requires Chain()
      modifies `nodes, `store, `Repr, `capacity, Repr
      ensures Chain() && fresh(Repr - old(Repr)) && old(Repr) <= Repr
      ensures old(nodes) <= nodes && |nodes| == old(|nodes|) + count
      ensures first == if count == 0 then null else nodes[old(|nodes|)]
      ensures old(Contents()) <= Contents()
    {
      var tmp := LastBlock();
      first := null;
      for i := 0 to count
        invariant Chain() && fresh(Repr - old(Repr)) && old(Repr) <= Repr
        invariant old(nodes) <= nodes && |nodes| == old(|nodes|) + i
        invariant tmp == nodes[|nodes| - 1]
        invariant first == if i == 0 then null else nodes[old(|nodes|)]
        invariant old(Contents()) <= Contents()
      {
        var node := AppendBlock(tmp);
        if first == null {
          first := node;
        }
        tmp := node;
      }
    }

    /** Appends blocks and re-aims a cursor that stood behind the last block. */
    method GrowBy(count: nat)
      requires Cursor() && (position == capacity ==> 0 < count)
      modifies `nodes, `store, `Repr, `capacity, `cur, Repr
      ensures Cursor() && fresh(Repr - old(Repr)) && old(Repr) <= Repr
      ensures capacity == old(capacity) + count * baseSize
      ensures old(nodes) <= nodes && old(Contents()) <= Contents()
    {
      var oldCap := RemainCapacity();
      InBlockOrder(position, baseSize, at, |nodes|);
      CapacityGrows(|nodes|, count, baseSize);
      var first := AppendBlocks(count);
      if oldCap == 0 {
        cur := first;
      }
    }

    /** Makes room for `moreSize` bytes, as far as the growth formula goes. */
    method AddCapacity(moreSize: nat)
      requires Valid()
      modifies `nodes, `store, `Repr, `capacity, `cur, Repr
      ensures Valid() && fresh(Repr - old(Repr)) && old(Repr) <= Repr
      ensures capacity == old(capacity) + GrowBlocks(baseSize, old(capacity) - position, moreSize) * baseSize
      ensures old(nodes) <= nodes && old(Contents()) <= Contents()
    {
      hide Cursor, GrowBlocks;
      CursorBlock();
      NeedsBlocks(baseSize, capacity - position, moreSize);
      if moreSize == 0 {
        return;
      }
      var oldCap := RemainCapacity();
      if oldCap >= moreSize {
        return;
      }
      var count := GrowBlocks(baseSize, oldCap, moreSize);
      GrowBy(count);
    }

    // -------------------------------------------------------------- writing

    /** Copies `piece` into block `q` at `npos`. */
    method Poke(ptr: array<byte>, ghost q: nat, npos: nat, piece: seq<byte>)
      requires Chain() && q < |nodes| && ptr == nodes[q].ptr && npos + |piece| <= baseSize
      modifies ptr, `store
      ensures Chain() && Start(q, baseSize) + npos + |piece| <= |old(Contents())|
      ensures Contents() == Splice(old(Contents()), Start(q, baseSize) + npos, piece)
    {
      FlattenSplice(store, baseSize, q, npos, piece);
      CopyInto(ptr, npos, piece);
      store := store[q := Splice(store[q], npos, piece)];
    }

    /** Copies `piece` to `position`, inside the cursor block, and moves behind it. */
    method PutPiece(npos: nat, piece: seq<byte>)
      requires Cursor() && at < |nodes|
      requires Start(at, baseSize) + npos == position && npos + |piece| <= baseSize
      modifies `position, `cur, `at, `store, Repr
      ensures Cursor() && (npos + |piece| == baseSize ==> position == Start(at, baseSize))
      ensures position == old(position) + |piece| <= |old(Contents())|
      ensures Contents() == Splice(old(Contents()), old(position), piece)
    {
      Poke(cur.ptr, at, npos, piece);
      StepOver(npos, |piece|);
    }

    /** Moves `n` bytes on, inside or to the end of the cursor block. */
    method StepOver(npos: nat, n: nat)
      requires Cursor() && at < |nodes|
      requires Start(at, baseSize) + npos == position && npos + n <= baseSize
      modifies `position, `cur, `at
      ensures Cursor() && (npos + n == baseSize ==> position == Start(at, baseSize))
      ensures position == old(position) + n
    {
      StartMono(at, |nodes|, baseSize);
      position := position + n;
      if cur.size == npos + n {
        cur := cur.next;
        at := at + 1;
      }
    }

    /** Copies the next `n` bytes of `buf` into the cursor block and moves past them. */
    method PutMore(ghost grown: seq<byte>, ghost start: nat, buf: seq<byte>, bpos: nat, npos: nat, n: nat)
      requires Cursor() && at < |nodes| && Start(at, baseSize) + npos == position && npos + n <= baseSize
      requires bpos + n <= |buf| && start + |buf| <= |grown| && position == start + bpos
      requires Contents() == Splice(grown, start, buf[..bpos])
      modifies `position, `cur, `at, `store, Repr
      ensures Cursor() && (npos + n == baseSize ==> position == Start(at, baseSize))
      ensures position == start + bpos + n
      ensures Contents() == Splice(grown, start, buf[..bpos + n])
    {
      hide *;
      ExtendSplice(grown, start, buf, bpos, n);
      PutPiece(npos, buf[bpos..bpos + n]);
    }

    /** The copy loop of `Write`, once there is room. */
    method WriteLoop(buf: seq<byte>)
      requires Cursor() && position < capacity
      requires position + |buf| <= capacity == |Contents()|
      modifies `position, `size, `cur, `at, `store, Repr
      ensures Cursor()
      ensures position == old(position) + |buf| <= |old(Contents())|
      ensures size == if 0 < |buf| && position > old(size) then position else old(size)
      ensures Contents() == Splice(old(Contents()), old(position), buf)
    {
      hide *;
      ghost var start, grown := position, Contents();
      CursorBlock();
      var npos: nat := position % baseSize;
      var ncap: nat := cur.size - npos;
      var bpos: nat, n: nat := 0, |buf|;
      SpliceNothing(grown, start, buf);
      while n > 0
        invariant Cursor() && bpos + n == |buf| && position == start + bpos
        invariant n > 0 ==> ncap == baseSize - npos && Start(at, baseSize) + npos == position
        invariant Contents() == Splice(grown, start, buf[..bpos])
        invariant size == if 0 < bpos && position > old(size) then position else old(size)
      {
        CursorBlock();
        if ncap >= n {
          PutMore(grown, start, buf, bpos, npos, n);
          bpos := bpos + n;
          n := 0;
        } else {
          PutMore(grown, start, buf, bpos, npos, ncap);
          bpos := bpos + ncap;
          n := n - ncap;
          CursorBlock();
          ncap := cur.size;
          npos := 0;
        }
        if position > size {
          size := position;
        }
      }
      assert buf[..bpos] == buf;
    }

    /** Overwrites the bytes from `position` on with `buf` and moves behind them. */
    method Write(buf: seq<byte>)
      requires Valid()
      requires Fits(baseSize, capacity - position, |buf|)
      modifies this, Repr
      ensures Valid() && fresh(Repr - old(Repr)) && old(Repr) <= Repr
      ensures old(Ready(View())) && WriteEffect(baseSize, old(View()), |buf|, buf, View())
    {
      ContentsLength();
      GrowthSufficesIff(baseSize, capacity - position, |buf|);
      NeedsBlocks(baseSize, capacity - position, |buf|);
      ghost var s := View();
      hide GrowBlocks, Cursor, Fits, WriteEffect, Splice;
      if |buf| == 0 {
        SpliceIsWrite(baseSize, s, 0, s.bytes, buf);
        SpliceNothing(s.bytes, s.pos, buf);
        return;
      }
      AddCapacity(|buf|);
      ContentsLength();
      SpliceIsWrite(baseSize, s, |buf|, Contents(), buf);
      WriteLoop(buf);
    }

    // -------------------------------------------------------------- reading

    /** The bytes of the cursor block from `npos` on are the flat bytes from `position` on. */
    lemma PeekIs(npos: nat, n: nat)
      requires Cursor() && at < |nodes|
      requires Start(at, baseSize) + npos == position && npos + n <= baseSize
      ensures position + n <= |Contents()|
      ensures cur != null && npos + n <= cur.ptr.Length
      ensures cur.ptr[npos..npos + n] == Contents()[position..position + n]
    {
      FlattenSlice(store, baseSize, at, npos, n);
    }

    /** Copies the next `n` bytes of the cursor block behind those read since `start`, and moves past them. */
    method TakeMore(ghost start: nat, buf: seq<byte>, npos: nat, n: nat) returns (more: seq<byte>)
      requires Cursor() && at < |nodes| && Start(at, baseSize) + npos == position && npos + n <= baseSize
      requires start <= position <= |Contents()| && buf == Contents()[start..position]
      modifies `position, `cur, `at
      ensures Cursor() && (npos + n == baseSize ==> position == Start(at, baseSize))
      ensures position == old(position) + n <= |Contents()| && more == Contents()[start..position]
    {
      hide *;
      PeekIs(npos, n);
      SliceJoin(Contents(), start, position, position + n);
      more := buf + cur.ptr[npos..npos + n];
      StepOver(npos, n);
    }

    method ReadLoop(n: nat) returns (buf: seq<byte>)
      requires Cursor() && position < capacity && position + n <= capacity == |Contents()|
      modifies `position, `cur, `at
      ensures Cursor() && position == old(position) + n
      ensures buf == Contents()[old(position)..old(position) + n]
    {
      hide *;
      ghost var start, bytes := position, Contents();
      CursorBlock();
      var npos: nat := position % baseSize;
      var ncap: nat := cur.size - npos;
      var left: nat := n;
      buf := [];
      while left > 0
        invariant Cursor() && |buf| + left == n && position == start + |buf|
        invariant left > 0 ==> ncap == baseSize - npos && Start(at, baseSize) + npos == position
        invariant position <= |bytes| && buf == bytes[start..position]
      {
        CursorBlock();
        if ncap >= left {
          buf := TakeMore(start, buf, npos, left);
          left := 0;
        } else {
          buf := TakeMore(start, buf, npos, ncap);
          left := left - ncap;
          CursorBlock();
          ncap := cur.size;
          npos := 0;
        }
      }
    }

    /** The next `n` bytes; a zero-length read needs a cursor block. */
    method Read(n: nat) returns (r: Result<seq<byte>>)
      requires Valid() && (n == 0 ==> position < capacity)
      modifies this
      ensures Valid() && Repr == old(Repr)
      ensures old(Ready(View())) && ReadEffect(old(View()), n, r, View())
    {
      ContentsLength();
      if n > ReadSize() {
        return OutOfRange;
      }
      var buf := ReadLoop(n);
      r := Ok(buf);
    }

    // -------------------------------------------------------------- seeking

    /** Finds the block of offset `v` from the root. */
    method WalkTo(v: nat)
      requires Chain() && v == position <= capacity
      modifies `cur, `at
      ensures Cursor()
    {
      hide Chain, Cursor, Block, Start;
      HasRoot();
      BlockFacts(0, v);
      cur := root;
      at := 0;
      var left: nat := v;
      while left > cur.size
        invariant at < |nodes| && cur != null && cur == nodes[at] && cur.size == baseSize
        invariant left + Start(at, baseSize) == v
        invariant Chain() && 0 < baseSize && v == position
        decreases left
      {
        left := left - cur.size;
        BlockFacts(at, v);
        cur := cur.next;
        at := at + 1;
        BlockFacts(at, v);
      }
      BlockFacts(at, v);
      if left == cur.size {
        cur := cur.next;
        at := at + 1;
      }
      CursorHere();
    }

    lemma CursorHere()
      requires Chain() && position <= capacity && cur == Block(at)
      requires InBlock(position, baseSize, at)
      ensures Cursor()
    {
    }

    lemma HasRoot()
      requires Chain()
      ensures nodes != [] && this !in Repr
    {
    }

    lemma BlockFacts(q: nat, v: nat)
      requires Chain() && q < |nodes| && v <= capacity
      ensures 0 < baseSize && nodes[q].size == baseSize && nodes[0] == root
      ensures Block(q) == nodes[q] && nodes[q].next == Block(q + 1)
      ensures Start(0, baseSize) == 0 && Start(q + 1, baseSize) == Start(q, baseSize) + baseSize
      ensures Start(q, baseSize) + baseSize < v ==> q + 1 < |nodes| && Block(q + 1) == nodes[q + 1]
    {
    }

    /** Moves the position anywhere up to the capacity. */
    method SetPosition(v: nat) returns (ok: bool)
      requires Valid()
      modifies this
      ensures Valid() && Repr == old(Repr)
      ensures SeekEffect(old(View()), v, ok, View())
    {
      ContentsLength();
      if v > capacity {
        return false;
      }
      ok := true;
      position := v;
      if position > size {
        size := position;
      }
      hide Cursor;
      WalkTo(v);
    }

    /** Cuts the list behind its first block. */
    method CutTail()
      requires Chain()
      modifies `nodes, `store, `Repr, `capacity, root`next
      ensures Chain() && Repr <= old(Repr) && nodes == [root] && store == [old(store)[0]]
    {
      capacity := baseSize;
      root.next := null;
      nodes, store, Repr := [root], [store[0]], {root, root.ptr};
    }

    /** Drops all blocks but the first. */
    method Clear()
      requires Valid()
      modifies this, Repr
      ensures Valid() && Repr <= old(Repr)
      ensures ClearEffect(baseSize, old(View()), View())
    {
      FlattenSlice(store, baseSize, 0, 0, baseSize);
      assert Flatten([store[0]]) == store[0] == store[0][0..baseSize];
      CutTail();
      position, size := 0, 0;
      cur := root;
      at := 0;
    }

    // ----------------------------------------------------------------- runs

    lemma ViewReady()
      requires Valid()
      ensures Ready(View()) && SizesOf(View()) == Sizes(capacity, position, size)
    {
      ContentsLength();
    }

    /** One operation of a run. */
    method Do(op: Op)
      requires Valid() && InOrder(baseSize, Sizes(capacity, position, size), op)
      modifies this, Repr
      ensures Valid() && fresh(Repr - old(Repr))
      ensures old(Ready(View())) && Step(baseSize, old(View()), op, View())
    {
      ViewReady();
      hide WriteEffect, ReadEffect, SeekEffect, ClearEffect, Fits, Cursor, Ready;
      match op
      case Write(buf) => Write(buf);
      case Read(n) => var r := Read(n);
      case Seek(v) => var ok := SetPosition(v);
      case Clear => Clear();
    }

    /** Any run of operations is a run of the flat state, and the size is the furthest position. */
    method RunOps(ops: seq<Op>) returns (ghost states: seq<State>)
      requires Valid() && Allowed(baseSize, Sizes(capacity, position, size), ops)
      modifies this, Repr
      ensures Valid() && fresh(Repr - old(Repr))
      ensures |states| == |ops| + 1 && states[0] == old(View()) && states[|ops|] == View()
      ensures Run(baseSize, states, ops)
      ensures old(size == position) ==> size == Furthest(states, ops)
    {
      ViewReady();
      states := [View()];
      var i := 0;
      assert Run(baseSize, states, []);
      ViewSizes();
      hide Valid, InOrder, Step, Ready, Furthest, View, SizesOf, Run;
      assert ops[0..] == ops && ops[..0] == [];
      while i < |ops|
        invariant i <= |ops| && Valid() && fresh(Repr - old(Repr))
        invariant |states| == i + 1 && states[0] == old(View()) && states[i] == View()
        invariant Run(baseSize, states, ops[..i])
        invariant Allowed(baseSize, SizesOf(View()), ops[i..])
      {
        ghost var s := View();
        ViewReady();
        assert InOrder(baseSize, SizesOf(s), ops[i]);
        Do(ops[i]);
        ViewReady();
        Advance(baseSize, states, ops, i, View());
        states := states + [View()];
        i := i + 1;
      }
      assert ops[..i] == ops;
      ViewSizes();
      if old(size == position) {
        SizeIsFurthest(baseSize, states, ops);
      }
    }

    lemma ViewSizes()
      ensures View().pos == position && View().size == size
    {
    }

    // ---------------------------------------------------------------- views

    /** Piece `v` is a stretch of one block, and its first byte is flat byte `p`. */
    ghost predicate PieceAt(v: IoVec, p: nat)
      reads `nodes
    {
      exists q :: 0 <= q < |nodes| && InPiece(v, p, q)
    }

    ghost predicate InPiece(v: IoVec, p: nat, q: nat)
      requires q < |nodes|
      reads `nodes
    {
      v.ptr == nodes[q].ptr && v.off + v.len <= baseSize && 0 < v.len && p == Start(q, baseSize) + v.off
    }

    /** The pieces lie side by side from flat byte `p` on. */
    ghost predicate Covers(buffers: seq<IoVec>, p: nat)
      reads `nodes
    {
      forall i :: 0 <= i < |buffers| ==> PieceAt(buffers[i], p + TotalLen(buffers[..i]))
    }

    lemma PieceIs(v: IoVec, p: nat)
      requires Chain() && PieceAt(v, p)
      ensures v.off + v.len <= v.ptr.Length && p + v.len <= |Contents()|
      ensures v.ptr[v.off..v.off + v.len] == Contents()[p..p + v.len]
    {
      var q :| 0 <= q < |nodes| && InPiece(v, p, q);
      FlattenSlice(store, baseSize, q, v.off, v.len);
    }

    lemma PiecesInside(buffers: seq<IoVec>, p: nat)
      requires Chain() && Covers(buffers, p)
      ensures forall i :: 0 <= i < |buffers| ==> buffers[i].off + buffers[i].len <= buffers[i].ptr.Length
    {
      forall i | 0 <= i < |buffers|
        ensures buffers[i].off + buffers[i].len <= buffers[i].ptr.Length
      {
        PieceIs(buffers[i], p + TotalLen(buffers[..i]));
      }
    }

    lemma CoversFront(buffers: seq<IoVec>, p: nat)
      requires Covers(buffers, p) && buffers != []
      ensures Covers(buffers[..|buffers| - 1], p)
    {
      hide PieceAt, TotalLen;
      var front := buffers[..|buffers| - 1];
      forall i | 0 <= i < |front|
        ensures PieceAt(front[i], p + TotalLen(front[..i]))
      {
        assert front[..i] == buffers[..i];
        assert PieceAt(buffers[i], p + TotalLen(buffers[..i]));
      }
    }

    /** The bytes under the pieces are the flat bytes from `p` on. */
    lemma {:induction false} GatheredIs(buffers: seq<IoVec>, p: nat)
      requires Chain() && Covers(buffers, p)
      requires forall i :: 0 <= i < |buffers| ==> buffers[i].off + buffers[i].len <= buffers[i].ptr.Length
      ensures buffers != [] ==> p + TotalLen(buffers) <= |Contents()|
      ensures buffers != [] ==> Gathered(buffers) == Contents()[p..p + TotalLen(buffers)]
    {
      hide Chain, PieceAt;
      if buffers != [] {
        var n := |buffers| - 1;
        CoversFront(buffers, p);
        GatheredIs(buffers[..n], p);
        PieceIs(buffers[n], p + TotalLen(buffers[..n]));
      }
    }

    /** Different pieces share no byte. */
    lemma PiecesDisjoint(buffers: seq<IoVec>, p: nat, i: nat, j: nat)
      requires Chain() && Covers(buffers, p) && i < j < |buffers|
      ensures buffers[i].ptr != buffers[j].ptr || buffers[i].off + buffers[i].len <= buffers[j].off
    {
      var u, v := buffers[i], buffers[j];
      var a, b := p + TotalLen(buffers[..i]), p + TotalLen(buffers[..j]);
      var q :| 0 <= q < |nodes| && InPiece(u, a, q);
      var r :| 0 <= r < |nodes| && InPiece(v, b, r);
      TotalLenMono(buffers, i, j);
      if u.ptr == v.ptr {
        assert q == r;
      }
    }

    /** The loop behind both views: stretches of the blocks from the cursor on. */
    method Pieces(n: nat) returns (buffers: seq<IoVec>)
      requires Cursor() && position < capacity && position + n <= capacity
      ensures Covers(buffers, position) && TotalLen(buffers) == n
    {
      hide *;
      CursorBlock();
      var npos: nat := position % baseSize;
      var ncap: nat := cur.size - npos;
      var node, left: nat := cur, n;
      ghost var q: nat := at;
      buffers := [];
      NoPieces();
      while left > 0
        invariant Covers(buffers, position) && TotalLen(buffers) + left == n
        invariant left > 0 ==> q < |nodes| && node == nodes[q] && node.size == baseSize
        invariant left > 0 ==> ncap == baseSize - npos && 0 < ncap && Start(q, baseSize) + npos == position + (n - left)
      {
        AddPiece(buffers, q, npos, if ncap >= left then left else ncap);
        if ncap >= left {
          buffers := buffers + [IoVec(node.ptr, npos, left)];
          left := 0;
        } else {
          buffers := buffers + [IoVec(node.ptr, npos, ncap)];
          left := left - ncap;
          NextBlock(q, position + (n - left));
          node := node.next;
          q := q + 1;
          ncap := node.size;
          npos := 0;
        }
      }
    }

    lemma NoPieces()
      ensures Covers([], position) && TotalLen([]) == 0
    {
    }

    lemma AddPiece(buffers: seq<IoVec>, q: nat, npos: nat, n: nat)
      requires Chain() && Covers(buffers, position) && q < |nodes| && 0 < n && npos + n <= baseSize
      requires Start(q, baseSize) + npos == position + TotalLen(buffers)
      ensures var all := buffers + [IoVec(nodes[q].ptr, npos, n)];
              Covers(all, position) && TotalLen(all) == TotalLen(buffers) + n
    {
      hide Chain, Start, TotalLen;
      var all := buffers + [IoVec(nodes[q].ptr, npos, n)];
      assert all[..|buffers|] == buffers && all[..|buffers| + 1] == all;
      TotalLenStep(all, |buffers|);
      assert InPiece(all[|buffers|], position + TotalLen(buffers), q);
      forall i | 0 <= i < |all|
        ensures PieceAt(all[i], position + TotalLen(all[..i]))
      {
        if i < |buffers| {
          assert all[..i] == buffers[..i];
          assert PieceAt(buffers[i], position + TotalLen(buffers[..i]));
        }
      }
    }

    lemma NextBlock(q: nat, p: nat)
      requires Chain() && q < |nodes| && p == Start(q, baseSize) + baseSize < capacity
      ensures 0 < baseSize && q + 1 < |nodes| && nodes[q].next == nodes[q + 1] && nodes[q + 1].size == baseSize
      ensures Start(q + 1, baseSize) == p
    {
    }

    /** Views of the next `min(len, readable)` bytes. */
    method GetReadBuffers(len: nat) returns (buffers: seq<IoVec>, n: nat)
      requires Valid()
      ensures n == (if len > size - position then size - position else len) == TotalLen(buffers)
      ensures Covers(buffers, position)
      ensures forall i :: 0 <= i < |buffers| ==> buffers[i].off + buffers[i].len <= buffers[i].ptr.Length
      ensures position + n <= |Contents()| && Gathered(buffers) == Contents()[position..position + n]
    {
      hide Chain, Covers, Cursor, Contents;
      n := if len > ReadSize() then ReadSize() else len;
      buffers := [];
      CursorBlock();
      ContentsLength();
      if n == 0 {
        NoPieces();
        return;
      }
      buffers := Pieces(n);
      PiecesInside(buffers, position);
      GatheredIs(buffers, position);
    }

    /** Makes room for `len` bytes and returns views of the bytes `[position, position + len)`. */
    method GetWriteBuffers(len: nat) returns (buffers: seq<IoVec>)
      requires Valid()
      requires Fits(baseSize, capacity - position, len)
      modifies `nodes, `store, `Repr, `capacity, `cur, Repr
      ensures Valid() && fresh(Repr - old(Repr)) && old(Repr) <= Repr
      ensures capacity == old(capacity) + GrowBlocks(baseSize, old(capacity) - position, len) * baseSize
      ensures old(Contents()) <= Contents()
      ensures Covers(buffers, position) && TotalLen(buffers) == len
    {
      hide Cursor, Chain, Contents, GrowBlocks, Fits, PieceAt, Covers, TotalLen;
      buffers := [];
      CursorBlock();
      GrowthSufficesIff(baseSize, capacity - position, len);
      NeedsBlocks(baseSize, capacity - position, len);
      if len == 0 {
        NoPieces();
        return;
      }
      AddCapacity(len);
      buffers := Pieces(len);
    }

    /** What the kernel does with write views: fills them in order with `bytes`. */
    method Scatter(buffers: seq<IoVec>, ghost p: nat, bytes: seq<byte>)
      requires Cursor() && Covers(buffers, p) && |bytes| <= TotalLen(buffers) && p <= |Contents()|
      modifies `store, Repr
      ensures Cursor() && p + |bytes| <= |old(Contents())|
      ensures Contents() == Splice(old(Contents()), p, bytes)
    {
      hide *;
      ghost var before := Contents();
      var i: nat, done: nat := 0, 0;
      SpliceNothing(before, p, bytes);
      NothingCovered(buffers);
      CursorBlock();
      while i < |buffers|
        invariant Covers(buffers, p) && Repr == old(Repr)
        invariant i <= |buffers| && Chain() && done <= |bytes| && p + done <= |before|
        invariant done == if TotalLen(buffers[..i]) < |bytes| then TotalLen(buffers[..i]) else |bytes|
        invariant Contents() == Splice(before, p, bytes[..done])
      {
        var v := buffers[i];
        var n := if v.len <= |bytes| - done then v.len else |bytes| - done;
        TotalLenStep(buffers, i);
        if 0 < n {
          ghost var q := PieceBlock(buffers, p, i);
          Poke(v.ptr, q, v.off, bytes[done..done + n]);
          FillStep(before, p, bytes, done, n);
          done := done + n;
        }
        i := i + 1;
      }
      assert buffers[..i] == buffers;
      assert bytes[..done] == bytes;
      CursorHere();
    }

    lemma NothingCovered(buffers: seq<IoVec>)
      ensures TotalLen(buffers[..0]) == 0
    {
    }

    lemma FillStep(before: seq<byte>, p: nat, bytes: seq<byte>, done: nat, n: nat)
      requires done + n <= |bytes| && p + done + n <= |before|
      ensures Splice(Splice(before, p, bytes[..done]), p + done, bytes[done..done + n]) == Splice(before, p, bytes[..done + n])
    {
      SpliceTwice(before, p, bytes[..done], bytes[done..done + n]);
      assert bytes[..done] + bytes[done..done + n] == bytes[..done + n];
    }

    lemma PieceBlock(buffers: seq<IoVec>, p: nat, i: nat) returns (q: nat)
      requires Chain() && Covers(buffers, p) && i < |buffers|
      ensures q < |nodes| && buffers[i].ptr == nodes[q].ptr && buffers[i].ptr in Repr
      ensures buffers[i].off + buffers[i].len <= baseSize
      ensures Start(q, baseSize) + buffers[i].off == p + TotalLen(buffers[..i])
    {
      var r :| 0 <= r < |nodes| && InPiece(buffers[i], p + TotalLen(buffers[..i]), r);
      q := r;
    }

    /** The peer fills the views and the position moves behind the filled bytes. */
    method FillAndMove(buffers: seq<IoVec>, bytes: seq<byte>)
      requires Valid() && Covers(buffers, position) && |bytes| <= TotalLen(buffers) && position <= |Contents()|
      modifies this, Repr
      ensures Valid() && Repr == old(Repr) && capacity == old(capacity)
      ensures position == old(position) + |bytes| <= |old(Contents())|
      ensures size == Max(old(size), position)
      ensures Contents() == Splice(old(Contents()), old(position), bytes)
    {
      CursorBlock();
      hide Cursor, Splice, Covers;
      Scatter(buffers, position, bytes);
      CursorBlock();
      ContentsLength();
      var _ := SetPosition(position + |bytes|);
      CursorBlock();
      ContentsLength();
    }

    /** Views for `len` bytes, of which the peer fills the first `|bytes|`: the same effect as writing `bytes`. */
    method Receive(len: nat, bytes: seq<byte>)
      requires Valid() && |bytes| <= len
      requires Fits(baseSize, capacity - position, len)
      modifies this, Repr
      ensures Valid() && fresh(Repr - old(Repr))
      ensures old(Ready(View())) && WriteEffect(baseSize, old(View()), len, bytes, View())
    {
      ContentsLength();
      GrowthSufficesIff(baseSize, capacity - position, len);
      NeedsBlocks(baseSize, capacity - position, len);
      ghost var s := View();
      hide GrowBlocks, Cursor, WriteEffect, Splice, Covers, Max;
      var buffers := GetWriteBuffers(len);
      CursorBlock();
      ContentsLength();
      SpliceIsWrite(baseSize, s, len, Contents(), bytes);
      FillAndMove(buffers, bytes);
    }
  }
}
