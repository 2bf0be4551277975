/** Byte sequences that are cut into blocks of one fixed size. */
module Blocks {

  type byte = x: int | 0 <= x < 256

  /** Flat offset of the first byte of block `q`; it is `q * base` (`StartIsProduct`). */
  ghost function Start(q: nat, base: nat): nat {
    if q == 0 then 0 else Start(q - 1, base) + base
  }

  lemma {:induction false} StartIsProduct(q: nat, base: nat)
    ensures Start(q, base) == q * base
  {
    if q == 0 {
    } else {
      StartIsProduct(q - 1, base);
    }
  }

  lemma {:induction false} StartMono(q: nat, n: nat, base: nat)
    requires q < n
    ensures Start(q, base) + base <= Start(n, base)
  {
    if q + 1 < n {
      StartMono(q, n - 1, base);
    }
  }

  /** Offset `v` lies in block number `q`. */
  ghost predicate InBlock(v: nat, base: nat, q: nat) {
    Start(q, base) <= v < Start(q, base) + base
  }

  /** An offset lies before block `n` exactly if its block number is smaller. */
  lemma InBlockOrder(v: nat, base: nat, q: nat, n: nat)
    requires InBlock(v, base, q)
    ensures v < Start(n, base) <==> q < n
    ensures v == Start(n, base) ==> q == n
  {
    if q < n {
      StartMono(q, n, base);
    } else if n < q {
      StartMono(n, q, base);
    }
  }

  /** Block number and offset inside the block are quotient and remainder. */
  lemma InBlockIsDivMod(v: nat, base: nat, q: nat)
    requires 0 < base && InBlock(v, base, q)
    ensures v / base == q && v % base == v - Start(q, base)
  {
    StartIsProduct(q, base);
    DivModUnique(v, base, q, v - q * base);
  }

  lemma DivModUnique(v: nat, base: nat, q: nat, r: nat)
    requires 0 < base && v == q * base + r && r < base
    ensures v / base == q && v % base == r
  {
    var q' := v / base;
    if q < q' {
      MulMono(q + 1, q', base);
    } else if q' < q {
      MulMono(q' + 1, q, base);
    }
  }

  lemma MulMono(i: int, j: int, base: int)
    ensures i <= j && 0 <= base ==> i * base <= j * base
  {
  }

  /** `s` with the bytes at `[at, at + |data|)` replaced by `data`. */
  function Splice(s: seq<byte>, at: nat, data: seq<byte>): (r: seq<byte>)
    requires at + |data| <= |s|
    ensures |r| == |s|
  {
    s[..at] + data + s[at + |data|..]
  }

  /** Every block holds exactly `base` bytes. */
  ghost predicate Uniform(blocks: seq<seq<byte>>, base: nat) {
    forall i :: 0 <= i < |blocks| ==> |blocks[i]| == base
  }

  /** The bytes of all blocks, one after the other. */
  ghost function Flatten(blocks: seq<seq<byte>>): seq<byte> {
    if blocks == [] then [] else Flatten(blocks[..|blocks| - 1]) + blocks[|blocks| - 1]
  }

  lemma {:induction false} FlattenLength(blocks: seq<seq<byte>>, base: nat)
    requires Uniform(blocks, base)
    ensures |Flatten(blocks)| == Start(|blocks|, base)
  {
    if blocks == [] {
    } else {
      FlattenLength(blocks[..|blocks| - 1], base);
    }
  }

  lemma FlattenAppend(blocks: seq<seq<byte>>, last: seq<byte>)
    ensures Flatten(blocks + [last]) == Flatten(blocks) + last
  {
    assert (blocks + [last])[..|blocks|] == blocks;
  }

  /** Bytes `[off, off + len)` of block `i` are the flat bytes from `Start(i) + off` on. */
  lemma {:induction false} FlattenSlice(blocks: seq<seq<byte>>, base: nat, i: nat, off: nat, len: nat)
    requires Uniform(blocks, base) && i < |blocks| && off + len <= base
    ensures Start(i, base) + off + len <= |Flatten(blocks)|
    ensures Flatten(blocks)[Start(i, base) + off..Start(i, base) + off + len] == blocks[i][off..off + len]
  {
    var n := |blocks| - 1;
    FlattenLength(blocks[..n], base);
    if i == n {
    } else {
      FlattenSlice(blocks[..n], base, i, off, len);
    }
  }

  /** Overwriting inside one block is overwriting the flat sequence. */
  lemma {:induction false} FlattenSplice(blocks: seq<seq<byte>>, base: nat, i: nat, off: nat, data: seq<byte>)
    requires Uniform(blocks, base) && i < |blocks| && off + |data| <= base
    ensures Start(i, base) + off + |data| <= |Flatten(blocks)|
    ensures Flatten(blocks[i := Splice(blocks[i], off, data)]) == Splice(Flatten(blocks), Start(i, base) + off, data)
  {
    FlattenSlice(blocks, base, i, off, |data|);
    var n := |blocks| - 1;
    var updated := blocks[i := Splice(blocks[i], off, data)];
    if i == n {
      FlattenLength(blocks[..n], base);
      assert updated[..n] == blocks[..n];
      SpliceAfterPrefix(Flatten(blocks[..n]), blocks[n], off, data);
    } else {
      FlattenSplice(blocks[..n], base, i, off, data);
      assert updated[..n] == blocks[..n][i := Splice(blocks[i], off, data)];
      SpliceBeforeSuffix(Flatten(blocks[..n]), blocks[n], Start(i, base) + off, data);
    }
  }

  lemma SpliceAfterPrefix(prefix: seq<byte>, s: seq<byte>, at: nat, data: seq<byte>)
    requires at + |data| <= |s|
    ensures Splice(prefix + s, |prefix| + at, data) == prefix + Splice(s, at, data)
  {
    assert (prefix + s)[..|prefix| + at] == prefix + s[..at];
    assert (prefix + s)[|prefix| + at + |data|..] == s[at + |data|..];
  }

  lemma SpliceBeforeSuffix(s: seq<byte>, suffix: seq<byte>, at: nat, data: seq<byte>)
    requires at + |data| <= |s|
    ensures Splice(s + suffix, at, data) == Splice(s, at, data) + suffix
  {
    assert (s + suffix)[..at] == s[..at];
    assert (s + suffix)[at + |data|..] == s[at + |data|..] + suffix;
  }

  /** Two adjacent overwrites are one. */
  lemma SpliceTwice(s: seq<byte>, at: nat, x: seq<byte>, y: seq<byte>)
    requires at + |x| + |y| <= |s|
    ensures Splice(Splice(s, at, x), at + |x|, y) == Splice(s, at, x + y)
  {
    var once := Splice(s, at, x);
    assert once[..at + |x|] == s[..at] + x;
    assert once[at + |x| + |y|..] == s[at + |x| + |y|..];
    assert s[at + |x + y|..] == s[at + |x| + |y|..];
  }

  lemma SpliceNothing(s: seq<byte>, at: nat, buf: seq<byte>)
    requires at <= |s|
    ensures Splice(s, at, buf[..0]) == s
  {
  }

  /** Overwriting with a longer and longer prefix of `buf`. */
  lemma ExtendSplice(s: seq<byte>, at: nat, buf: seq<byte>, done: nat, more: nat)
    requires done + more <= |buf| && at + |buf| <= |s|
    ensures Splice(Splice(s, at, buf[..done]), at + done, buf[done..done + more]) == Splice(s, at, buf[..done + more])
  {
    SpliceTwice(s, at, buf[..done], buf[done..done + more]);
    assert buf[..done] + buf[done..done + more] == buf[..done + more];
  }

  lemma SliceOfSlice(s: seq<byte>, a: nat, b: nat, c: nat, d: nat)
    requires a <= b <= |s| && c <= d <= b - a
    ensures s[a..b][c..d] == s[a + c..a + d]
  {
    var x, y := s[a..b][c..d], s[a + c..a + d];
    forall k | 0 <= k < d - c
      ensures x[k] == y[k]
    {
      assert x[k] == s[a..b][c + k] == s[a + (c + k)];
    }
  }

  lemma SliceJoin(s: seq<byte>, a: nat, b: nat, c: nat)
    requires a <= b <= c <= |s|
    ensures s[a..b] + s[b..c] == s[a..c]
  {
  }
}
