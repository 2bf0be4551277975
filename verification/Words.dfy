/**
 How numbers become bytes: big-endian words, 7-bit groups and the zigzag
 code. The host is little-endian, so the image of a word in memory starts
 with its lowest byte and the byte swap turns it around.
 */
module Words {
  import opened Wrappers
  import opened Blocks

  function Pow256(n: nat): (r: nat)
    ensures 0 < r
  {
    if n == 0 then 1 else 256 * Pow256(n - 1)
  }

  // ------------------------------------------------------ fixed-width words

  /** The image of a word of `n` bytes in the memory of the host. */
  function Image(v: nat, n: nat): (s: seq<byte>)
    ensures |s| == n
  {
    if n == 0 then [] else [v % 256] + Image(v / 256, n - 1)
  }

  function FromImage(s: seq<byte>): nat {
    if s == [] then 0 else s[0] + 256 * FromImage(s[1..])
  }

  function Reverse(s: seq<byte>): (r: seq<byte>)
    ensures |r| == |s|
  {
    if s == [] then [] else Reverse(s[1..]) + [s[0]]
  }

  /** `htons`, `htonl`, `htonll` and their inverses on this host. */
  function Swap(v: nat, n: nat): nat {
    FromImage(Reverse(Image(v, n)))
  }

  /** The network form of a word: highest byte first. */
  function BigEndian(v: nat, n: nat): (s: seq<byte>)
    ensures |s| == n
  {
    if n == 0 then [] else BigEndian(v / 256, n - 1) + [v % 256]
  }

  lemma {:induction false} ImageRoundTrip(v: nat, n: nat)
    requires v < Pow256(n)
    ensures FromImage(Image(v, n)) == v
  {
    if n == 0 {
    } else {
      ImageRoundTrip(v / 256, n - 1);
    }
  }

  lemma {:induction false} FromImageRoundTrip(s: seq<byte>)
    ensures FromImage(s) < Pow256(|s|)
    ensures Image(FromImage(s), |s|) == s
  {
    if s == [] {
    } else {
      FromImageRoundTrip(s[1..]);
      assert FromImage(s) / 256 == FromImage(s[1..]);
    }
  }

  lemma {:induction false} ReverseSnoc(s: seq<byte>, b: byte)
    ensures Reverse(s + [b]) == [b] + Reverse(s)
  {
    if s == [] {
    } else {
      assert (s + [b])[1..] == s[1..] + [b];
      ReverseSnoc(s[1..], b);
    }
  }

  lemma {:induction false} ReverseTwice(s: seq<byte>)
    ensures Reverse(Reverse(s)) == s
  {
    if s == [] {
    } else {
      ReverseSnoc(Reverse(s[1..]), s[0]);
      ReverseTwice(s[1..]);
    }
  }

  lemma {:induction false} ReverseImage(v: nat, n: nat)
    ensures Reverse(Image(v, n)) == BigEndian(v, n)
  {
    if n == 0 {
    } else {
      ReverseImage(v / 256, n - 1);
      assert Image(v, n)[1..] == Image(v / 256, n - 1);
    }
  }

  /** Storing a swapped word puts it down in network order. */
  lemma SwapIsBigEndian(v: nat, n: nat)
    ensures Swap(v, n) < Pow256(n)
    ensures Image(Swap(v, n), n) == BigEndian(v, n)
  {
    ReverseImage(v, n);
    FromImageRoundTrip(BigEndian(v, n));
  }

  /** The swap is its own inverse. */
  lemma SwapTwice(v: nat, n: nat)
    requires v < Pow256(n)
    ensures Swap(Swap(v, n), n) == v
  {
    FromImageRoundTrip(Reverse(Image(v, n)));
    ReverseTwice(Image(v, n));
    ImageRoundTrip(v, n);
  }

  /** Loading network bytes and swapping gives the word back. */
  lemma LoadStored(v: nat, n: nat)
    requires v < Pow256(n)
    ensures Swap(FromImage(BigEndian(v, n)), n) == v
  {
    SwapIsBigEndian(v, n);
    ImageRoundTrip(Swap(v, n), n);
    SwapTwice(v, n);
  }

  // --------------------------------------------------------- two's complement

  predicate SignedRange(v: int, size: nat) {
    -2 * v <= size && 2 * v < size
  }

  /** The word of a signed value, for `size` words in all. */
  function ToWord(v: int, size: nat): nat
    requires SignedRange(v, size)
  {
    if v < 0 then v + size else v
  }

  function FromWord(w: nat, size: nat): int {
    if 2 * w < size then w else w - size
  }

  /** Words and signed values match one to one. */
  lemma WordRoundTrip(v: int, w: nat, size: nat)
    ensures SignedRange(v, size) ==> ToWord(v, size) < size && FromWord(ToWord(v, size), size) == v
    ensures w < size ==> SignedRange(FromWord(w, size), size) && ToWord(FromWord(w, size), size) == w
  {
  }

  // ------------------------------------------------------------------- zigzag

  /** Negation and doubling as they come out in an unsigned word. */
  function EncodeZigzag(v: int, size: nat): nat
    requires 0 < size && SignedRange(v, size)
  {
    if v < 0 then ((-v) % size * 2 - 1) % size else (v * 2) % size
  }

  /** `(u >> 1) ^ -(u & 1)`; exclusive-or with all ones is subtraction from the largest word. */
  function DecodeZigzag(u: nat, size: nat): int
    requires u < size
  {
    FromWord(if u % 2 == 0 then u / 2 else size - 1 - u / 2, size)
  }

  /** Zigzag counts 0, -1, 1, -2, 2, ... and decoding undoes encoding, for every even word size. */
  lemma ZigzagRoundTrip(v: int, half: nat)
    requires 0 < half && SignedRange(v, 2 * half)
    ensures EncodeZigzag(v, 2 * half) == (if v < 0 then -2 * v - 1 else 2 * v) < 2 * half
    ensures DecodeZigzag(EncodeZigzag(v, 2 * half), 2 * half) == v
  {
    ZigzagValue(v, half);
  }

  /** Encoding undoes decoding. */
  lemma ZigzagDecodeRoundTrip(u: nat, half: nat)
    requires 0 < half && u < 2 * half
    ensures SignedRange(DecodeZigzag(u, 2 * half), 2 * half)
    ensures EncodeZigzag(DecodeZigzag(u, 2 * half), 2 * half) == u
  {
    ZigzagValue(DecodeZigzag(u, 2 * half), half);
  }

  lemma ZigzagValue(v: int, half: nat)
    requires 0 < half && SignedRange(v, 2 * half)
    ensures EncodeZigzag(v, 2 * half) == if v < 0 then -2 * v - 1 else 2 * v
  {
    if v < 0 {
      SmallMod(-v, 2 * half);
      SmallMod(-2 * v - 1, 2 * half);
    } else {
      SmallMod(2 * v, 2 * half);
    }
  }

  lemma SmallMod(x: nat, m: nat)
    ensures x < m ==> x % m == x
  {
  }

  // -------------------------------------------------------------- 7-bit groups

  function Pow128(n: nat): (r: nat)
    ensures 0 < r
  {
    if n == 0 then 1 else 128 * Pow128(n - 1)
  }

  /** Low groups first; every group but the last has its top bit set. */
  function Varint(v: nat): (s: seq<byte>)
    ensures s != []
  {
    if v < 0x80 then [v] else [v % 128 + 128] + Varint(v / 128)
  }

  /** The number that a list of groups stands for. */
  function VarValue(s: seq<byte>): nat {
    if s == [] then 0 else VarValue(s[..|s| - 1]) + s[|s| - 1] % 128 * Pow128(|s| - 1)
  }

  /** The groups that a decoder of at most `max` groups takes off `s`; `None` if the bytes run out first. */
  function TakeGroups(s: seq<byte>, max: nat): Option<seq<byte>> {
    if max == 0 then Some([])
    else if s == [] then None
    else if s[0] < 128 then Some([s[0]])
    else match TakeGroups(s[1..], max - 1)
      case None => None
      case Some(rest) => Some([s[0]] + rest)
  }

  /** The least number of groups: a value below `128^k` takes at most `k`, and one more group means at least that much. */
  lemma {:induction false} VarintLength(v: nat, k: nat)
    requires 0 < k
    ensures |Varint(v)| <= k <==> v < Pow128(k)
  {
    if v < 0x80 {
      Pow128AtLeast(k);
    } else if k == 1 {
    } else {
      VarintLength(v / 128, k - 1);
    }
  }

  lemma {:induction false} Pow128AtLeast(k: nat)
    requires 0 < k
    ensures 128 <= Pow128(k)
  {
    if k == 1 {
    } else {
      Pow128AtLeast(k - 1);
    }
  }

  /** A 32-bit value takes at most 5 groups and a 64-bit value at most 10. */
  lemma VarintFitsBuffer(v: nat)
    ensures v < 0x1_0000_0000 ==> |Varint(v)| <= 5
    ensures v < 0x1_0000_0000_0000_0000 ==> |Varint(v)| <= 10
  {
    VarintLength(v, 5);
    VarintLength(v, 10);
    assert Pow128(5) == 0x8_0000_0000;
    assert Pow128(10) == Pow128(5) * Pow128(5) by {
      assert Pow128(7) == 128 * 128 * Pow128(5);
      assert Pow128(10) == 128 * 128 * 128 * Pow128(7);
    }
  }

  lemma {:induction false} VarValueFront(b: byte, s: seq<byte>)
    ensures VarValue([b] + s) == b % 128 + 128 * VarValue(s)
  {
    if s == [] {
      assert [b][..0] == [];
    } else {
      var n := |s| - 1;
      assert ([b] + s)[..n + 1] == [b] + s[..n];
      VarValueFront(b, s[..n]);
      var g := s[n] % 128;
      assert g * (128 * Pow128(n)) == 128 * (g * Pow128(n));
    }
  }

  /** Decoding takes exactly the bytes of the encoding off any longer stream, and they stand for the value. */
  lemma {:induction false} VarintRoundTrip(v: nat, rest: seq<byte>, max: nat)
    requires |Varint(v)| <= max
    ensures TakeGroups(Varint(v) + rest, max) == Some(Varint(v))
    ensures VarValue(Varint(v)) == v
  {
    if v < 0x80 {
      assert [v][..0] == [];
    } else {
      VarintRoundTrip(v / 128, rest, max - 1);
      assert (Varint(v) + rest)[1..] == Varint(v / 128) + rest;
      VarValueFront(v % 128 + 128, Varint(v / 128));
    }
  }
}
