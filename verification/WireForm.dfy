/** The bytes of typed records, spelled out position by position. */
module WireForm {

  import opened Wrappers
  import opened Blocks
  import opened Flat
  import opened Words
  import opened Records

  /** Dividing by one digit and then by `b` divides by their product. */
  lemma DivTwice(v: nat, digit: nat, b: nat)
    requires (digit == 128 || digit == 256) && 0 < b
    ensures v / digit / b == v / (digit * b)
  {
    var x := v / digit;
    var q, s, r := x / b, x % b, v % digit;
    DivMod(x, b);
    if digit == 128 {
      assert 128 * (q * b) == q * (128 * b);
      DivModUnique(v, 128 * b, q, 128 * s + r);
    } else {
      assert 256 * (q * b) == q * (256 * b);
      DivModUnique(v, 256 * b, q, 256 * s + r);
    }
  }

  lemma DivMod(x: nat, b: nat)
    requires 0 < b
    ensures x == x / b * b + x % b
  {
  }

  /** Network order: byte `i` of `n` is the digit of weight 256 to the `n - 1 - i`. */
  lemma {:induction false} BigEndianAt(v: nat, n: nat, i: nat)
    requires i < n
    ensures BigEndian(v, n)[i] == v / Pow256(n - 1 - i) % 256
  {
    if i < n - 1 {
      BigEndianAt(v / 256, n - 1, i);
      DivTwice(v, 256, Pow256(n - 2 - i));
      assert Pow256(n - 1 - i) == 256 * Pow256(n - 2 - i);
    } else {
      assert Pow256(0) == 1;
    }
  }

  /** Low groups first: byte `i` holds the digit of weight 128 to the `i`, and the top bit unless it is the last. */
  lemma {:induction false} VarintAt(v: nat, i: nat)
    requires i < |Varint(v)|
    ensures Varint(v)[i] == v / Pow128(i) % 128 + if i + 1 < |Varint(v)| then 128 else 0
  {
    if i == 0 {
      assert Pow128(0) == 1;
    } else {
      assert Varint(v) == [v % 128 + 128] + Varint(v / 128);
      VarintAt(v / 128, i - 1);
      DivTwice(v, 128, Pow128(i - 1));
      assert Pow128(i) == 128 * Pow128(i - 1);
    }
  }

  /** Numbers: a fixed width in two's complement and network order, or 7-bit groups. */
  lemma NumberForm(width: nat, v: int)
    requires width == 1 || width == 2 || width == 4 || width == 8
    ensures 0 <= v < Pow256(width) ==> Encode(FixedRec(width, false, v)) == BigEndian(v, width)
    ensures 0 <= 2 * v + Pow256(width) < 2 * Pow256(width) ==>
      Encode(FixedRec(width, true, v)) == BigEndian(if v < 0 then v + Pow256(width) else v, width)
    ensures 0 <= v < 0x1_0000_0000 ==> Encode(VarRec(32, v)) == Varint(v)
    ensures 0 <= v < 0x1_0000_0000_0000_0000 ==> Encode(VarRec(64, v)) == Varint(v)
  {
    hide BigEndian, Varint;
  }

  lemma Widths()
    ensures Pow256(1) == 0x100 && Pow256(2) == 0x1_0000 && Pow256(4) == 0x1_0000_0000
    ensures Pow256(8) == 0x1_0000_0000_0000_0000
  {
    assert Pow256(8) == 256 * 256 * 256 * 256 * Pow256(4);
  }

  /** Strings: the length in 2, 4 or 8 bytes in network order, or in 7-bit groups, and then the characters. */
  lemma TextForm(s: seq<byte>)
    ensures |s| < 0x1_0000 ==> Encode(TextRec(F16, s)) == BigEndian(|s|, 2) + s
    ensures |s| < 0x1_0000_0000 ==> Encode(TextRec(F32, s)) == BigEndian(|s|, 4) + s
    ensures |s| < 0x1_0000_0000_0000_0000 ==> Encode(TextRec(F64, s)) == BigEndian(|s|, 8) + s
    ensures |s| < 0x1_0000_0000_0000_0000 ==> Encode(TextRec(Vint, s)) == Varint(|s|) + s
  {
    Widths();
    hide BigEndian, Varint, Pow256;
  }

  /** A string's length can be read as the number it is written as. */
  lemma LengthReads(s: seq<byte>, rest: seq<byte>)
    ensures |s| < 0x1_0000 ==> Decode(Fixed(2, false), Encode(TextRec(F16, s)) + rest) == Ok((FixedRec(2, false, |s|), 2))
    ensures |s| < 0x1_0000_0000 ==> Decode(Fixed(4, false), Encode(TextRec(F32, s)) + rest) == Ok((FixedRec(4, false, |s|), 4))
    ensures |s| < 0x1_0000_0000_0000_0000 ==>
      && Decode(Fixed(8, false), Encode(TextRec(F64, s)) + rest) == Ok((FixedRec(8, false, |s|), 8))
      && Decode(Var(64), Encode(TextRec(Vint, s)) + rest) == Ok((VarRec(64, |s|), |Varint(|s|)|))
  {
    Widths();
    hide BigEndian, Varint, Pow256, Decode, DecodeNumber;
    if |s| < 0x1_0000 {
      LengthRead(s, rest, F16, FixedRec(2, false, |s|));
    }
    if |s| < 0x1_0000_0000 {
      LengthRead(s, rest, F32, FixedRec(4, false, |s|));
    }
    if |s| < 0x1_0000_0000_0000_0000 {
      LengthRead(s, rest, F64, FixedRec(8, false, |s|));
      LengthRead(s, rest, Vint, VarRec(64, |s|));
    }
  }

  lemma LengthRead(s: seq<byte>, rest: seq<byte>, prefix: Prefix, length: Record)
    requires ValidRecord(TextRec(prefix, s)) && Encode(TextRec(prefix, s)) == Encode(length) + s
    ensures Decode(KindOf(length), Encode(TextRec(prefix, s)) + rest) == Ok((length, |Encode(length)|))
  {
    hide Encode, Decode;
    RecordRoundTrip(length, s + rest);
    assert (Encode(length) + s) + rest == Encode(length) + (s + rest);
  }

  /** A string with a group prefix spends at most `k` bytes on its length exactly if it is shorter than 128 to the `k`. */
  lemma PrefixLength(s: seq<byte>, k: nat)
    requires 0 < k && |s| < 0x1_0000_0000_0000_0000
    ensures |Encode(TextRec(Vint, s))| <= |s| + k <==> |s| < Pow128(k)
  {
    TextForm(s);
    VarintLength(|s|, k);
    hide Encode, Varint, Pow128;
  }

  /** Reading stops behind the first byte without its top bit, or after as many bytes as the loop takes. */
  lemma {:induction false} GroupsTaken(s: seq<byte>, max: nat)
    ensures match TakeGroups(s, max)
      case None => |s| < max && forall i :: 0 <= i < |s| ==> s[i] >= 128
      case Some(gs) =>
        && gs <= s && |gs| <= max && (forall i :: 0 <= i < |gs| - 1 ==> s[i] >= 128)
        && (|gs| == max || (gs != [] && gs[|gs| - 1] < 128))
  {
    if max > 0 && s != [] && s[0] >= 128 {
      GroupsTaken(s[1..], max - 1);
      assert forall i :: 0 < i < |s| ==> s[i] == s[1..][i - 1];
    }
  }

  /** A 32-bit number takes at most 5 bytes and a 64-bit number at most 10; reading throws exactly if they run out. */
  lemma VarDecoded(s: seq<byte>)
    ensures DecodeNumber(Var(32), s) == OutOfRange <==> |s| < 5 && forall i :: 0 <= i < |s| ==> s[i] >= 128
    ensures DecodeNumber(Var(64), s) == OutOfRange <==> |s| < 10 && forall i :: 0 <= i < |s| ==> s[i] >= 128
    ensures DecodeNumber(Var(32), s).Ok? ==>
      var (v, n) := DecodeNumber(Var(32), s).value;
      n <= 5 && v == VarValue(s[..n]) % 0x1_0000_0000 && (n == 5 || (n > 0 && s[n - 1] < 128))
    ensures DecodeNumber(Var(64), s).Ok? ==>
      var (v, n) := DecodeNumber(Var(64), s).value;
      n <= 10 && v == VarValue(s[..n]) % 0x1_0000_0000_0000_0000 && (n == 10 || (n > 0 && s[n - 1] < 128))
  {
    GroupsTaken(s, 5);
    GroupsTaken(s, 10);
    hide TakeGroups, VarValue;
    match TakeGroups(s, 5)
    case None =>
    case Some(gs) => assert s[..|gs|] == gs;
    match TakeGroups(s, 10)
    case None =>
    case Some(gs) => assert s[..|gs|] == gs;
  }

  /** Fixed-width reading throws exactly if the bytes run out. */
  lemma FixedDecoded(width: nat, signed: bool, s: seq<byte>)
    requires width == 1 || width == 2 || width == 4 || width == 8
    ensures DecodeNumber(Fixed(width, signed), s) == OutOfRange <==> |s| < width
    ensures DecodeNumber(Fixed(width, signed), s).Ok? ==> DecodeNumber(Fixed(width, signed), s).value.1 == width
  {
    hide Swap, FromImage, Pow256;
  }
}
