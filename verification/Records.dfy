/** Typed values written to and read back from the byte buffer. */
module Records {
  import opened Wrappers
  import opened Blocks
  import opened Flat
  import opened Words
  import opened ByteArrays

  // ------------------------------------------------------------ the formats

  /** How the length of a string is written. */
  datatype Prefix = F16 | F32 | F64 | Vint

  datatype RawKind =
    | Fixed(width: nat, signed: bool)
    | Var(bits: nat)
    | Text(prefix: Prefix)

  /** The widths that the typed members exist for. */
  type Kind = k: RawKind |
      match k
      case Fixed(width, _) => width == 1 || width == 2 || width == 4 || width == 8
      case Var(bits) => bits == 32 || bits == 64
      case Text(_) => true
    witness Var(32)

  datatype RawRecord =
    | FixedRec(width: nat, signed: bool, v: int)
    | VarRec(bits: nat, u: nat)
    | TextRec(prefix: Prefix, s: seq<byte>)

  function KindOf(r: RawRecord): RawKind {
    match r
    case FixedRec(width, signed, _) => Fixed(width, signed)
    case VarRec(bits, _) => Var(bits)
    case TextRec(prefix, _) => Text(prefix)
  }

  /** The values that the typed members accept; a string's length must fit its prefix. */
  predicate ValidRecord(r: RawRecord) {
    match r
    case FixedRec(width, signed, v) =>
      && (width == 1 || width == 2 || width == 4 || width == 8)
      && if signed then SignedRange(v, Pow256(width)) else 0 <= v < Pow256(width)
    case VarRec(bits, u) => (bits == 32 || bits == 64) && u < WordSize(bits)
    case TextRec(prefix, s) => |s| < PrefixLimit(prefix)
  }

  type Record = r: RawRecord | ValidRecord(r) witness VarRec(32, 0)

  function WordSize(bits: nat): nat {
    if bits == 32 then 0x1_0000_0000 else 0x1_0000_0000_0000_0000
  }

  function MaxGroups(bits: nat): nat {
    if bits == 32 then 5 else 10
  }

  function PrefixLimit(prefix: Prefix): nat {
    match prefix
    case F16 => Pow256(2)
    case F32 => Pow256(4)
    case F64 => Pow256(8)
    case Vint => WordSize(64)
  }

  function PrefixKind(prefix: Prefix): Kind {
    match prefix
    case F16 => Fixed(2, false)
    case F32 => Fixed(4, false)
    case F64 => Fixed(8, false)
    case Vint => Var(64)
  }

  // --------------------------------------------------------------- encoding

  /** The bytes of a number. */
  function NumberBytes(k: Kind, v: int): seq<byte>
    requires !k.Text?
    requires k.Fixed? && k.signed ==> SignedRange(v, Pow256(k.width))
    requires !(k.Fixed? && k.signed) ==> 0 <= v
  {
    match k
    case Fixed(width, signed) => BigEndian(if signed then ToWord(v, Pow256(width)) else v, width)
    case Var(_) => Varint(v)
  }

  /** The `write` calls that a record makes, as the buffers they pass. */
  function Writes(r: Record): seq<seq<byte>>
  {
    match r
    case FixedRec(_, _, v) => [NumberBytes(KindOf(r), v)]
    case VarRec(_, u) => [NumberBytes(KindOf(r), u)]
    case TextRec(prefix, s) => [NumberBytes(PrefixKind(prefix), |s|), s]
  }

  function Encode(r: Record): seq<byte>
  {
    match r
    case FixedRec(_, _, v) => NumberBytes(KindOf(r), v)
    case VarRec(_, u) => NumberBytes(KindOf(r), u)
    case TextRec(prefix, s) => NumberBytes(PrefixKind(prefix), |s|) + s
  }

  function EncodeAll(rs: seq<Record>): seq<byte>
  {
    if rs == [] then [] else Encode(rs[0]) + EncodeAll(rs[1..])
  }

  // --------------------------------------------------------------- decoding

  /** The number at the start of `s` and how many bytes it takes. */
  function DecodeNumber(k: Kind, s: seq<byte>): (r: Result<(int, nat)>)
    requires !k.Text?
    ensures r.Ok? ==> r.value.1 <= |s|
  {
    match k
    case Fixed(width, signed) =>
      if |s| < width then OutOfRange
      else
        var w := Swap(FromImage(s[..width]), width);
        Ok((if signed then FromWord(w, Pow256(width)) else w, width))
    case Var(bits) =>
      match TakeGroups(s, MaxGroups(bits))
      case None => OutOfRange
      case Some(groups) =>
        TakenIsPrefix(s, MaxGroups(bits));
        Ok((VarValue(groups) % WordSize(bits), |groups|))
  }

  lemma {:induction false} TakenIsPrefix(s: seq<byte>, max: nat)
    ensures TakeGroups(s, max).Some? ==> TakeGroups(s, max).value <= s && |TakeGroups(s, max).value| <= max
  {
    if 0 < max && s != [] && 128 <= s[0] {
      TakenIsPrefix(s[1..], max - 1);
    }
  }

  function Decode(k: Kind, s: seq<byte>): (r: Result<(RawRecord, nat)>)
    ensures r.Ok? ==> r.value.1 <= |s|
  {
    match k
    case Fixed(width, signed) =>
      (match DecodeNumber(k, s)
       case OutOfRange => OutOfRange
       case Ok((v, n)) => Ok((FixedRec(width, signed, v), n)))
    case Var(bits) =>
      (match DecodeNumber(k, s)
       case OutOfRange => OutOfRange
       case Ok((v, n)) => if v < 0 then OutOfRange else Ok((VarRec(bits, v), n)))
    case Text(prefix) =>
      match DecodeNumber(PrefixKind(prefix), s)
      case OutOfRange => OutOfRange
      case Ok((len, n)) =>
        if len < 0 || |s| - n < len then OutOfRange else Ok((TextRec(prefix, s[n..n + len]), n + len))
  }

  /** A number is decoded from its own bytes, whatever follows them. */
  lemma NumberRoundTrip(k: Kind, v: int, rest: seq<byte>)
    requires !k.Text?
    requires k.Fixed? ==> if k.signed then SignedRange(v, Pow256(k.width)) else 0 <= v < Pow256(k.width)
    requires k.Var? ==> 0 <= v < WordSize(k.bits)
    ensures DecodeNumber(k, NumberBytes(k, v) + rest) == Ok((v, |NumberBytes(k, v)|))
  {
    match k
    case Fixed(width, signed) =>
      var w := if signed then ToWord(v, Pow256(width)) else v;
      WordRoundTrip(v, w, Pow256(width));
      LoadStored(w, width);
      assert (BigEndian(w, width) + rest)[..width] == BigEndian(w, width);
    case Var(bits) =>
      VarintFitsBuffer(v);
      VarintRoundTrip(v, rest, MaxGroups(bits));
      SmallMod(v, WordSize(bits));
  }

  /** A record is decoded from its own bytes, whatever follows them, and takes exactly those bytes. */
  lemma RecordRoundTrip(r: Record, rest: seq<byte>)
    ensures Decode(KindOf(r), Encode(r) + rest) == Ok((r, |Encode(r)|))
  {
    match r
    case FixedRec(_, _, v) => NumberRoundTrip(KindOf(r), v, rest);
    case VarRec(_, u) => NumberRoundTrip(KindOf(r), u, rest);
    case TextRec(prefix, s) =>
      var head := NumberBytes(PrefixKind(prefix), |s|);
      PrefixCoversLength(prefix);
      NumberRoundTrip(PrefixKind(prefix), |s|, s + rest);
      assert Encode(r) + rest == head + (s + rest);
      assert (head + (s + rest))[|head|..|head| + |s|] == s;
  }

  lemma PrefixCoversLength(prefix: Prefix)
    ensures !PrefixKind(prefix).Text?
    ensures PrefixKind(prefix).Fixed? ==> !PrefixKind(prefix).signed && PrefixLimit(prefix) == Pow256(PrefixKind(prefix).width)
    ensures PrefixKind(prefix).Var? ==> PrefixLimit(prefix) == WordSize(PrefixKind(prefix).bits)
  {
  }

  // ---------------------------------------------------------------- writing

  function RemainAfter(base: nat, remain: nat, n: nat): nat
    requires 0 < base && Fits(base, remain, n)
  {
    GrowthSufficesIff(base, remain, n);
    remain + GrowBlocks(base, remain, n) * base - n
  }

  /** Every write of the list finds enough room when its turn comes. */
  predicate FitsWrites(base: nat, remain: nat, ws: seq<seq<byte>>)
    requires 0 < base
    decreases |ws|
  {
    ws == [] || (Fits(base, remain, |ws[0]|) && FitsWrites(base, RemainAfter(base, remain, |ws[0]|), ws[1..]))
  }

  function RemainAfterAll(base: nat, remain: nat, ws: seq<seq<byte>>): nat
    requires 0 < base && FitsWrites(base, remain, ws)
    decreases |ws|
  {
    if ws == [] then remain else RemainAfterAll(base, RemainAfter(base, remain, |ws[0]|), ws[1..])
  }

  function AllWrites(rs: seq<Record>): seq<seq<byte>>
  {
    if rs == [] then [] else Writes(rs[0]) + AllWrites(rs[1..])
  }

  lemma {:induction false} FitsWritesConcat(base: nat, remain: nat, xs: seq<seq<byte>>, ys: seq<seq<byte>>)
    requires 0 < base && FitsWrites(base, remain, xs + ys)
    ensures FitsWrites(base, remain, xs) && FitsWrites(base, RemainAfterAll(base, remain, xs), ys)
    ensures RemainAfterAll(base, remain, xs + ys) == RemainAfterAll(base, RemainAfterAll(base, remain, xs), ys)
    decreases |xs|
  {
    if xs == [] {
      assert xs + ys == ys;
    } else {
      assert (xs + ys)[1..] == xs[1..] + ys;
      FitsWritesConcat(base, RemainAfter(base, remain, |xs[0]|), xs[1..], ys);
    }
  }

  /** With one-byte blocks every list of writes fits. */
  lemma {:induction false} UnitBlocksFit(remain: nat, ws: seq<seq<byte>>)
    ensures FitsWrites(1, remain, ws)
    decreases |ws|
  {
    if ws == [] {
    } else {
      FitsAlways(1, remain, |ws[0]|);
      UnitBlocksFit(RemainAfter(1, remain, |ws[0]|), ws[1..]);
    }
  }

  /** From `s` to `t`, exactly `data` was put down at the position. */
  ghost predicate Appended(s: State, data: seq<byte>, t: State)
    requires s.pos <= |s.bytes|
  {
    && t.pos == s.pos + |data| <= |t.bytes|
    && t.size == Max(s.size, t.pos)
    && t.bytes[..s.pos] == s.bytes[..s.pos]
    && t.bytes[s.pos..t.pos] == data
    && |s.bytes| <= |t.bytes|
    && (forall k :: t.pos <= k < |s.bytes| ==> t.bytes[k] == s.bytes[k])
  }

  lemma AppendedNothing(s: State)
    requires Ready(s)
    ensures Appended(s, [], s)
  {
  }

  lemma AppendedTwice(s: State, x: seq<byte>, t: State, y: seq<byte>, u: State)
    requires s.pos <= |s.bytes| && Appended(s, x, t) && Appended(t, y, u)
    ensures Appended(s, x + y, u)
  {
    assert u.bytes[..s.pos] == u.bytes[..t.pos][..s.pos] == t.bytes[..t.pos][..s.pos];
    assert u.bytes[s.pos..t.pos] == u.bytes[..t.pos][s.pos..] == t.bytes[..t.pos][s.pos..] == x;
    assert u.bytes[s.pos..u.pos] == u.bytes[s.pos..t.pos] + u.bytes[t.pos..u.pos];
  }

  /** One `write` call. */
  method WriteBytes(ba: ByteArray, data: seq<byte>)
    requires ba.Valid() && Fits(ba.baseSize, ba.capacity - ba.position, |data|)
    modifies ba, ba.Repr
    ensures ba.Valid() && fresh(ba.Repr - old(ba.Repr)) && old(ba.Repr) <= ba.Repr
    ensures old(Ready(ba.View())) && Appended(old(ba.View()), data, ba.View())
    ensures ba.capacity - ba.position == RemainAfter(ba.baseSize, old(ba.capacity - ba.position), |data|)
  {
    ba.ContentsLength();
    ghost var remain := ba.capacity - ba.position;
    GrowthSufficesIff(ba.baseSize, remain, |data|);
    ba.Write(data);
    ba.ContentsLength();
  }

  /** The bytes of a number, as the typed members put them together before they write. */
  method NumberImage(k: Kind, v: int) returns (tmp: seq<byte>)
    requires !k.Text?
    requires k.Fixed? ==> if k.signed then SignedRange(v, Pow256(k.width)) else 0 <= v < Pow256(k.width)
    requires k.Var? ==> 0 <= v < WordSize(k.bits)
    ensures tmp == NumberBytes(k, v)
  {
    match k
    case Fixed(width, signed) =>
      var word := if signed then ToWord(v, Pow256(width)) else v;
      SwapIsBigEndian(word, width);
      tmp := Image(Swap(word, width), width);
    case Var(_) =>
      var value: nat := v;
      tmp := [];
      while value >= 0x80
        invariant tmp + Varint(value) == Varint(v)
        decreases value
      {
        assert Varint(value) == [value % 128 + 128] + Varint(value / 128);
        tmp := tmp + [value % 128 + 128];
        value := value / 128;
      }
      tmp := tmp + [value];
  }

  method WriteRecord(ba: ByteArray, r: Record)
    requires ba.Valid()
    requires FitsWrites(ba.baseSize, ba.capacity - ba.position, Writes(r))
    modifies ba, ba.Repr
    ensures ba.Valid() && fresh(ba.Repr - old(ba.Repr)) && old(ba.Repr) <= ba.Repr
    ensures old(Ready(ba.View())) && Appended(old(ba.View()), Encode(r), ba.View())
    ensures ba.capacity - ba.position == RemainAfterAll(ba.baseSize, old(ba.capacity - ba.position), Writes(r))
  {
    hide Fits, RemainAfter, Appended, ByteArray.Chain, ByteArray.Cursor;
    match r
    case FixedRec(_, _, v) =>
      var tmp := NumberImage(KindOf(r), v);
      WriteBytes(ba, tmp);
    case VarRec(_, u) =>
      var tmp := NumberImage(KindOf(r), u);
      WriteBytes(ba, tmp);
    case TextRec(prefix, s) =>
      PrefixCoversLength(prefix);
      var tmp := NumberImage(PrefixKind(prefix), |s|);
      WriteTwo(ba, tmp, s);
  }

  /** A length and then the characters. */
  method WriteTwo(ba: ByteArray, head: seq<byte>, chars: seq<byte>)
    requires ba.Valid() && FitsWrites(ba.baseSize, ba.capacity - ba.position, [head, chars])
    modifies ba, ba.Repr
    ensures ba.Valid() && fresh(ba.Repr - old(ba.Repr)) && old(ba.Repr) <= ba.Repr
    ensures old(Ready(ba.View())) && Appended(old(ba.View()), head + chars, ba.View())
    ensures ba.capacity - ba.position == RemainAfterAll(ba.baseSize, old(ba.capacity - ba.position), [head, chars])
  {
    TwoWrites(ba.baseSize, ba.capacity - ba.position, head, chars);
    ghost var before := ba.View();
    hide *;
    WriteBytes(ba, head);
    ghost var between := ba.View();
    WriteBytes(ba, chars);
    AppendedTwice(before, head, between, chars, ba.View());
  }

  lemma TwoWrites(base: nat, remain: nat, x: seq<byte>, y: seq<byte>)
    requires 0 < base && FitsWrites(base, remain, [x, y])
    ensures Fits(base, remain, |x|) && Fits(base, RemainAfter(base, remain, |x|), |y|)
    ensures RemainAfterAll(base, remain, [x, y]) == RemainAfter(base, RemainAfter(base, remain, |x|), |y|)
  {
    assert [x, y][1..] == [y] && [y][1..] == [];
    var left := RemainAfter(base, remain, |x|);
    assert RemainAfterAll(base, left, [y]) == RemainAfter(base, left, |y|);
  }

  /** Writes the records one after the other. */
  method WriteAll(ba: ByteArray, rs: seq<Record>)
    requires ba.Valid()
    requires FitsWrites(ba.baseSize, ba.capacity - ba.position, AllWrites(rs))
    modifies ba, ba.Repr
    ensures ba.Valid() && fresh(ba.Repr - old(ba.Repr)) && old(ba.Repr) <= ba.Repr
    ensures old(Ready(ba.View())) && Appended(old(ba.View()), EncodeAll(rs), ba.View())
    ensures ba.capacity - ba.position == RemainAfterAll(ba.baseSize, old(ba.capacity - ba.position), AllWrites(rs))
    decreases |rs|
  {
    ba.ContentsLength();
    if rs == [] {
      AppendedNothing(ba.View());
      return;
    }
    ghost var s := ba.View();
    FitsWritesConcat(ba.baseSize, ba.capacity - ba.position, Writes(rs[0]), AllWrites(rs[1..]));
    hide Appended, FitsWrites, RemainAfterAll, Writes, Encode;
    WriteRecord(ba, rs[0]);
    ghost var t := ba.View();
    WriteAll(ba, rs[1..]);
    AppendedTwice(s, Encode(rs[0]), t, EncodeAll(rs[1..]), ba.View());
  }

  // ---------------------------------------------------------------- reading

  /** The readable bytes. */
  ghost function Unread(s: State): seq<byte>
    requires Ready(s)
  {
    s.bytes[s.pos..s.size]
  }

  /** Only the position moved, and not backwards. */
  ghost predicate ReadOnly(s: State, t: State) {
    t == s.(pos := t.pos) && s.pos <= t.pos <= s.size
  }

  lemma ModAdd(x: nat, y: nat, m: nat)
    requires 0 < m
    ensures (x % m + y) % m == (x + y) % m
  {
    var r := x % m + y;
    assert x + y == (x / m) * m + r && r == (r / m) * m + r % m;
    assert (x / m + r / m) * m == (x / m) * m + (r / m) * m;
    DivModUnique(x + y, m, x / m + r / m, r % m);
  }

  function Prepend(gs: seq<byte>, t: Option<seq<byte>>): Option<seq<byte>> {
    match t
    case None => None
    case Some(more) => Some(gs + more)
  }

  lemma TakeOneMore(gs: seq<byte>, s: seq<byte>, max: nat)
    requires 0 < max
    ensures s == [] ==> Prepend(gs, TakeGroups(s, max)) == None
    ensures s != [] && s[0] < 128 ==> Prepend(gs, TakeGroups(s, max)) == Some(gs + [s[0]])
    ensures s != [] && s[0] >= 128 ==> Prepend(gs, TakeGroups(s, max)) == Prepend(gs + [s[0]], TakeGroups(s[1..], max - 1))
  {
    if s != [] && TakeGroups(s[1..], max - 1).Some? {
      var rest := TakeGroups(s[1..], max - 1).value;
      assert gs + ([s[0]] + rest) == (gs + [s[0]]) + rest;
    }
  }

  /** One `readFuint8` and the accumulation of its group; adding is or-ing, since the groups do not overlap. */
  method ReadGroup(ba: ByteArray, ghost gs: seq<byte>, result: nat, weight: nat, size: nat)
    returns (r: Result<byte>, result': nat)
    requires ba.Valid() && 0 < size
    requires weight == Pow128(|gs|) && result == VarValue(gs) % size
    modifies ba
    ensures ba.Valid() && ba.Repr == old(ba.Repr) && old(Ready(ba.View())) && Ready(ba.View())
    ensures old(Unread(ba.View())) == [] ==> r == OutOfRange && ba.View() == old(ba.View())
    ensures old(Unread(ba.View())) != [] ==>
      && r == Ok(old(Unread(ba.View()))[0]) && ba.View() == old(ba.View()).(pos := old(ba.position) + 1)
      && result' == VarValue(gs + [r.value]) % size
  {
    ba.ContentsLength();
    var one := ba.Read(1);
    if one.OutOfRange? {
      return OutOfRange, result;
    }
    var b := one.value[0];
    assert (gs + [b])[..|gs|] == gs;
    ModAdd(VarValue(gs), b % 128 * weight, size);
    return Ok(b), (result + b % 128 * weight) % size;
  }

  /** `gs` has been taken from the unread bytes of `start`, and `t` is the state now. */
  ghost predicate Reading(start: State, gs: seq<byte>, t: State, max: nat)
    requires Ready(start) && Ready(t)
  {
    && ReadOnly(start, t) && |gs| <= max && t.pos == start.pos + |gs|
    && TakeGroups(Unread(start), max) == Prepend(gs, TakeGroups(Unread(t), max - |gs|))
  }

  lemma ReadingStarts(s: State, max: nat)
    requires Ready(s)
    ensures Reading(s, [], s, max)
  {
    match TakeGroups(Unread(s), max)
    case None =>
    case Some(more) => assert [] + more == more;
  }

  lemma ReadingStep(start: State, gs: seq<byte>, t: State, max: nat, u: State)
    requires Ready(start) && Ready(t) && Reading(start, gs, t, max) && |gs| < max
    requires Unread(t) != [] && u == t.(pos := t.pos + 1) && Ready(u)
    ensures var b := Unread(t)[0];
            if b < 128 then ReadOnly(start, u) && TakeGroups(Unread(start), max) == Some(gs + [b])
            else Reading(start, gs + [b], u, max)
  {
    TakeOneMore(gs, Unread(t), max - |gs|);
    assert Unread(u) == Unread(t)[1..];
  }

  lemma ReadingStops(start: State, gs: seq<byte>, t: State, max: nat)
    requires Ready(start) && Ready(t) && Reading(start, gs, t, max)
    ensures ReadOnly(start, t)
    ensures Unread(t) == [] && |gs| < max ==> TakeGroups(Unread(start), max) == None
    ensures |gs| == max ==> TakeGroups(Unread(start), max) == Some(gs)
  {
    assert gs + [] == gs;
  }

  /** The decoding loop: at most `max` groups, stopping behind the first one without the top bit. */
  method ReadGroups(ba: ByteArray, bits: nat) returns (r: Result<nat>)
    requires ba.Valid() && (bits == 32 || bits == 64)
    modifies ba
    ensures ba.Valid() && ba.Repr == old(ba.Repr) && old(Ready(ba.View())) && ReadOnly(old(ba.View()), ba.View())
    ensures match TakeGroups(old(Unread(ba.View())), MaxGroups(bits))
            case None => r == OutOfRange && ba.position == ba.size
            case Some(groups) => r == Ok(VarValue(groups) % WordSize(bits)) && ba.position == old(ba.position) + |groups|
  {
    ba.ContentsLength();
    ghost var start := ba.View();
    ghost var gs: seq<byte> := [];
    var result: nat, weight: nat, i: nat := 0, 1, 0;
    var max := MaxGroups(bits);
    SmallMod(0, WordSize(bits));
    ReadingStarts(start, max);
    assert Pow128(0) == 1 && VarValue([]) == 0;
    hide *;
    while i < max
      invariant ba.Valid() && ba.Repr == old(ba.Repr) && Ready(ba.View())
      invariant i == |gs| <= max && Reading(start, gs, ba.View(), max)
      invariant weight == Pow128(i) && result == VarValue(gs) % WordSize(bits)
    {
      ghost var t := ba.View();
      ReadingStops(start, gs, t, max);
      var b;
      b, result := ReadGroup(ba, gs, result, weight, WordSize(bits));
      if b.OutOfRange? {
        NothingUnread(t);
        ba.ViewSizes();
        return OutOfRange;
      }
      ReadingStep(start, gs, t, max, ba.View());
      gs := gs + [b.value];
      if b.value < 0x80 {
        return Ok(result);
      }
      Pow128Step(i);
      weight := weight * 128;
      i := i + 1;
    }
    ReadingStops(start, gs, ba.View(), max);
    return Ok(result);
  }

  lemma NothingUnread(s: State)
    requires Ready(s)
    ensures Unread(s) == [] <==> s.pos == s.size
  {
  }

  lemma Pow128Step(i: nat)
    ensures Pow128(i) * 128 == Pow128(i + 1)
  {
  }

  /** Reads a fixed-width word or a 7-bit-group number. */
  method ReadNumber(ba: ByteArray, k: Kind) returns (r: Result<int>)
    requires ba.Valid() && !k.Text?
    modifies ba
    ensures ba.Valid() && ba.Repr == old(ba.Repr) && old(Ready(ba.View())) && ReadOnly(old(ba.View()), ba.View())
    ensures match DecodeNumber(k, old(Unread(ba.View())))
            case OutOfRange => r == OutOfRange && ba.position == if k.Var? then ba.size else old(ba.position)
            case Ok((v, n)) => r == Ok(v) && ba.position == old(ba.position) + n
  {
    ba.ContentsLength();
    match k
    case Fixed(width, signed) =>
      ghost var s := ba.View();
      var word := ba.Read(width);
      if word.OutOfRange? {
        return OutOfRange;
      }
      SliceOfSlice(s.bytes, s.pos, s.size, 0, width);
      var w := Swap(FromImage(word.value), width);
      r := Ok(if signed then FromWord(w, Pow256(width)) else w);
    case Var(bits) =>
      TakenIsPrefix(Unread(ba.View()), MaxGroups(bits));
      var value := ReadGroups(ba, bits);
      r := match value case Ok(v) => Ok(v) case OutOfRange => OutOfRange;
  }

  /** Reading an empty string touches the cursor block, so it must not happen at the capacity. */
  ghost predicate ReadSafe(k: Kind, s: State)
    requires Ready(s)
  {
    k.Text? ==>
      match DecodeNumber(PrefixKind(k.prefix), Unread(s))
      case OutOfRange => true
      case Ok((v, n)) => v == 0 ==> s.pos + n < |s.bytes|
  }

  /** With a byte of the capacity behind the size, and for integers anyway, every read is safe. */
  lemma SpareByteReadSafe(k: Kind, s: State)
    requires Ready(s) && (s.size < |s.bytes| || !k.Text?)
    ensures ReadSafe(k, s)
  {
    if k.Text? {
      PrefixCoversLength(k.prefix);
      assert |Unread(s)| == s.size - s.pos;
      hide DecodeNumber, Unread;
    }
  }

  /** How many bytes a read that throws has consumed: the groups of a number, or the length of a string cut short. */
  function Spent(k: Kind, s: seq<byte>): nat {
    match k
    case Fixed(_, _) => 0
    case Var(_) => |s|
    case Text(prefix) =>
      match DecodeNumber(PrefixKind(prefix), s)
      case OutOfRange => if prefix == Vint then |s| else 0
      case Ok((_, n)) => n
  }

  /** Decoding `k` from the unread bytes of `s` gives `r` and leads to `t`. */
  ghost predicate Decodes(k: Kind, s: State, r: Result<RawRecord>, t: State)
    requires Ready(s)
  {
    && ReadOnly(s, t)
    && match Decode(k, Unread(s))
       case OutOfRange => r == OutOfRange && t.pos == s.pos + Spent(k, Unread(s))
       case Ok((rec, n)) => r == Ok(rec) && t.pos == s.pos + n
  }

  lemma TextDecodes(prefix: Prefix, s: State, len: int, n: nat)
    requires Ready(s) && !PrefixKind(prefix).Text?
    requires DecodeNumber(PrefixKind(prefix), Unread(s)) == Ok((len, n))
    ensures s.pos + n <= s.size
    ensures len < 0 || s.size - (s.pos + n) < len ==> Decode(Text(prefix), Unread(s)) == OutOfRange
    ensures 0 <= len <= s.size - (s.pos + n) ==>
      Decode(Text(prefix), Unread(s)) == Ok((TextRec(prefix, s.bytes[s.pos + n..s.pos + n + len]), n + len))
  {
    if 0 <= len <= s.size - (s.pos + n) {
      SliceOfSlice(s.bytes, s.pos, s.size, n, n + len);
    }
  }

  /** What comes out of reading a length and then that many bytes. */
  lemma TextOutcome(prefix: Prefix, s: State, len: Result<int>, t: State, chars: Result<seq<byte>>, u: State)
    requires Ready(s) && Ready(t) && ReadOnly(s, t) && !PrefixKind(prefix).Text?
    requires match DecodeNumber(PrefixKind(prefix), Unread(s))
             case OutOfRange => len == OutOfRange && t.pos == if PrefixKind(prefix).Var? then s.size else s.pos
             case Ok((v, n)) => len == Ok(v) && t.pos == s.pos + n
    requires if len.OutOfRange? || len.value < 0 then chars == OutOfRange && u == t else ReadEffect(t, len.value, chars, u)
    ensures Decodes(Text(prefix), s, if chars.Ok? then Ok(TextRec(prefix, chars.value)) else OutOfRange, u)
  {
    var d := DecodeNumber(PrefixKind(prefix), Unread(s));
    if d.Ok? {
      TextDecodes(prefix, s, d.value.0, d.value.1);
    }
    hide DecodeNumber, Unread;
  }

  method ReadText(ba: ByteArray, prefix: Prefix) returns (r: Result<RawRecord>)
    requires ba.Valid() && Ready(ba.View()) && ReadSafe(Text(prefix), ba.View())
    modifies ba
    ensures ba.Valid() && ba.Repr == old(ba.Repr) && Decodes(Text(prefix), old(ba.View()), r, ba.View())
  {
    ghost var s := ba.View();
    PrefixCoversLength(prefix);
    hide DecodeNumber, Decode, Decodes, Unread, ReadEffect, ByteArray.Cursor, ByteArray.Contents;
    var len := ReadNumber(ba, PrefixKind(prefix));
    ghost var t := ba.View();
    if len.OutOfRange? || len.value < 0 {
      TextOutcome(prefix, s, len, t, OutOfRange, t);
      return OutOfRange;
    }
    ba.CursorBlock();
    ba.ContentsLength();
    var chars := ba.Read(len.value);
    TextOutcome(prefix, s, len, t, chars, ba.View());
    r := match chars case Ok(c) => Ok(TextRec(prefix, c)) case OutOfRange => OutOfRange;
  }

  method ReadRecord(ba: ByteArray, k: Kind) returns (r: Result<RawRecord>)
    requires ba.Valid() && Ready(ba.View()) && ReadSafe(k, ba.View())
    modifies ba
    ensures ba.Valid() && ba.Repr == old(ba.Repr) && Decodes(k, old(ba.View()), r, ba.View())
  {
    match k
    case Fixed(width, signed) =>
      var v := ReadNumber(ba, k);
      r := match v case Ok(x) => Ok(FixedRec(width, signed, x)) case OutOfRange => OutOfRange;
    case Var(bits) =>
      var v := ReadNumber(ba, k);
      r := match v case Ok(x) => (if x < 0 then OutOfRange else Ok(VarRec(bits, x))) case OutOfRange => OutOfRange;
    case Text(prefix) =>
      r := ReadText(ba, prefix);
  }

  // ------------------------------------------------------------- round trip

  function KindsOf(rs: seq<Record>): (ks: seq<Kind>)
    ensures |ks| == |rs|
  {
    if rs == [] then [] else [KindOf(rs[0])] + KindsOf(rs[1..])
  }

  /** No empty string of the list ends at the capacity, which is `room` bytes away from its start. */
  predicate EmptyTextInside(rs: seq<Record>, room: int)
  {
    rs != [] ==>
      && (rs[0].TextRec? && rs[0].s == [] ==> |Encode(rs[0])| < room)
      && EmptyTextInside(rs[1..], room - |Encode(rs[0])|)
  }

  lemma Advance(s: State, x: seq<byte>, rest: seq<byte>)
    requires Ready(s) && Unread(s) == x + rest
    ensures s.pos + |x| <= s.size
    ensures s.bytes[s.pos + |x|..s.size] == rest
  {
    assert s.bytes[s.pos + |x|..s.size] == Unread(s)[|x|..];
  }

  lemma OwnBytesReadSafe(r: Record, s: State, rest: seq<byte>)
    requires Ready(s) && Unread(s) == Encode(r) + rest
    requires r.TextRec? && r.s == [] ==> |Encode(r)| < |s.bytes| - s.pos
    ensures ReadSafe(KindOf(r), s)
  {
    if r.TextRec? {
      var head := NumberBytes(PrefixKind(r.prefix), |r.s|);
      PrefixCoversLength(r.prefix);
      NumberRoundTrip(PrefixKind(r.prefix), |r.s|, r.s + rest);
      assert Encode(r) + rest == head + (r.s + rest);
      hide DecodeNumber, NumberBytes;
    }
  }

  /** Where the record's own bytes are next, one read takes exactly those and returns the record. */
  lemma DecodesOwnBytes(r: Record, s: State, rest: seq<byte>, q: Result<RawRecord>, t: State)
    requires Ready(s) && Unread(s) == Encode(r) + rest
    requires Decodes(KindOf(r), s, q, t)
    ensures q == Ok(r) && Ready(t) && t == s.(pos := s.pos + |Encode(r)|) && Unread(t) == rest
  {
    RecordRoundTrip(r, rest);
    Advance(s, Encode(r), rest);
    hide Decode, Encode;
  }

  /** `rs`, and then `rest`, lie unread in `s`, and reading `rs` is safe. */
  ghost predicate Holds(s: State, rs: seq<Record>, rest: seq<byte>)
  {
    Ready(s) && Unread(s) == EncodeAll(rs) + rest && EmptyTextInside(rs, |s.bytes| - s.pos)
  }

  lemma HoldsSplit(s: State, rs: seq<Record>, rest: seq<byte>)
    requires Holds(s, rs, rest) && rs != []
    ensures Ready(s) && Unread(s) == Encode(rs[0]) + (EncodeAll(rs[1..]) + rest)
    ensures rs[0].TextRec? && rs[0].s == [] ==> |Encode(rs[0])| < |s.bytes| - s.pos
    ensures EmptyTextInside(rs[1..], |s.bytes| - s.pos - |Encode(rs[0])|)
    ensures |EncodeAll(rs)| == |Encode(rs[0])| + |EncodeAll(rs[1..])|
  {
    hide Encode, Unread;
  }

  lemma HoldsFirst(s: State, rs: seq<Record>, rest: seq<byte>)
    requires Holds(s, rs, rest) && rs != []
    ensures Ready(s) && ReadSafe(KindOf(rs[0]), s)
  {
    HoldsSplit(s, rs, rest);
    hide *;
    OwnBytesReadSafe(rs[0], s, EncodeAll(rs[1..]) + rest);
  }

  lemma HoldsNext(s: State, rs: seq<Record>, rest: seq<byte>, q: Result<RawRecord>, t: State)
    requires Holds(s, rs, rest) && rs != [] && Decodes(KindOf(rs[0]), s, q, t)
    ensures q == Ok(rs[0]) && Holds(t, rs[1..], rest) && t == s.(pos := s.pos + |Encode(rs[0])|)
    ensures |EncodeAll(rs)| == |Encode(rs[0])| + |EncodeAll(rs[1..])|
  {
    hide *;
    HoldsSplit(s, rs, rest);
    DecodesOwnBytes(rs[0], s, EncodeAll(rs[1..]) + rest, q, t);
    MakeHolds(t, rs[1..], rest);
  }

  lemma MakeHolds(t: State, rs: seq<Record>, rest: seq<byte>)
    ensures Ready(t) && Unread(t) == EncodeAll(rs) + rest && EmptyTextInside(rs, |t.bytes| - t.pos) ==> Holds(t, rs, rest)
  {
  }

  /** The kinds of a list and of its tail. */
  lemma KindsFirst(ks: seq<Kind>, rs: seq<Record>)
    ensures ks == KindsOf(rs) ==> if ks == [] then rs == [] && EncodeAll(rs) == []
      else rs != [] && ks[0] == KindOf(rs[0]) && ks[1..] == KindsOf(rs[1..])
  {
  }

  /** Reads back a list whose encoding lies at the position. */
  method ReadAll(ba: ByteArray, ks: seq<Kind>, ghost rs: seq<Record>, ghost rest: seq<byte>) returns (out: seq<Record>)
    requires ba.Valid()
    requires ks == KindsOf(rs) && Holds(ba.View(), rs, rest)
    modifies ba
    ensures ba.Valid() && out == rs
    ensures ba.View() == old(ba.View()).(pos := old(ba.position) + |EncodeAll(rs)|)
    decreases |ks|
  {
    hide *;
    KindsFirst(ks, rs);
    ba.ViewSizes();
    if ks == [] {
      return [];
    }
    ghost var s := ba.View();
    HoldsFirst(s, rs, rest);
    var r := ReadRecord(ba, ks[0]);
    HoldsNext(s, rs, rest, r, ba.View());
    ba.ViewSizes();
    var others := ReadAll(ba, ks[1..], rs[1..], rest);
    out := [r.value] + others;
  }

  lemma HoldsWritten(s: State, rs: seq<Record>, t: State, ok: bool, u: State)
    requires Ready(s) && Ready(t) && Appended(s, EncodeAll(rs), t) && SeekEffect(t, s.pos, ok, u)
    requires EmptyTextInside(rs, |EncodeAll(rs)| + |t.bytes| - t.pos)
    ensures u == t.(pos := s.pos) && t.pos == s.pos + |EncodeAll(rs)| <= t.size
    ensures Holds(u, rs, t.bytes[t.pos..t.size])
  {
    hide EncodeAll, EmptyTextInside;
    assert t.bytes[s.pos..t.size] == t.bytes[s.pos..t.pos] + t.bytes[t.pos..t.size];
  }

  /** Writing any list of records, seeking back and reading the same types returns the list and ends at the same position. */
  method WriteSeekRead(ba: ByteArray, rs: seq<Record>) returns (out: seq<Record>)
    requires ba.Valid()
    requires FitsWrites(ba.baseSize, ba.capacity - ba.position, AllWrites(rs))
    requires EmptyTextInside(rs, |EncodeAll(rs)| + RemainAfterAll(ba.baseSize, ba.capacity - ba.position, AllWrites(rs)))
    modifies ba, ba.Repr
    ensures ba.Valid() && out == rs
    ensures ba.position == old(ba.position) + |EncodeAll(rs)|
  {
    hide Appended, Holds, RemainAfterAll, FitsWrites, EncodeAll, EmptyTextInside, ValidRecord, AllWrites,
      SeekEffect, Max, ByteArray.Cursor, ByteArray.Contents;
    ghost var s := ba.View();
    ba.CursorBlock();
    ba.ContentsLength();
    var start := ba.position;
    WriteAll(ba, rs);
    ba.CursorBlock();
    ba.ContentsLength();
    ghost var t := ba.View();
    var ok := ba.SetPosition(start);
    HoldsWritten(s, rs, t, ok, ba.View());
    out := ReadAll(ba, KindsOf(rs), rs, t.bytes[t.pos..t.size]);
  }

  /** A list without empty strings has none at the capacity. */
  lemma {:induction false} NoEmptyText(rs: seq<Record>, room: int)
    requires forall i :: 0 <= i < |rs| ==> !(rs[i].TextRec? && rs[i].s == [])
    ensures EmptyTextInside(rs, room)
    decreases |rs|
  {
    if rs != [] {
      hide Encode;
      NoEmptyText(rs[1..], room - |Encode(rs[0])|);
    }
  }

  /** With one-byte blocks and no empty strings, nothing is asked of the list. */
  lemma UnitBlocksUnconditional(rs: seq<Record>, remain: nat, room: int)
    requires forall i :: 0 <= i < |rs| ==> !(rs[i].TextRec? && rs[i].s == [])
    ensures FitsWrites(1, remain, AllWrites(rs))
    ensures EmptyTextInside(rs, room)
  {
    UnitBlocksFit(remain, AllWrites(rs));
    NoEmptyText(rs, room);
  }
}
