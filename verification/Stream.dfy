/**
 A stream that delivers and accepts bytes in pieces of its own choosing, and
 the two loops that move a fixed number of bytes.
 */
module Streams {

  function Min(a: nat, b: nat): nat {
    if a < b then a else b
  }

  /** A size as the `int` that the loops return: itself below 2^31, and cut to 32 bits beyond. */
  function AsInt(n: nat): int {
    var low := n % 0x1_0000_0000;
    if low < 0x8000_0000 then low else low - 0x1_0000_0000
  }

  lemma AsIntIs(n: nat)
    ensures AsInt(n) == n <==> n < 0x8000_0000
    ensures AsInt(n) > 0 <==> 0 < n % 0x1_0000_0000 < 0x8000_0000
    ensures -0x8000_0000 <= AsInt(n) < 0x8000_0000 && (AsInt(n) - n) % 0x1_0000_0000 == 0
  {
  }

  class Stream {
    var incoming: string        // what the peer still delivers before it closes
    var written: string         // what the peer has accepted
    var room: nat               // how much the peer still accepts before it closes
    var calls: nat
    const cuts: nat -> nat      // how the stream cuts its pieces: one more than this many bytes in each call

    constructor (incoming: string, room: nat, cuts: nat -> nat)
      ensures this.incoming == incoming && this.room == room && written == "" && calls == 0 && this.cuts == cuts
    {
      this.incoming, this.room, this.cuts, written, calls := incoming, room, cuts, "", 0;
    }

    /** How many bytes the next call moves if it may move `length` and there are `left`. */
    function Piece(length: nat, left: nat): (n: nat)
      reads `calls
      ensures n <= length && n <= left && (length > 0 && left > 0 ==> n > 0)
    {
      Min(cuts(calls) + 1, Min(length, left))
    }

    /** `read`: a piece of what is coming, nothing only at the end. */
    method Read(buffer: array<char>, at: nat, length: nat) returns (n: nat)
      requires at + length <= buffer.Length
      modifies `incoming, `calls, buffer
      ensures n == old(Piece(length, |incoming|))
      ensures incoming == old(incoming[n..])
      ensures buffer[..] == old(buffer[..at] + incoming[..n] + buffer[at + n..])
    {
      n := Piece(length, |incoming|);
      calls := calls + 1;
      ghost var before := buffer[..];
      var i: nat := 0;
      while i < n
        invariant i <= n && incoming == old(incoming)
        invariant forall k :: 0 <= k < buffer.Length ==>
          buffer[k] == if at <= k < at + i then incoming[k - at] else before[k]
      {
        buffer[at + i] := incoming[i];
        i := i + 1;
      }
      assert buffer[..] == before[..at] + incoming[..n] + before[at + n..];
      incoming := incoming[n..];
    }

    /** `readFixSize`: all bytes asked for, or 0 if the stream ends before. */
    method ReadFixSize(buffer: array<char>, at: nat, length: nat) returns (rt: int)
      requires at + length <= buffer.Length
      modifies `incoming, `calls, buffer
      ensures var n := Min(length, |old(incoming)|);
        && incoming == old(incoming)[n..]
        && buffer[..] == Landed(old(buffer[..]), old(incoming), at, n)
      ensures rt == if |old(incoming)| >= length then AsInt(length) else 0
      ensures length < 0x8000_0000 ==> rt == if |old(incoming)| >= length then length else 0
    {
      ghost var before, text := buffer[..], incoming;
      var offset: nat, left: nat := 0, length;
      assert before == Landed(before, text, at, 0);
      hide Landed;
      while left > 0
        invariant offset + left == length && offset <= |text|
        invariant incoming == text[offset..]
        invariant buffer[..] == Landed(before, text, at, offset)
      {
        var len := Read(buffer, at + offset, left);
        Glued(before, text, at, offset, len);
        offset := offset + len;
        left := left - len;
        if len == 0 {
          return 0;
        }
      }
      assert offset == Min(length, |text|);
      return AsInt(length);
    }

    /** `write`: the peer accepts a piece, nothing only when it has closed. */
    method Write(data: string) returns (n: nat)
      modifies `written, `room, `calls
      ensures n == old(Piece(|data|, room))
      ensures written == old(written) + data[..n] && room == old(room) - n
    {
      n := Piece(|data|, room);
      calls := calls + 1;
      written := written + data[..n];
      room := room - n;
    }

    /** `writeFixSize`: the peer gets all bytes, in order, or the prefix it accepts. */
    method WriteFixSize(data: string) returns (rt: int)
      modifies `written, `room, `calls
      ensures written == old(written) + data[..Min(|data|, old(room))]
      ensures rt == if old(room) >= |data| then AsInt(|data|) else 0
      ensures |data| < 0x8000_0000 ==> rt == if old(room) >= |data| then |data| else 0
    {
      ghost var before := written;
      var offset: nat, left: nat := 0, |data|;
      while left > 0
        invariant offset + left == |data|
        invariant written == before + data[..offset] && room == old(room) - offset
      {
        var len := Write(data[offset..]);
        assert data[..offset] + data[offset..][..len] == data[..offset + len];
        offset := offset + len;
        left := left - len;
        if len == 0 {
          return 0;
        }
      }
      assert data[..offset] == data;
      return AsInt(|data|);
    }
  }

  /** A buffer after the first `n` bytes of a text have landed in it. */
  function Landed(before: string, text: string, at: nat, n: nat): string
    requires n <= |text| && at + n <= |before|
  {
    before[..at] + text[..n] + before[at + n..]
  }

  /** Two pieces read one behind the other are one piece. */
  lemma Glued(before: string, text: string, at: nat, offset: nat, len: nat)
    requires offset + len <= |text| && at + offset + len <= |before|
    ensures |Landed(before, text, at, offset)| == |before|
    ensures var once := Landed(before, text, at, offset);
      once[..at + offset] + text[offset..][..len] + once[at + offset + len..] == Landed(before, text, at, offset + len)
    ensures text[offset..][len..] == text[offset + len..]
  {
    var once := Landed(before, text, at, offset);
    assert once[..at + offset] == before[..at] + text[..offset];
    assert once[at + offset + len..] == before[at + (offset + len)..];
    assert text[..offset] + text[offset..][..len] == text[..offset + len];
  }
}
