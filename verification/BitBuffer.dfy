/** The little-endian bit stream a QR code packs its fields into (internal/commissioning/payload.go). */
module BitBuffer {
  import opened Bytes

  /** Bit `i` of a buffer: the stream runs from the low bit of the first byte. */
  predicate BufferBit(buf: seq<byte>, i: nat)
    requires i < 8 * |buf|
  {
    Bit(buf[i / 8], i % 8)
  }

  /** The buffer bits `at..at+length` are those of `value`; all other bits are as in `before`. */
  ghost predicate Written(before: seq<byte>, after: seq<byte>, at: nat, length: nat, value: nat)
  {
    && |after| == |before| && at + length <= 8 * |before|
    && forall i: nat :: i < 8 * |before| ==>
         (BufferBit(after, i) <==> BufferBit(before, i) || (at <= i < at + length && Bit(value, i - at)))
  }

  lemma MarkOne(buf: seq<byte>, at: nat, value: nat, i: nat, start: seq<byte>)
    requires at + i < 8 * |buf| && Written(start, buf, at, i, value)
    ensures !Bit(value, i) ==> Written(start, buf, at, i + 1, value)
    ensures Bit(value, i) ==>
      var b := (at + i) / 8;
      Written(start, buf[b := SetByteBit(buf[b], (at + i) % 8)], at, i + 1, value)
  {
    hide Bit, SetByteBit;
    var b, k := (at + i) / 8, (at + i) % 8;
    if Bit(value, i) {
      var after := buf[b := SetByteBit(buf[b], k)];
      forall j: nat | j < 8 * |buf|
        ensures BufferBit(after, j) <==> BufferBit(start, j) || (at <= j < at + i + 1 && Bit(value, j - at))
      {
        assert BufferBit(buf, j) <==> BufferBit(start, j) || (at <= j < at + i && Bit(value, j - at));
        if j / 8 == b { SamePlace(j, at + i); }
      }
    } else {
      forall j: nat | j < 8 * |buf|
        ensures BufferBit(buf, j) <==> BufferBit(start, j) || (at <= j < at + i + 1 && Bit(value, j - at))
      {
        assert BufferBit(buf, j) <==> BufferBit(start, j) || (at <= j < at + i && Bit(value, j - at));
      }
    }
  }

  lemma SamePlace(i: nat, j: nat)
    requires i / 8 == j / 8
    ensures i % 8 == j % 8 <==> i == j
  {
  }

  method WriteBits(buf: array<byte>, offset: nat, length: nat, value: nat)
    requires offset + length <= 8 * buf.Length
    modifies buf
    ensures Written(old(buf[..]), buf[..], offset, length, value)
  {
    hide Written, SetByteBit, Bit;
    NothingWritten(buf[..], offset, value);
    for i := 0 to length
      invariant Written(old(buf[..]), buf[..], offset, i, value)
    {
      var bitIndex := offset + i;
      var byteIndex := bitIndex / 8;
      var bitPos := bitIndex % 8;
      MarkOne(buf[..], offset, value, i, old(buf[..]));
      if Bit(value, i) {
        ghost var before := buf[..];
        buf[byteIndex] := SetByteBit(buf[byteIndex], bitPos);
        assert buf[..] == before[byteIndex := SetByteBit(before[byteIndex], bitPos)];
      }
    }
  }

  lemma NothingWritten(buf: seq<byte>, at: nat, value: nat)
    requires at <= 8 * |buf|
    ensures Written(buf, buf, at, 0, value)
  {
  }

  /** `ReadBits` returns the number whose bits are the `length` bits at `offset`. */
  ghost predicate ReadAs(buf: seq<byte>, offset: nat, length: nat, value: nat) {
    && offset + length <= 8 * |buf|
    && forall i: nat :: Bit(value, i) <==> i < length && BufferBit(buf, offset + i)
  }

  method ReadBits(buf: seq<byte>, offset: nat, length: nat) returns (value: nat)
    requires offset + length <= 8 * |buf|
    ensures ReadAs(buf, offset, length, value)
    ensures value < Pow2(length)
  {
    hide Bit;
    value := 0;
    ZeroBits();
    for i := 0 to length
      invariant ReadAs(buf, offset, i, value)
    {
      var bitIndex := offset + i;
      var byteIndex := bitIndex / 8;
      var bitPos := bitIndex % 8;
      if Bit(buf[byteIndex], bitPos) {
        value := SetBit(value, i);
      }
    }
    forall j: nat | j >= length
      ensures !Bit(value, j)
    {
    }
    BelowPow2(value, length);
  }

  lemma ZeroBits()
    ensures forall i: nat :: !Bit(0, i)
  {
    forall i: nat
      ensures !Bit(0, i)
    {
      ZeroBit(i);
    }
  }

  /** What was written over clear bits is read back, in its low `length` bits. */
  lemma ReadWritten(before: seq<byte>, after: seq<byte>, at: nat, length: nat, value: nat, read: nat)
    requires Written(before, after, at, length, value) && ReadAs(after, at, length, read)
    requires forall i: nat :: at <= i < at + length ==> !BufferBit(before, i)
    ensures read == value % Pow2(length)
  {
    hide Bit;
    forall i: nat
      ensures Bit(read, i) == Bit(value % Pow2(length), i)
    {
      TruncateBit(value, length, i);
      if i < length {
        assert BufferBit(after, at + i) <==> BufferBit(before, at + i) || Bit(value, i);
      }
    }
    BitsDetermine(read, value % Pow2(length));
  }

  /** Writing elsewhere does not change what is read. */
  lemma ReadElsewhere(before: seq<byte>, after: seq<byte>, at: nat, length: nat, value: nat, offset: nat, n: nat,
                      read: nat)
    requires Written(before, after, at, length, value) && offset + n <= 8 * |before|
    requires at + length <= offset || offset + n <= at
    ensures ReadAs(after, offset, n, read) <==> ReadAs(before, offset, n, read)
  {
    hide Bit;
    assert forall j: nat :: offset <= j < offset + n ==> BufferBit(after, j) == BufferBit(before, j);
  }
}
