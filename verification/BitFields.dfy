/** A bit buffer read as one little-endian number, and fields packed side by side in it. */
module BitFields {
  import opened Bytes
  import opened BitBuffer

  /** The low `width` bits of `value`. */
  datatype Field = Field(width: nat, value: nat)

  /** Bits `at .. at+width` of the number that the buffer's bytes spell. */
  function FieldAt(buf: seq<byte>, at: nat, width: nat): (value: nat)
    ensures value < Pow2(width)
  {
    FromLE(buf) / Pow2(at) % Pow2(width)
  }

  function TotalWidth(fields: seq<Field>): nat {
    if fields == [] then 0 else fields[0].width + TotalWidth(fields[1..])
  }

  /** The number that holds the fields next to each other, the first in the lowest bits. */
  function Pack(fields: seq<Field>): nat {
    if fields == [] then 0
    else fields[0].value % Pow2(fields[0].width) + Pow2(fields[0].width) * Pack(fields[1..])
  }

  // ----- bits of numbers ---------------------------------------------------------------

  lemma {:induction false} Pow2Sum(m: nat, n: nat)
    ensures Pow2(m + n) == Pow2(m) * Pow2(n)
  {
    if m > 0 {
      Pow2Sum(m - 1, n);
      assert 2 * (Pow2(m - 1) * Pow2(n)) == (2 * Pow2(m - 1)) * Pow2(n);
    }
  }

  /** Below bit `k` the sum has the bits of `low`, from bit `k` on those of `q`. */
  lemma {:induction false} SumBit(low: nat, q: nat, k: nat, j: nat)
    requires low < Pow2(k)
    ensures Bit(low + Pow2(k) * q, j) <==> if j < k then Bit(low, j) else Bit(q, j - k)
    decreases k
  {
    if k > 0 {
      var p := Pow2(k - 1);
      assert low + Pow2(k) * q == low + 2 * (p * q) by { assert 2 * p * q == 2 * (p * q); }
      assert (low + 2 * (p * q)) / 2 == low / 2 + p * q;
      if j > 0 { SumBit(low / 2, q, k - 1, j - 1); }
    }
  }

  /** `n` as quotient and remainder. */
  lemma Divided(n: nat, d: nat) returns (q: nat, r: nat)
    requires d > 0
    ensures q == n / d && r == n % d && r < d && n == r + d * q
  {
    q, r := n / d, n % d;
  }

  /** A bit of the buffer is that bit of its number. */
  lemma {:induction false} NumberBit(buf: seq<byte>, i: nat)
    ensures Bit(FromLE(buf), i) <==> i < 8 * |buf| && BufferBit(buf, i)
  {
    Pow2Table();
    if buf == [] {
      ZeroBit(i);
    } else {
      SumBit(buf[0], FromLE(buf[1..]), 8, i);
      if i >= 8 {
        NumberBit(buf[1..], i - 8);
        assert (i - 8) / 8 == i / 8 - 1 && (i - 8) % 8 == i % 8;
      } else {
        assert i / 8 == 0 && i % 8 == i;
      }
    }
  }

  /** What the reading loop returns is the field. */
  lemma ReadIsField(buf: seq<byte>, at: nat, width: nat, value: nat)
    requires ReadAs(buf, at, width, value)
    ensures value == FieldAt(buf, at, width)
  {
    hide Bit, FromLE, Pow2;
    var q, r := Divided(FromLE(buf), Pow2(at));
    forall j: nat
      ensures Bit(value, j) == Bit(FieldAt(buf, at, width), j)
    {
      TruncateBit(q, width, j);
      SumBit(r, q, at, j + at);
      NumberBit(buf, j + at);
    }
    BitsDetermine(value, FieldAt(buf, at, width));
  }

  lemma WrittenBit(before: seq<byte>, after: seq<byte>, at: nat, width: nat, value: nat, j: nat)
    requires Written(before, after, at, width, value) && FromLE(before) < Pow2(at)
    ensures Bit(FromLE(after), j) == Bit(FromLE(before) + Pow2(at) * (value % Pow2(width)), j)
  {
    hide Bit, FromLE, Pow2;
    var low, q := FromLE(before), value % Pow2(width);
    NumberBit(after, j);
    NumberBit(before, j);
    SumBit(low, q, at, j);
    if j >= at {
      HighBitsClear(low, at, j);
      TruncateBit(value, width, j - at);
    }
  }

  /** What the writing loop adds to the number, when nothing was there before. */
  lemma WriteAddsField(before: seq<byte>, after: seq<byte>, at: nat, width: nat, value: nat)
    requires Written(before, after, at, width, value) && FromLE(before) < Pow2(at)
    ensures FromLE(after) == FromLE(before) + Pow2(at) * (value % Pow2(width))
  {
    hide Bit, FromLE, Pow2, Written;
    var sum := FromLE(before) + Pow2(at) * (value % Pow2(width));
    forall j: nat
      ensures Bit(FromLE(after), j) == Bit(sum, j)
    {
      WrittenBit(before, after, at, width, value, j);
    }
    BitsDetermine(FromLE(after), sum);
  }

  // ----- fields side by side ---------------------------------------------------------------

  lemma {:induction false} PackFits(fields: seq<Field>)
    ensures Pack(fields) < Pow2(TotalWidth(fields))
  {
    if fields != [] {
      var w, rest := fields[0].width, fields[1..];
      PackFits(rest);
      Pow2Sum(w, TotalWidth(rest));
      ScaledBelow(fields[0].value % Pow2(w), Pow2(w), Pack(rest), Pow2(TotalWidth(rest)));
    }
  }

  lemma ScaledBelow(r: nat, d: nat, q: nat, bound: nat)
    requires r < d && q < bound
    ensures r + d * q < d * bound
  {
    assert d * bound - d * q == d * (bound - q);
    Multiple(d, bound - q);
  }

  lemma {:induction false} PackSnoc(fields: seq<Field>, last: Field)
    ensures TotalWidth(fields + [last]) == TotalWidth(fields) + last.width
    ensures Pack(fields + [last]) == Pack(fields) + Pow2(TotalWidth(fields)) * (last.value % Pow2(last.width))
  {
    var all := fields + [last];
    if fields == [] {
      assert all[1..] == [];
    } else {
      var w, rest := fields[0].width, fields[1..];
      assert all[1..] == rest + [last];
      PackSnoc(rest, last);
      Pow2Sum(w, TotalWidth(rest));
      Distribute(Pow2(w), Pack(rest), Pow2(TotalWidth(rest)), last.value % Pow2(last.width));
    }
  }

  lemma Distribute(a: int, b: int, c: int, d: int)
    ensures a * (b + c * d) == a * b + (a * c) * d
  {
    assert a * (b + c * d) == a * b + a * (c * d);
  }

  lemma QuotientOf(r: nat, d: nat, q: nat)
    requires r < d
    ensures (r + d * q) / d == q && (r + d * q) % d == r
  {
    Remainder(r + d * q, d, q, r);
    var n := r + d * q;
    assert d * (n / d - q) == 0 by { assert d * (n / d - q) == d * (n / d) - d * q; }
    Multiple(d, n / d - q);
  }

  /** Every packed field is found again at the total width of those before it. */
  lemma {:induction false} Unpack(fields: seq<Field>, k: nat)
    requires k < |fields|
    ensures Pack(fields) / Pow2(TotalWidth(fields[..k])) % Pow2(fields[k].width)
         == fields[k].value % Pow2(fields[k].width)
  {
    hide Bit;
    var f, rest := fields[0], fields[1..];
    QuotientOf(f.value % Pow2(f.width), Pow2(f.width), Pack(rest));
    if k == 0 {
      assert fields[..0] == [] && Pack(fields) / 1 == Pack(fields);
    } else {
      Unpack(rest, k - 1);
      var w := TotalWidth(rest[..k - 1]);
      assert fields[..k][1..] == rest[..k - 1];
      Pow2Sum(f.width, w);
      DivideTwice(Pack(fields), Pow2(f.width), Pow2(w));
    }
  }

  lemma DivideTwice(n: nat, a: nat, b: nat)
    requires a > 0 && b > 0
    ensures a * b > 0 && n / (a * b) == n / a / b
  {
    var q, r := Divided(n, a);
    var qq, rr := Divided(q, b);
    Multiple(a, b);
    ScaledBelow(r, a, rr, b);
    Distribute(a, rr, b, qq);
    SameQuotient(n, r + a * rr, a * b, qq);
  }

  lemma SameQuotient(n: nat, r: nat, d: nat, q: nat)
    requires r < d && n == r + d * q
    ensures n / d == q
  {
    QuotientOf(r, d, q);
  }

  /** Padding with zero bytes changes no field. */
  lemma {:induction false} ZeroPadding(buf: seq<byte>, n: nat)
    ensures FromLE(buf + seq(n, _ => 0)) == FromLE(buf)
    decreases |buf|, n
  {
    var zeros: seq<byte> := seq(n, _ => 0);
    if buf != [] {
      assert (buf + zeros)[1..] == buf[1..] + zeros;
      ZeroPadding(buf[1..], n);
    } else if n > 0 {
      assert (buf + zeros)[1..] == buf + seq(n - 1, _ => 0);
      ZeroPadding(buf, n - 1);
    } else {
      assert buf + zeros == buf;
    }
  }
}
