/** Machine integers, bit tests on them, and their fixed-width byte forms. */
module Bytes {

  type byte = b: int | 0 <= b < 0x100
  type u16 = n: int | 0 <= n < 0x1_0000
  type u32 = n: int | 0 <= n < 0x1_0000_0000
  type u64 = n: int | 0 <= n < 0x1_0000_0000_0000_0000
  type i64 = n: int | -0x8000_0000_0000_0000 <= n < 0x8000_0000_0000_0000

  datatype Option<+T> = None | Some(value: T)

  /** 256 to the power `n`: the number of values `n` bytes can hold. */
  function Pow256(n: nat): (p: int)
    ensures p > 0
  {
    if n == 0 then 1 else 256 * Pow256(n - 1)
  }

  lemma PowerTable()
    ensures Pow256(0) == 1 && Pow256(1) == 0x100 && Pow256(2) == 0x1_0000
    ensures Pow256(4) == 0x1_0000_0000 && Pow256(8) == 0x1_0000_0000_0000_0000
  {
    assert Pow256(3) == 0x100_0000;
    assert Pow256(5) == 0x100_0000_0000;
    assert Pow256(6) == 0x1_0000_0000_0000;
    assert Pow256(7) == 0x100_0000_0000_0000;
  }

  /** The low `n` bytes of `v`, least significant first.  A negative `v` gives its two's complement. */
  function LE(v: int, n: nat): (s: seq<byte>)
    ensures |s| == n
    decreases n
  {
    if n == 0 then [] else [v % 256] + LE(v / 256, n - 1)
  }

  /** The unsigned number whose little-endian bytes are `s`. */
  function FromLE(s: seq<byte>): (v: nat)
    ensures v < Pow256(|s|)
  {
    if s == [] then 0 else s[0] + 256 * FromLE(s[1..])
  }

  /** What `LE(v, n)` discards: `v` shifted right by `n` bytes, keeping the sign. */
  ghost function Discarded(v: int, n: nat): int
    decreases n
  {
    if n == 0 then v else Discarded(v / 256, n - 1)
  }

  lemma {:induction false} LESplit(v: int, n: nat)
    ensures v == FromLE(LE(v, n)) + Pow256(n) * Discarded(v, n)
    decreases n
  {
    hide LE, FromLE;
    if n > 0 {
      LESplit(v / 256, n - 1);
      LEStep(v, n);
      Scaled(v, v / 256, FromLE(LE(v / 256, n - 1)), Pow256(n - 1), Discarded(v, n));
    }
  }

  lemma LEStep(v: int, n: nat)
    requires n > 0
    ensures FromLE(LE(v, n)) == v % 256 + 256 * FromLE(LE(v / 256, n - 1))
    ensures Pow256(n) == 256 * Pow256(n - 1) && Discarded(v, n) == Discarded(v / 256, n - 1)
  {
    hide Pow256;
    assert LE(v, n)[1..] == LE(v / 256, n - 1);
    assert Pow256(n) == 256 * Pow256(n - 1) by { PowStep(n); }
  }

  lemma PowStep(n: nat)
    requires n > 0
    ensures Pow256(n) == 256 * Pow256(n - 1)
  {
  }

  lemma Scaled(v: int, q: int, f: int, p: int, d: int)
    requires q == v / 256 && q == f + p * d
    ensures v == v % 256 + 256 * f + 256 * p * d
  {
    assert 256 * (p * d) == 256 * p * d;
  }

  /** An integer that fits comes back from its bytes; a wider one comes back modulo 256^n. */
  lemma {:induction false} LERoundTrip(v: int, n: nat)
    ensures 0 <= v < Pow256(n) ==> FromLE(LE(v, n)) == v
    ensures -Pow256(n) <= v < 0 ==> FromLE(LE(v, n)) == v + Pow256(n)
  {
    LESplit(v, n);
    var f, p, d := FromLE(LE(v, n)), Pow256(n), Discarded(v, n);
    Quotient(v, f, p, d);
  }

  lemma Quotient(v: int, f: int, p: int, d: int)
    requires v == f + p * d && 0 <= f < p
    ensures 0 <= v < p ==> d == 0
    ensures -p <= v < 0 ==> d == -1
  {
    if d >= 1 {
      assert p * d >= p by { assert p * (d - 1) >= 0; }
    } else if d <= -2 {
      assert p * d <= -2 * p by { assert p * (-2 - d) >= 0; }
    }
  }

  /** The other direction: bytes come back from their number. */
  lemma {:induction false} FromLERoundTrip(s: seq<byte>)
    ensures LE(FromLE(s), |s|) == s
  {
    if s != [] {
      hide Pow256;
      FromLERoundTrip(s[1..]);
      assert FromLE(s) / 256 == FromLE(s[1..]) && FromLE(s) % 256 == s[0];
    }
  }

  /** Two's-complement reading of `s`. */
  function FromSignedLE(s: seq<byte>): int {
    if 2 * FromLE(s) < Pow256(|s|) then FromLE(s) else FromLE(s) - Pow256(|s|)
  }

  lemma SignedRoundTrip(v: int, n: nat)
    requires n > 0
    requires -Pow256(n) <= 2 * v < Pow256(n)
    ensures FromSignedLE(LE(v, n)) == v
  {
    LERoundTrip(v, n);
  }

  function Pow2(k: nat): (p: int)
    ensures p > 0
  {
    if k == 0 then 1 else 2 * Pow2(k - 1)
  }

  /** Whether bit `k` of `n` is set: `n & (1 << k) != 0`. */
  predicate Bit(n: nat, k: nat)
    decreases k
  {
    if k == 0 then n % 2 == 1 else Bit(n / 2, k - 1)
  }

  /** `n | (1 << k)`: sets bit `k` and leaves every other bit alone. */
  function SetBit(n: nat, k: nat): (r: nat)
    ensures forall j: nat :: Bit(r, j) <==> j == k || Bit(n, j)
  {
    if Bit(n, k) then n
    else
      AddBit(n, k);
      n + Pow2(k)
  }

  lemma {:induction false} AddBit(n: nat, k: nat)
    requires !Bit(n, k)
    ensures forall j: nat :: Bit(n + Pow2(k), j) <==> j == k || Bit(n, j)
    decreases k
  {
    var m := n + Pow2(k);
    if k == 0 {
      assert m / 2 == n / 2;
    } else {
      assert m / 2 == n / 2 + Pow2(k - 1) && m % 2 == n % 2;
      AddBit(n / 2, k - 1);
    }
    forall j: nat
      ensures Bit(m, j) <==> j == k || Bit(n, j)
    {
      if j > 0 { assert Bit(m, j) == Bit(m / 2, j - 1) && Bit(n, j) == Bit(n / 2, j - 1); }
    }
  }

  /** Numbers with the same bits are the same number. */
  lemma {:induction false} BitsDetermine(m: nat, n: nat)
    requires forall j: nat :: Bit(m, j) == Bit(n, j)
    ensures m == n
    decreases m + n
  {
    assert Bit(m, 0) == Bit(n, 0);
    if m + n > 0 {
      forall j: nat
        ensures Bit(m / 2, j) == Bit(n / 2, j)
      {
        assert Bit(m, j + 1) == Bit(n, j + 1);
      }
      BitsDetermine(m / 2, n / 2);
    }
  }

  /** A number below `2^k` has no bit at or above `k`. */
  lemma {:induction false} HighBitsClear(n: nat, k: nat, j: nat)
    requires n < Pow2(k) && j >= k
    ensures !Bit(n, j)
    decreases j
  {
    if k == 0 { ZeroBit(j); } else { HighBitsClear(n / 2, k - 1, j - 1); }
  }

  /** A number with no bit at or above `k` is below `2^k`. */
  lemma {:induction false} BelowPow2(n: nat, k: nat)
    requires forall j: nat :: j >= k ==> !Bit(n, j)
    ensures n < Pow2(k)
    decreases k
  {
    if k == 0 {
      if n > 0 { var _ := TopBit(n); }
    } else {
      forall j: nat | j >= k - 1
        ensures !Bit(n / 2, j)
      {
        assert !Bit(n, j + 1);
      }
      BelowPow2(n / 2, k - 1);
    }
  }

  lemma {:induction false} ZeroBit(j: nat)
    ensures !Bit(0, j)
  {
    if j > 0 { ZeroBit(j - 1); }
  }

  lemma {:induction false} TopBit(n: nat) returns (j: nat)
    requires n > 0
    ensures Bit(n, j)
  {
    if n % 2 == 1 {
      j := 0;
    } else {
      j := TopBit(n / 2);
      j := j + 1;
    }
  }

  /** Setting a bit below `w` keeps a number below `2^w`. */
  lemma SetBitFits(n: nat, k: nat, w: nat)
    requires n < Pow2(w) && k < w
    ensures SetBit(n, k) < Pow2(w)
  {
    forall j: nat | j >= w
      ensures !Bit(SetBit(n, k), j)
    {
      HighBitsClear(n, w, j);
    }
    BelowPow2(SetBit(n, k), w);
  }

  /** `b | (1 << k)` on a byte. */
  function SetByteBit(b: byte, k: nat): (r: byte)
    requires k < 8
    ensures forall j: nat :: Bit(r, j) <==> j == k || Bit(b, j)
  {
    Pow2Table();
    SetBitFits(b, k, 8);
    SetBit(b, k)
  }

  /** `n << k` moves every bit up by `k`. */
  lemma {:induction false} ShiftBit(n: nat, k: nat, j: nat)
    ensures Bit(n * Pow2(k), j) <==> j >= k && Bit(n, j - k)
    decreases k
  {
    if k > 0 {
      var m := n * Pow2(k - 1);
      assert n * Pow2(k) == 2 * m;
      if j > 0 { ShiftBit(n, k - 1, j - 1); }
    }
  }

  /** Truncating to `w` bits keeps exactly the bits below `w`. */
  lemma {:induction false} TruncateBit(n: nat, w: nat, j: nat)
    ensures Bit(n % Pow2(w), j) <==> j < w && Bit(n, j)
    decreases w
  {
    if w == 0 {
      ZeroBit(j);
    } else {
      TruncateHalf(n, w);
      if j > 0 { TruncateBit(n / 2, w - 1, j - 1); }
    }
  }

  lemma TruncateHalf(n: nat, w: nat)
    requires w > 0
    ensures n % Pow2(w) % 2 == n % 2 && n % Pow2(w) / 2 == n / 2 % Pow2(w - 1)
  {
    var p, m := Pow2(w - 1), n / 2;
    var q, r := m / p, m % p;
    assert n == (2 * p) * q + (2 * r + n % 2) by {
      assert m == p * q + r;
      assert (2 * p) * q == 2 * (p * q);
    }
    Remainder(n, 2 * p, q, 2 * r + n % 2);
  }

  lemma Remainder(n: nat, d: nat, q: nat, r: nat)
    requires n == d * q + r && r < d
    ensures n % d == r
  {
    var k := n / d - q;
    assert d * k == r - n % d by {
      assert d * (n / d - q) == d * (n / d) - d * q;
    }
    Multiple(d, k);
  }

  lemma Multiple(d: int, k: int)
    requires d >= 0
    ensures k >= 1 ==> d * k >= d
    ensures k <= -1 ==> d * k <= -d
  {
    if k >= 1 { assert d * (k - 1) >= 0; }
    if k <= -1 { assert d * (-1 - k) >= 0; }
  }

  lemma Pow2Table()
    ensures Pow2(8) == 0x100 && Pow2(16) == 0x1_0000 && Pow2(32) == 0x1_0000_0000
  {
    assert Pow2(12) == 0x1000;
    assert Pow2(20) == 0x10_0000;
    assert Pow2(24) == 0x100_0000;
    assert Pow2(28) == 0x1000_0000;
  }

  /** `a | b` on the low `n` bits. */
  function Or(a: nat, b: nat, n: nat): (r: nat)
    ensures r < Pow2(n)
    decreases n
  {
    if n == 0 then 0
    else (if a % 2 == 1 || b % 2 == 1 then 1 else 0) + 2 * Or(a / 2, b / 2, n - 1)
  }

  /** `a ^ b` on the low `n` bits. */
  function Xor(a: nat, b: nat, n: nat): (r: nat)
    ensures r < Pow2(n)
    decreases n
  {
    if n == 0 then 0
    else (if a % 2 != b % 2 then 1 else 0) + 2 * Xor(a / 2, b / 2, n - 1)
  }

  /** Or-ing a multiple of `2^k` with a number below `2^k` adds them. */
  lemma {:induction false} OrIsSum(q: nat, low: nat, k: nat, n: nat)
    requires k <= n && low < Pow2(k) && q * Pow2(k) < Pow2(n)
    ensures Or(q * Pow2(k), low, n) == q * Pow2(k) + low
    decreases n
  {
    if k == 0 {
      OrZero(q, n);
    } else {
      var p := Pow2(k - 1);
      assert q * Pow2(k) == 2 * (q * p);
      OrIsSum(q, low / 2, k - 1, n - 1);
    }
  }

  lemma {:induction false} OrZero(a: nat, n: nat)
    requires a < Pow2(n)
    ensures Or(a, 0, n) == a
  {
    if n > 0 { OrZero(a / 2, n - 1); }
  }

  /** Xor-ing twice with the same number undoes itself. */
  lemma {:induction false} XorUndo(a: nat, b: nat, n: nat)
    requires a < Pow2(n)
    ensures Xor(Xor(a, b, n), b, n) == a
  {
    if n > 0 {
      XorUndo(a / 2, b / 2, n - 1);
      assert Xor(a, b, n) / 2 == Xor(a / 2, b / 2, n - 1);
    }
  }

  /** A bit of `a ^ b` is set where exactly one of the operands has it. */
  lemma {:induction false} XorBit(a: nat, b: nat, n: nat, k: nat)
    ensures Bit(Xor(a, b, n), k) <==> k < n && Bit(a, k) != Bit(b, k)
    decreases n
  {
    if n == 0 {
      ZeroBit(k);
    } else {
      var high := Xor(a / 2, b / 2, n - 1);
      assert Xor(a, b, n) / 2 == high;
      if k > 0 { XorBit(a / 2, b / 2, n - 1, k - 1); }
    }
  }

  /** A bit of `a | b` is set where at least one of the operands has it. */
  lemma {:induction false} OrBit(a: nat, b: nat, n: nat, k: nat)
    ensures Bit(Or(a, b, n), k) <==> k < n && (Bit(a, k) || Bit(b, k))
    decreases n
  {
    if n == 0 {
      ZeroBit(k);
    } else {
      var high := Or(a / 2, b / 2, n - 1);
      assert Or(a, b, n) / 2 == high;
      if k > 0 { OrBit(a / 2, b / 2, n - 1, k - 1); }
    }
  }

  /** Byte `k` is the `k`-th digit to the base 256, counted from the low end. */
  lemma {:induction false} LEAt(v: nat, n: nat, k: nat)
    requires k < n
    ensures LE(v, n)[k] == Discarded(v, k) % 256
    decreases n
  {
    if k > 0 { LEAt(v / 256, n - 1, k - 1); }
  }

  /** Taking the first byte off. */
  lemma LEFront(v: nat, n: nat, low: byte, high: nat)
    requires n > 0 && v == low + 0x100 * high
    ensures LE(v, n) == [low] + LE(high, n - 1)
  {
    assert v % 0x100 == low && v / 0x100 == high;
  }

  lemma LEOfNothing()
    ensures LE(0, 0) == []
  {
  }
}
