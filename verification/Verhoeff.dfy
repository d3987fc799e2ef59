/**
 * The check digit of a manual pairing code (section 5.1.4 of the Matter Core Specification;
 * internal/commissioning/payload.go).
 */
module Verhoeff {
  import opened Decimal

  type digit = d: nat | d < 10

  const D: seq<seq<digit>> :=
    [ [0, 1, 2, 3, 4, 5, 6, 7, 8, 9],
      [1, 2, 3, 4, 0, 6, 7, 8, 9, 5],
      [2, 3, 4, 0, 1, 7, 8, 9, 5, 6],
      [3, 4, 0, 1, 2, 8, 9, 5, 6, 7],
      [4, 0, 1, 2, 3, 9, 5, 6, 7, 8],
      [5, 9, 8, 7, 6, 0, 4, 3, 2, 1],
      [6, 5, 9, 8, 7, 1, 0, 4, 3, 2],
      [7, 6, 5, 9, 8, 2, 1, 0, 4, 3],
      [8, 7, 6, 5, 9, 3, 2, 1, 0, 4],
      [9, 8, 7, 6, 5, 4, 3, 2, 1, 0] ]

  const INVERSE: seq<digit> := [0, 4, 3, 2, 1, 5, 6, 7, 8, 9]

  const P: seq<seq<digit>> :=
    [ [0, 1, 2, 3, 4, 5, 6, 7, 8, 9],
      [1, 5, 7, 6, 2, 8, 3, 0, 9, 4],
      [5, 8, 0, 3, 7, 9, 6, 1, 4, 2],
      [8, 9, 1, 6, 0, 4, 3, 5, 2, 7],
      [9, 4, 5, 3, 1, 2, 6, 8, 7, 0],
      [4, 2, 8, 6, 5, 7, 3, 9, 0, 1],
      [2, 7, 9, 3, 8, 0, 6, 4, 1, 5],
      [7, 0, 4, 6, 9, 1, 3, 2, 5, 8] ]

  // ----- the tables: a group and the powers of a permutation -----------------------------

  function Wrap5(n: int): (r: digit)
    requires -5 <= n < 10
    ensures r < 5
  {
    if n < 0 then n + 5 else if n < 5 then n else n - 5
  }

  /** The dihedral group of the pentagon: 0-4 are the rotations, 5-9 the reflections. */
  function Times(x: digit, y: digit): digit {
    if x < 5 then
      if y < 5 then Wrap5(x + y) else 5 + Wrap5(x + y - 5)
    else
      if y < 5 then 5 + Wrap5(x - 5 - y) else Wrap5(x - y)
  }

  function Inv(x: digit): digit {
    if 0 < x < 5 then 5 - x else x
  }

  /** The permutation each further position applies once more. */
  function Sigma(d: digit): digit {
    if d == 0 then 1 else if d == 1 then 5 else if d == 2 then 7 else if d == 3 then 6 else if d == 4 then 2
    else if d == 5 then 8 else if d == 6 then 3 else if d == 7 then 0 else if d == 8 then 9 else 4
  }

  function Permuted(i: nat, d: digit): digit {
    if i == 0 then d else Sigma(Permuted(i - 1, d))
  }

  lemma TableD(x: digit, y: digit)
    ensures |D| == 10 && |D[x]| == 10 && D[x][y] == Times(x, y)
  {
    if x == 0 {} else if x == 1 {} else if x == 2 {} else if x == 3 {} else if x == 4 {}
    else if x == 5 {} else if x == 6 {} else if x == 7 {} else if x == 8 {} else {}
  }

  lemma TableInverse(x: digit)
    ensures |INVERSE| == 10 && INVERSE[x] == Inv(x)
  {
  }

  lemma FirstRow(d: digit)
    ensures |P| == 8 && |P[0]| == 10 && P[0][d] == d
  {
  }

  lemma NextRow(i: nat, d: digit)
    requires i < 7
    ensures |P| == 8 && |P[i]| == 10 && |P[i + 1]| == 10 && P[i + 1][d] == Sigma(P[i][d])
  {
    if i == 0 {} else if i == 1 {} else if i == 2 {} else if i == 3 {} else if i == 4 {} else if i == 5 {} else {}
  }

  /** The eighth power of the permutation is the identity again. */
  lemma LastRow(d: digit)
    ensures |P| == 8 && |P[7]| == 10 && P[0][d] == Sigma(P[7][d])
  {
  }

  /** Row `i % 8` of the permutation table is the `i`-th power of its row 1. */
  lemma {:induction false} TableP(i: nat, d: digit)
    ensures |P| == 8 && |P[i % 8]| == 10 && P[i % 8][d] == Permuted(i, d)
  {
    hide Sigma;
    FirstRow(d);
    if i > 0 {
      TableP(i - 1, d);
      if i % 8 == 0 {
        assert (i - 1) % 8 == 7;
        LastRow(d);
      } else {
        assert (i - 1) % 8 + 1 == i % 8;
        NextRow((i - 1) % 8, d);
      }
    }
  }

  lemma Unit(x: digit)
    ensures Times(x, 0) == x && Times(0, x) == x
  {
  }

  lemma AssociativeFromRotation(x: digit, y: digit, z: digit)
    requires x < 5
    ensures Times(Times(x, y), z) == Times(x, Times(y, z))
  {
  }

  lemma AssociativeFromReflection(x: digit, y: digit, z: digit)
    requires x >= 5
    ensures Times(Times(x, y), z) == Times(x, Times(y, z))
  {
  }

  lemma Associative(x: digit, y: digit, z: digit)
    ensures Times(Times(x, y), z) == Times(x, Times(y, z))
  {
    hide Times;
    if x < 5 {
      AssociativeFromRotation(x, y, z);
    } else {
      AssociativeFromReflection(x, y, z);
    }
  }

  lemma Cancel(x: digit, y: digit, z: digit)
    requires y != z
    ensures Times(x, y) != Times(x, z) && Times(y, x) != Times(z, x)
  {
  }

  lemma {:induction false} PermutedInjective(i: nat, x: digit, y: digit)
    requires x != y
    ensures Permuted(i, x) != Permuted(i, y)
  {
    if i > 0 { PermutedInjective(i - 1, x, y); }
  }

  /** Why swaps are caught: swapping the factors of `x * Sigma(y)` changes the product. */
  lemma Antisymmetric(x: digit, y: digit)
    requires x != y
    ensures Times(x, Sigma(y)) != Times(y, Sigma(x))
  {
  }

  // ----- the checksum of a digit string -----------------------------------------------------

  /** The product of the permuted digits from the last to the first, the last at position `i`. */
  function Checksum(s: string, i: nat): digit
    requires AllDigits(s)
  {
    if s == [] then 0
    else Times(Permuted(i, DigitValue(s[|s| - 1])), Checksum(s[..|s| - 1], i + 1))
  }

  predicate Valid(s: string)
    requires AllDigits(s)
  {
    Checksum(s, 0) == 0
  }

  function CheckDigit(s: string): digit
    requires AllDigits(s)
  {
    Inv(Checksum(s, 1))
  }

  lemma {:induction false} ChecksumConcat(a: string, b: string, i: nat)
    requires AllDigits(a) && AllDigits(b)
    ensures Checksum(a + b, i) == Times(Checksum(b, i), Checksum(a, i + |b|))
    decreases |b|
  {
    hide Times, Permuted, IsDigit;
    if b == [] {
      assert a + b == a;
      Unit(Checksum(a, i));
    } else {
      var init := b[..|b| - 1];
      assert (a + b)[..|a + b| - 1] == a + init;
      ChecksumConcat(a, init, i + 1);
      Associative(Permuted(i, DigitValue(b[|b| - 1])), Checksum(init, i + 1), Checksum(a, i + |b|));
    }
  }

  lemma EmptyChecksum(i: nat)
    ensures Checksum([], i) == 0
  {
  }

  lemma ChecksumOne(c: char, i: nat)
    requires IsDigit(c)
    ensures Checksum([c], i) == Permuted(i, DigitValue(c))
  {
    assert Checksum([c][..0], i + 1) == 0;
  }

  /** The generated digit is the one and only digit that completes the string. */
  lemma CheckDigitCompletes(s: string, d: digit)
    requires AllDigits(s)
    ensures Valid(s + [DigitChar(d)]) <==> d == CheckDigit(s)
  {
    var t := s + [DigitChar(d)];
    assert t[..|t| - 1] == s;
    assert Checksum(t, 0) == Times(d, Checksum(s, 1));
  }

  lemma AroundDigits(pre: string, mid: string, post: string)
    requires AllDigits(pre) && AllDigits(mid) && AllDigits(post)
    ensures Checksum(pre + mid + post, 0)
         == Times(Checksum(post, 0), Times(Checksum(mid, |post|), Checksum(pre, |mid| + |post|)))
  {
    hide Times, Permuted, IsDigit;
    ChecksumConcat(pre + mid, post, 0);
    ChecksumConcat(pre, mid, |post|);
  }

  /** Strings that differ only in a middle part differ in their checksum as soon as the middle parts do. */
  lemma MiddleMatters(pre: string, x: string, y: string, post: string)
    requires AllDigits(pre) && AllDigits(x) && AllDigits(y) && AllDigits(post) && |x| == |y|
    requires Checksum(x, |post|) != Checksum(y, |post|)
    ensures Checksum(pre + x + post, 0) != Checksum(pre + y + post, 0)
  {
    hide Times, Checksum, IsDigit;
    AroundDigits(pre, x, post);
    AroundDigits(pre, y, post);
    var after := Checksum(pre, |x| + |post|);
    Cancel(after, Checksum(x, |post|), Checksum(y, |post|));
    Cancel(Checksum(post, 0), Times(Checksum(x, |post|), after), Times(Checksum(y, |post|), after));
  }

  /** No single wrong digit goes unnoticed, in a string of any length. */
  lemma OneDigitChanged(pre: string, a: char, b: char, post: string)
    requires AllDigits(pre) && AllDigits(post) && IsDigit(a) && IsDigit(b) && a != b
    requires Valid(pre + [a] + post)
    ensures !Valid(pre + [b] + post)
  {
    ChecksumOne(a, |post|);
    ChecksumOne(b, |post|);
    PermutedInjective(|post|, DigitValue(a), DigitValue(b));
    MiddleMatters(pre, [a], [b], post);
  }

  lemma ChecksumTwo(a: char, b: char, i: nat)
    requires IsDigit(a) && IsDigit(b)
    ensures Checksum([a, b], i) == Times(Permuted(i, DigitValue(b)), Sigma(Permuted(i, DigitValue(a))))
  {
    ChecksumConcat([a], [b], i);
    ChecksumOne(a, i + 1);
    ChecksumOne(b, i);
    assert [a] + [b] == [a, b];
  }

  /** No swap of two different neighbours goes unnoticed. */
  lemma NeighboursSwapped(pre: string, a: char, b: char, post: string)
    requires AllDigits(pre) && AllDigits(post) && IsDigit(a) && IsDigit(b) && a != b
    requires Valid(pre + [a, b] + post)
    ensures !Valid(pre + [b, a] + post)
  {
    var i := |post|;
    var x, y := Permuted(i, DigitValue(a)), Permuted(i, DigitValue(b));
    PermutedInjective(i, DigitValue(a), DigitValue(b));
    ChecksumTwo(a, b, i);
    ChecksumTwo(b, a, i);
    Antisymmetric(x, y);
    MiddleMatters(pre, [a, b], [b, a], post);
  }

  // ----- the loops ----------------------------------------------------------------------------

  function Reversed(s: string): (r: string)
    ensures |r| == |s|
  {
    if s == [] then [] else [s[|s| - 1]] + Reversed(s[..|s| - 1])
  }

  lemma {:induction false} ReversedAt(s: string, k: nat)
    requires k < |s|
    ensures Reversed(s)[k] == s[|s| - 1 - k]
  {
    if k > 0 { ReversedAt(s[..|s| - 1], k - 1); }
  }

  method ReverseString(s: string) returns (r: string)
    ensures r == Reversed(s)
  {
    var n := |s|;
    var runes := new char[n](i requires 0 <= i < n => s[i]);
    var i, j := 0, n - 1;
    while i < j
      invariant 0 <= i <= n && i + j == n - 1 && i <= j + 1
      invariant forall k :: 0 <= k < i || j < k < n ==> runes[k] == s[n - 1 - k]
      invariant forall k :: i <= k <= j ==> runes[k] == s[k]
    {
      runes[i], runes[j] := runes[j], runes[i];
      i, j := i + 1, j - 1;
    }
    r := runes[..];
    forall k | 0 <= k < n
      ensures r[k] == Reversed(s)[k]
    {
      ReversedAt(s, k);
    }
  }

  /** The table look-ups of one round. */
  function Round(c: digit, position: nat, d: digit): (next: digit)
    ensures next == Times(c, Permuted(position, d))
  {
    TableP(position, d);
    TableD(c, P[position % 8][d]);
    D[c][P[position % 8][d]]
  }

  /** One round of the fold: the accumulator takes over the last of the digits that are left. */
  lemma FoldStep(s: string, i: nat, start: nat, c: digit)
    requires AllDigits(s) && i < |s|
    ensures IsDigit(Reversed(s)[i])
    ensures Times(c, Checksum(s[..|s| - i], start + i))
         == Times(Round(c, start + i, DigitValue(Reversed(s)[i])), Checksum(s[..|s| - i - 1], start + i + 1))
  {
    hide Times, Permuted, Round, Reversed;
    ReversedAt(s, i);
    var rest := s[..|s| - i];
    var d := DigitValue(rest[|rest| - 1]);
    assert rest[..|rest| - 1] == s[..|s| - i - 1];
    Associative(c, Permuted(start + i, d), Checksum(rest[..|rest| - 1], start + i + 1));
  }

  /** The folding loop of both operations; `start` is the position given to the last digit. */
  method Fold(s: string, start: nat) returns (c: digit)
    requires AllDigits(s)
    ensures c == Checksum(s, start)
  {
    hide *;
    var digits := ReverseString(s);
    c := 0;
    assert s[..|s|] == s;
    Unit(Checksum(s, start));
    for i := 0 to |digits|
      invariant AllDigits(s[..|s| - i])
      invariant Times(c, Checksum(s[..|s| - i], start + i)) == Checksum(s, start)
    {
      FoldStep(s, i, start, c);
      SomeDigits(s, |s| - i - 1);
      c := Round(c, start + i, DigitValue(digits[i]));
    }
    EmptyChecksum(start + |s|);
    Unit(c);
  }

  lemma SomeDigits(s: string, n: nat)
    requires AllDigits(s) && n <= |s|
    ensures AllDigits(s[..n])
  {
  }

  method Generate(s: string) returns (check: digit)
    requires AllDigits(s)
    ensures check == CheckDigit(s)
  {
    var c := Fold(s, 1);
    TableInverse(c);
    check := INVERSE[c];
  }

  method Validate(s: string) returns (ok: bool)
    requires AllDigits(s)
    ensures ok == Valid(s)
  {
    var c := Fold(s, 0);
    ok := c == 0;
  }

  // ----- known check digits ---------------------------------------------------------------------

  /** One more digit, looked up in row `i % 8`, `p` being what the row holds for it. */
  lemma OneMore(s: string, c: char, i: nat, p: digit, before: digit, t: string)
    requires AllDigits(s) && IsDigit(c) && t == s + [c] && Checksum(s, i + 1) == before
    requires |P| == 8 && |P[i % 8]| == 10 && P[i % 8][DigitValue(c)] == p
    ensures AllDigits(t) && Checksum(t, i) == Times(p, before)
  {
    TableP(i, DigitValue(c));
    hide Times, Permuted;
    assert t[..|t| - 1] == s;
  }

  lemma NothingYet(i: nat)
    ensures AllDigits("") && Checksum("", i) == 0
  {
  }

  lemma Sum23()
    ensures AllDigits("23") && Checksum("23", 2) == 4
  {
    hide Checksum, AllDigits;
    NothingYet(4);
    OneMore("", '2', 3, 1, 0, "2");
    OneMore("2", '3', 2, 3, 1, "23");
  }

  lemma Sum236()
    ensures AllDigits("236") && Checksum("236", 1) == 2
  {
    Sum23();
    hide Checksum, AllDigits;
    OneMore("23", '6', 1, 3, 4, "236");
  }

  lemma Sum12345Part1()
    ensures AllDigits("123") && Checksum("123", 3) == 3
  {
    hide Checksum, AllDigits;
    NothingYet(6);
    OneMore("", '1', 5, 2, 0, "1");
    OneMore("1", '2', 4, 5, 2, "12");
    OneMore("12", '3', 3, 6, 8, "123");
  }

  lemma Sum12345Part2()
    ensures AllDigits("12345") && Checksum("12345", 1) == 4
  {
    Sum12345Part1();
    hide Checksum, AllDigits;
    OneMore("123", '4', 2, 7, 3, "1234");
    OneMore("1234", '5', 1, 8, 9, "12345");
  }

  lemma SumManualPart1()
    ensures AllDigits("349") && Checksum("349", 8) == 9
  {
    hide Checksum, AllDigits;
    NothingYet(11);
    OneMore("", '3', 10, 3, 0, "3");
    OneMore("3", '4', 9, 2, 3, "34");
    OneMore("34", '9', 8, 9, 0, "349");
  }

  lemma SumManualPart2()
    ensures AllDigits("349701") && Checksum("349701", 5) == 5
  {
    SumManualPart1();
    hide Checksum, AllDigits;
    OneMore("349", '7', 7, 2, 9, "3497");
    OneMore("3497", '0', 6, 2, 6, "34970");
    OneMore("34970", '1', 5, 2, 8, "349701");
  }

  lemma SumManualPart3()
    ensures AllDigits("349701123") && Checksum("349701123", 2) == 8
  {
    SumManualPart2();
    hide Checksum, AllDigits;
    OneMore("349701", '1', 4, 4, 5, "3497011");
    OneMore("3497011", '2', 3, 1, 9, "34970112");
    OneMore("34970112", '3', 2, 3, 5, "349701123");
  }

  lemma SumManualPart4()
    ensures AllDigits("3497011233") && Checksum("3497011233", 1) == 3
  {
    SumManualPart3();
    hide Checksum, AllDigits;
    OneMore("349701123", '3', 1, 6, 8, "3497011233");
  }

  /** The check digits of three strings; the last is the body of a manual pairing code. */
  lemma KnownCheckDigits()
    ensures CheckDigit("236") == 3 && CheckDigit("12345") == 1
    ensures AllDigits("3497011233") && CheckDigit("3497011233") == 2
  {
    Sum236();
    Sum12345Part2();
    SumManualPart4();
    hide Checksum, AllDigits;
  }
}
