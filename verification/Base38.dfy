/**
 * The base-38 text of a QR code (section 5.1.3 of the Matter Core Specification;
 * internal/commissioning/payload.go).
 */
module Base38 {
  import opened Bytes

  datatype Error = InvalidCharacter | InvalidLength

  datatype Decoding = Ok(data: seq<byte>) | Err(error: Error)

  /** Position `d` of the character set 0-9, A-Z, '-', '.'. */
  function DigitChar(d: nat): char
    requires d < 38
  {
    if d < 10 then '0' + d as char
    else if d < 36 then 'A' + (d - 10) as char
    else if d == 36 then '-'
    else '.'
  }

  function DigitValue(c: char): (d: Option<nat>)
    ensures d.Some? ==> d.value < 38
  {
    if '0' <= c <= '9' then Some((c - '0') as int)
    else if 'A' <= c <= 'Z' then Some((c - 'A') as int + 10)
    else if c == '-' then Some(36)
    else if c == '.' then Some(37)
    else None
  }

  lemma DigitRoundTrip(d: nat)
    requires d < 38
    ensures DigitValue(DigitChar(d)) == Some(d)
  {
  }

  /** `n` base-38 digits of `v`, least significant first. */
  function Digits(v: nat, n: nat): (s: string)
    ensures |s| == n
    decreases n
  {
    if n == 0 then [] else [DigitChar(v % 38)] + Digits(v / 38, n - 1)
  }

  /** The number a digit string denotes, if all its characters are digits. */
  function Value(s: string): Option<nat> {
    if s == [] then Some(0)
    else
      match (Value(s[1..]), DigitValue(s[0]))
      case (Some(high), Some(d)) => Some(high * 38 + d)
      case _ => None
  }

  function Pow38(n: nat): (p: int)
    ensures p > 0
  {
    if n == 0 then 1 else 38 * Pow38(n - 1)
  }

  lemma {:induction false} ValueDigits(v: nat, n: nat)
    requires v < Pow38(n)
    ensures Value(Digits(v, n)) == Some(v)
    decreases n
  {
    if n > 0 {
      DigitRoundTrip(v % 38);
      ValueDigits(v / 38, n - 1);
      assert Digits(v, n)[1..] == Digits(v / 38, n - 1);
    }
  }

  /** Text length of a chunk of one, two or three bytes. */
  function ChunkDigits(bytes: nat): nat {
    if bytes >= 3 then 5 else if bytes == 2 then 4 else 2
  }

  function Encoded(data: seq<byte>): string {
    if data == [] then []
    else
      var k := if |data| >= 3 then 3 else |data|;
      Digits(FromLE(data[..k]), ChunkDigits(k)) + Encoded(data[k..])
  }

  /** How many of the remaining characters make up the next chunk; 0 when one is left over. */
  function ChunkLength(remaining: nat): (n: nat)
    ensures n <= remaining
  {
    if remaining >= 5 then 5 else if remaining >= 4 then 4 else if remaining >= 2 then 2 else 0
  }

  function ChunkBytes(digits: nat): nat {
    if digits == 5 then 3 else if digits == 4 then 2 else 1
  }

  /** The bytes of all chunks, or the error of the first chunk that has one. */
  function Decoded(s: string): Decoding {
    if s == [] then Ok([])
    else
      var n := ChunkLength(|s|);
      if n == 0 then Err(InvalidLength)
      else
        match Value(s[..n])
        case None => Err(InvalidCharacter)
        case Some(v) => Prepended(LE(v, ChunkBytes(n)), Decoded(s[n..]))
  }

  function Prepended(a: seq<byte>, r: Decoding): Decoding {
    match r
    case Ok(b) => Ok(a + b)
    case Err(_) => r
  }

  lemma ChunkFits(data: seq<byte>)
    requires 1 <= |data| <= 3
    ensures FromLE(data) < Pow38(ChunkDigits(|data|))
    ensures LE(FromLE(data), |data|) == data
  {
    PowerTable();
    assert Pow256(3) == 0x100_0000;
    assert Pow38(2) == 1444 && Pow38(4) == 2085136 && Pow38(5) == 79235168;
    FromLERoundTrip(data);
  }

  lemma {:induction false} EncodedLength(data: seq<byte>)
    ensures |Encoded(data)| == |data| / 3 * 5 + (if |data| % 3 == 0 then 0 else if |data| % 3 == 2 then 4 else 2)
  {
    if |data| >= 3 { EncodedLength(data[3..]); }
  }

  /** Byte strings of every length survive encoding and decoding. */
  lemma {:induction false} DecodeEncode(data: seq<byte>)
    ensures Decoded(Encoded(data)) == Ok(data)
    decreases |data|
  {
    if data != [] {
      hide FromLE, LE, Value, Digits;
      var k := if |data| >= 3 then 3 else |data|;
      var chunk, rest := data[..k], data[k..];
      var text := Digits(FromLE(chunk), ChunkDigits(k));
      var s := Encoded(data);
      assert s == text + Encoded(rest);
      EncodedLength(rest);
      assert ChunkLength(|s|) == |text|;
      assert s[..|text|] == text && s[|text|..] == Encoded(rest);
      ChunkFits(chunk);
      ValueDigits(FromLE(chunk), ChunkDigits(k));
      DecodeEncode(rest);
      assert chunk + rest == data;
    }
  }

  /** Every chunk denotes a number that its bytes can hold. */
  predicate Canonical(s: string) {
    s == [] ||
    var n := ChunkLength(|s|);
    && n > 0
    && Value(s[..n]).Some? && Value(s[..n]).value < Pow256(ChunkBytes(n))
    && Canonical(s[n..])
  }

  lemma CharRoundTrip(c: char)
    ensures DigitValue(c).Some? ==> DigitChar(DigitValue(c).value) == c
  {
  }

  lemma ValueStep(s: string)
    requires s != [] && Value(s).Some?
    ensures Value(s[1..]).Some? && DigitValue(s[0]).Some?
    ensures Value(s).value == Value(s[1..]).value * 38 + DigitValue(s[0]).value
  {
    hide DigitValue;
  }

  lemma {:induction false} DigitsValue(s: string)
    requires Value(s).Some?
    ensures Digits(Value(s).value, |s|) == s && Value(s).value < Pow38(|s|)
  {
    if s != [] {
      hide Value, DigitValue, DigitChar, Digits, Pow38;
      ValueStep(s);
      DigitsValue(s[1..]);
      CharRoundTrip(s[0]);
      DigitsStep(Value(s[1..]).value, DigitValue(s[0]).value, |s|);
      assert s == [s[0]] + s[1..];
    }
  }

  lemma DigitsStep(high: nat, d: nat, n: nat)
    requires n > 0 && d < 38
    ensures Digits(high * 38 + d, n) == [DigitChar(d)] + Digits(high, n - 1)
    ensures high < Pow38(n - 1) ==> high * 38 + d < Pow38(n)
  {
    hide DigitChar;
    assert (high * 38 + d) % 38 == d && (high * 38 + d) / 38 == high;
  }

  /** A chunk is written again as it was read if and only if reading it lost nothing. */
  lemma ChunkAgain(chunk: string, k: nat, v: nat)
    requires Value(chunk) == Some(v) && 1 <= k <= 3 && |chunk| == ChunkDigits(k)
    ensures Digits(FromLE(LE(v, k)), ChunkDigits(k)) == chunk <==> v < Pow256(k)
  {
    hide FromLE, LE, Digits;
    DigitsValue(chunk);
    ChunkFits(LE(v, k));
    if v < Pow256(k) {
      LERoundTrip(v, k);
    } else if Digits(FromLE(LE(v, k)), ChunkDigits(k)) == chunk {
      ValueDigits(FromLE(LE(v, k)), ChunkDigits(k));
    }
  }

  /** A text that decodes is the encoding of what it decodes to if and only if it is canonical. */
  lemma {:induction false} EncodeDecode(s: string)
    requires Decoded(s).Ok?
    ensures Encoded(Decoded(s).data) == s <==> Canonical(s)
    decreases |s|
  {
    if s != [] {
      hide FromLE, LE, Value, Digits, Pow256, Decoded, Encoded, Canonical, ChunkLength;
      FirstChunk(s);
      var n := ChunkLength(|s|);
      var chunk, rest, k := s[..n], s[n..], ChunkBytes(n);
      var v := Value(chunk).value;
      var head, tail := LE(v, k), Decoded(rest).data;
      EncodeDecode(rest);
      ChunkAgain(chunk, k, v);
      EncodedChunk(head, tail);
      assert chunk + rest == s;
      SameParts(Digits(FromLE(head), n), Encoded(tail), chunk, rest);
    }
  }

  /** A text that decodes, taken apart behind its first chunk; only the last chunk may be short. */
  lemma FirstChunk(s: string)
    requires s != [] && Decoded(s).Ok?
    ensures var n := ChunkLength(|s|);
            && (n == 2 || n == 4 || n == 5) && n == ChunkDigits(ChunkBytes(n))
            && Value(s[..n]).Some? && Decoded(s[n..]).Ok?
            && Decoded(s).data == LE(Value(s[..n]).value, ChunkBytes(n)) + Decoded(s[n..]).data
            && (n < 5 ==> Decoded(s[n..]).data == [])
            && (Canonical(s) <==> Value(s[..n]).value < Pow256(ChunkBytes(n)) && Canonical(s[n..]))
  {
    hide Value, LE, Pow256;
    if ChunkLength(|s|) < 5 {
      assert s[ChunkLength(|s|)..] == [];
    }
  }

  lemma EncodedChunk(head: seq<byte>, tail: seq<byte>)
    requires |head| == 3 || (1 <= |head| < 3 && tail == [])
    ensures Encoded(head + tail) == Digits(FromLE(head), ChunkDigits(|head|)) + Encoded(tail)
  {
    hide Digits, FromLE;
    assert (head + tail)[..|head|] == head && (head + tail)[|head|..] == tail;
  }

  lemma SameParts(a: string, x: string, b: string, y: string)
    requires |a| == |b|
    ensures a + x == b + y <==> a == b && x == y
  {
    if a + x == b + y {
      assert (a + x)[..|a|] == a && (b + y)[..|b|] == b;
      assert (a + x)[|a|..] == x && (b + y)[|b|..] == y;
    }
  }

  /** Decoding is not injective: the second of these is not canonical. */
  lemma DecodeNotInjective()
    ensures Decoded("00") == Ok([0]) && Decoded("S6") == Ok([0]) && "00" != "S6" && !Canonical("S6")
  {
    assert Value("0") == Some(0) && Value("6") == Some(6);
    assert "00"[1..] == "0" && "S6"[1..] == "6" && "00"[..2] == "00" && "S6"[..2] == "S6";
    assert Value("00") == Some(0) && Value("S6") == Some(256);
    assert LE(0, 1) == [0] && LE(256, 1) == [0];
  }

  // ----- the loops --------------------------------------------------------------------

  method AppendDigits(result: string, value: nat, n: nat) returns (out: string)
    ensures out == result + Digits(value, n)
  {
    out := result;
    var val := value;
    for j := 0 to n
      invariant out + Digits(val, n - j) == result + Digits(value, n)
    {
      assert Digits(val, n - j) == [DigitChar(val % 38)] + Digits(val / 38, n - j - 1);
      out := out + [DigitChar(val % 38)];
      val := val / 38;
    }
    assert out + [] == out;
  }

  method AppendChunk(result: string, chunk: seq<byte>) returns (out: string)
    requires 1 <= |chunk| <= 3
    ensures out == result + Digits(FromLE(chunk), ChunkDigits(|chunk|))
  {
    hide Digits;
    var val := FromLE(chunk);
    if |chunk| == 3 {
      out := AppendDigits(result, val, 5);
    } else if |chunk| == 2 {
      out := AppendDigits(result, val, 4);
    } else {
      out := AppendDigits(result, val, 2);
    }
  }

  lemma NextChunk(result: string, data: seq<byte>, i: nat, k: nat, chunk: seq<byte>)
    requires i < |data| && k == (if |data| - i >= 3 then 3 else |data| - i) && chunk == data[i..i + k]
    ensures result + Encoded(data[i..]) == result + Digits(FromLE(chunk), ChunkDigits(|chunk|)) + Encoded(data[i + k..])
  {
    hide Digits, FromLE, Encoded, ChunkDigits;
    var all, rest := data[i..], data[i + k..];
    TwoSlices(data, i, i + k);
    assert |rest| > 0 ==> |chunk| == 3;
    ChunkBefore(result, all, chunk, rest);
  }

  lemma ChunkBefore(result: string, all: seq<byte>, chunk: seq<byte>, rest: seq<byte>)
    requires 1 <= |chunk| <= 3 && (rest != [] ==> |chunk| == 3) && all == chunk + rest
    ensures result + Encoded(all) == result + Digits(FromLE(chunk), ChunkDigits(|chunk|)) + Encoded(rest)
  {
    hide Digits, FromLE, Encoded, ChunkDigits;
    EncodedChunk(chunk, rest);
    Regrouped(result, Digits(FromLE(chunk), ChunkDigits(|chunk|)), Encoded(rest));
  }

  lemma TwoSlices(data: seq<byte>, i: nat, j: nat)
    requires i <= j <= |data|
    ensures data[i..j] + data[j..] == data[i..]
  {
  }

  lemma Regrouped(a: string, b: string, c: string)
    ensures a + (b + c) == a + b + c
  {
  }

  method Encode(data: seq<byte>) returns (result: string)
    ensures result == Encoded(data)
  {
    result := [];
    var i := 0;
    hide Digits, FromLE, Encoded, ChunkDigits;
    assert data[0..] == data;
    while i < |data|
      invariant i <= |data|
      invariant result + Encoded(data[i..]) == Encoded(data)
      decreases |data| - i
    {
      var remaining := |data| - i;
      var k := if remaining >= 3 then 3 else remaining;
      var chunk := data[i..i + k];
      NextChunk(result, data, i, k, chunk);
      result := AppendChunk(result, chunk);
      i := i + k;
    }
    NothingLeft(result, data[i..]);
  }

  lemma NothingLeft(result: string, data: seq<byte>)
    requires |data| == 0
    ensures result + Encoded(data) == result
  {
    assert Encoded(data) == [];
  }

  /** The digits of one chunk, from the most significant down. */
  method ReadChunk(s: string) returns (v: Option<nat>)
    ensures v == Value(s)
  {
    var val: nat := 0;
    assert s[|s|..] == [];
    for j := |s| downto 0
      invariant Value(s[j..]) == Some(val)
    {
      assert s[j..][1..] == s[j + 1..] && s[j..][0] == s[j];
      var d := DigitValue(s[j]);
      if d.None? {
        InvalidSuffix(s, j);
        return None;
      }
      val := val * 38 + d.value;
    }
    assert s[0..] == s;
    v := Some(val);
  }

  lemma {:induction false} InvalidSuffix(s: string, j: nat)
    requires j <= |s| && Value(s[j..]).None?
    ensures Value(s).None?
  {
    if j > 0 {
      assert s[j..] == s[1..][j - 1..];
      InvalidSuffix(s[1..], j - 1);
    } else {
      assert s[0..] == s;
    }
  }

  method Decode(s: string) returns (r: Decoding)
    ensures r == Decoded(s)
  {
    hide Value, LE;
    var result := [];
    var i := 0;
    assert s[0..] == s;
    PrependNone(Decoded(s));
    while i < |s|
      invariant i <= |s|
      invariant Decoded(s) == Prepended(result, Decoded(s[i..]))
      decreases |s| - i
    {
      var remaining := |s| - i;
      ghost var rest := s[i..];
      var n := ChunkLength(remaining);
      if n == 0 {
        return Err(InvalidLength);
      }
      assert rest[..n] == s[i..i + n] && rest[n..] == s[i + n..];
      var v := ReadChunk(s[i..i + n]);
      if v.None? {
        return Err(InvalidCharacter);
      }
      PrependTwice(result, LE(v.value, ChunkBytes(n)), Decoded(s[i + n..]));
      result := result + LE(v.value, ChunkBytes(n));
      i := i + n;
    }
    assert result + [] == result;
    r := Ok(result);
  }

  lemma PrependNone(r: Decoding)
    ensures Prepended([], r) == r
  {
    if r.Ok? { assert [] + r.data == r.data; }
  }

  lemma PrependTwice(a: seq<byte>, b: seq<byte>, r: Decoding)
    ensures Prepended(a, Prepended(b, r)) == Prepended(a + b, r)
  {
    if r.Ok? { assert a + (b + r.data) == a + b + r.data; }
  }

  // ----- the characters ----------------------------------------------------------------------------

  const CHARACTERS := "0123456789ABCDEFGHIJKLMNOPQRSTUVWXYZ-."

  lemma DigitCharacters(d: nat)
    requires d < 38
    ensures |CHARACTERS| == 38 && DigitChar(d) == CHARACTERS[d]
  {
    if d < 10 {} else if d < 20 {} else if d < 30 {} else {}
  }

  lemma OtherCharacters(c: char)
    ensures DigitValue(c).None? <==> c !in CHARACTERS
  {
    if DigitValue(c).Some? {
      CharRoundTrip(c);
      DigitCharacters(DigitValue(c).value);
    } else if c in CHARACTERS {
      var d: nat :| d < |CHARACTERS| && CHARACTERS[d] == c;
      DigitCharacters(d);
      DigitRoundTrip(d);
    }
  }

  lemma LowestDigit(v: nat, n: nat, d: nat, high: nat)
    requires n > 0 && d < 38 && v == d + 38 * high
    ensures |CHARACTERS| == 38 && Digits(v, n) == [CHARACTERS[d]] + Digits(high, n - 1)
  {
    hide DigitChar;
    DigitCharacters(d);
    assert v % 38 == d && v / 38 == high;
  }

  lemma NoDigits()
    ensures Digits(0, 0) == [] && Encoded([]) == []
  {
  }

  lemma FewBytes(a: byte, b: byte, c: byte)
    ensures FromLE([a]) == a && FromLE([a, b]) == a + 0x100 * b
    ensures FromLE([a, b, c]) == a + 0x100 * b + 0x1_0000 * c
  {
    assert FromLE([]) == 0;
    hide FromLE;
    ByteBefore(a, []);
    ByteBefore(b, []);
    ByteBefore(c, []);
    ByteBefore(a, [b]);
    ByteBefore(b, [c]);
    ByteBefore(a, [b, c]);
  }

  lemma ByteBefore(a: byte, s: seq<byte>)
    ensures FromLE([a] + s) == a + 0x100 * FromLE(s)
  {
    assert ([a] + s)[1..] == s;
  }

  /** Three bytes are five characters, the least significant first. */
  lemma ThreeByteText(a: byte, b: byte, c: byte, rest: seq<byte>, d0: nat, d1: nat, d2: nat, d3: nat, d4: nat)
    requires d0 < 38 && d1 < 38 && d2 < 38 && d3 < 38 && d4 < 38
    requires a + 0x100 * b + 0x1_0000 * c == d0 + 38 * (d1 + 38 * (d2 + 38 * (d3 + 38 * d4)))
    ensures |CHARACTERS| == 38
    ensures Encoded([a, b, c] + rest)
         == [CHARACTERS[d0], CHARACTERS[d1], CHARACTERS[d2], CHARACTERS[d3], CHARACTERS[d4]] + Encoded(rest)
  {
    hide Digits, FromLE, Encoded, CHARACTERS;
    FewBytes(a, b, c);
    EncodedChunk([a, b, c], rest);
    LowestDigit(d0 + 38 * (d1 + 38 * (d2 + 38 * (d3 + 38 * d4))), 5, d0, d1 + 38 * (d2 + 38 * (d3 + 38 * d4)));
    LowestDigit(d1 + 38 * (d2 + 38 * (d3 + 38 * d4)), 4, d1, d2 + 38 * (d3 + 38 * d4));
    LowestDigit(d2 + 38 * (d3 + 38 * d4), 3, d2, d3 + 38 * d4);
    LowestDigit(d3 + 38 * d4, 2, d3, d4);
    LowestDigit(d4, 1, d4, 0);
    NoDigits();
  }

  /** Two bytes at the end are four characters. */
  lemma TwoByteText(a: byte, b: byte, d0: nat, d1: nat, d2: nat, d3: nat)
    requires d0 < 38 && d1 < 38 && d2 < 38 && d3 < 38
    requires a + 0x100 * b == d0 + 38 * (d1 + 38 * (d2 + 38 * d3))
    ensures |CHARACTERS| == 38
    ensures Encoded([a, b]) == [CHARACTERS[d0], CHARACTERS[d1], CHARACTERS[d2], CHARACTERS[d3]]
  {
    hide Digits, FromLE, Encoded, CHARACTERS;
    FewBytes(a, b, 0);
    EncodedChunk([a, b], []);
    assert [a, b] + [] == [a, b];
    LowestDigit(d0 + 38 * (d1 + 38 * (d2 + 38 * d3)), 4, d0, d1 + 38 * (d2 + 38 * d3));
    LowestDigit(d1 + 38 * (d2 + 38 * d3), 3, d1, d2 + 38 * d3);
    LowestDigit(d2 + 38 * d3, 2, d2, d3);
    LowestDigit(d3, 1, d3, 0);
    NoDigits();
  }

  /** One byte at the end is two. */
  lemma OneByteText(a: byte)
    ensures |CHARACTERS| == 38
    ensures Encoded([a]) == [CHARACTERS[a % 38], CHARACTERS[a / 38]]
  {
    hide Digits, FromLE, Encoded, CHARACTERS;
    FewBytes(a, 0, 0);
    EncodedChunk([a], []);
    assert [a] + [] == [a];
    LowestDigit(a, 2, a % 38, a / 38);
    LowestDigit(a / 38, 1, a / 38, 0);
    NoDigits();
  }
}
