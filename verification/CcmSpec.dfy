/**
 * AES-CCM with a 16-byte tag and a 13-byte nonce (RFC 3610), over an arbitrary block function: what is
 * authenticated, what masks it, and why no two inputs are authenticated as the same blocks.
 */
module CcmSpec {
  import opened Bytes

  const TAG_SIZE: nat := 16
  const NONCE_SIZE: nat := 13
  const MAX_LENGTH: nat := 65535

  type Block = s: seq<byte> | |s| == 16 witness seq(16, _ => 0)
  type Nonce = s: seq<byte> | |s| == 13 witness seq(13, _ => 0)

  /** A block cipher under some key. */
  type BlockFunction = Block -> Block

  function XorByte(a: byte, b: byte): byte {
    assert Pow2(8) == 256;
    Xor(a, b, 8)
  }

  /** It is the exclusive or of the two bytes, bit by bit. */
  lemma XorByteBits(a: byte, b: byte, k: nat)
    ensures Bit(XorByte(a, b), k) <==> k < 8 && Bit(a, k) != Bit(b, k)
  {
    hide Xor, Bit;
    XorBit(a, b, 8, k);
  }

  lemma XorByteUndo(a: byte, b: byte)
    ensures XorByte(XorByte(a, b), b) == a
  {
    assert Pow2(8) == 256;
    XorUndo(a, b, 8);
  }

  lemma XorByteZero(b: byte)
    ensures XorByte(0, b) == b
  {
    hide Xor;
    assert Pow2(8) == 256;
    XorZero(b, 8);
  }

  lemma {:induction false} XorZero(b: nat, n: nat)
    requires b < Pow2(n)
    ensures Xor(0, b, n) == b
  {
    if n > 0 { XorZero(b / 2, n - 1); }
  }

  function XorSeq(a: seq<byte>, b: seq<byte>): (s: seq<byte>)
    requires |a| <= |b|
    ensures |s| == |a|
  {
    seq(|a|, i requires 0 <= i < |a| => XorByte(a[i], b[i]))
  }

  lemma XorSeqUndo(a: seq<byte>, b: seq<byte>)
    requires |a| <= |b|
    ensures XorSeq(XorSeq(a, b), b) == a
  {
    forall i | 0 <= i < |a|
      ensures XorSeq(XorSeq(a, b), b)[i] == a[i]
    {
      XorByteUndo(a[i], b[i]);
    }
  }

  function Zeros(n: nat): (s: seq<byte>)
    ensures |s| == n
  {
    seq(n, _ => 0)
  }

  /** The low `n` bytes of `v`, most significant first. */
  function BE(v: nat, n: nat): (s: seq<byte>)
    ensures |s| == n
    decreases n
  {
    if n == 0 then [] else BE(v / 256, n - 1) + [v % 256]
  }

  lemma {:induction false} BEInjective(u: nat, v: nat, n: nat)
    requires u < Pow256(n) && v < Pow256(n)
    requires BE(u, n) == BE(v, n)
    ensures u == v
    decreases n
  {
    if n > 0 {
      assert BE(u, n)[n - 1] == u % 256 && BE(v, n)[n - 1] == v % 256;
      assert BE(u, n)[..n - 1] == BE(u / 256, n - 1) && BE(v, n)[..n - 1] == BE(v / 256, n - 1);
      BEInjective(u / 256, v / 256, n - 1);
    }
  }

  /** Big-endian is little-endian the other way round. */
  lemma {:induction false} BEReversed(v: nat, n: nat, k: nat)
    requires k < n
    ensures BE(v, n)[k] == LE(v, n)[n - 1 - k]
    decreases n
  {
    if k < n - 1 { BEReversed(v / 256, n - 1, k); }
  }

  // ----- the authenticated blocks -----------------------------------------------------

  /** The zeros that fill up the last block of `s`. */
  function Fill(s: seq<byte>): seq<byte> {
    Zeros((16 - |s| % 16) % 16)
  }

  /** Zero-padded to a whole number of blocks. */
  function Padded(s: seq<byte>): (p: seq<byte>)
    ensures |p| % 16 == 0 && |s| <= |p|
  {
    s + Fill(s)
  }

  function Flags(adata: bool): byte {
    if adata then 0x79 else 0x39
  }

  /** B_0. */
  function FirstBlock(nonce: Nonce, adata: bool, length: nat): Block {
    [Flags(adata)] + nonce + BE(length, 2)
  }

  function LengthPrefix(n: nat): seq<byte> {
    if n < 0xFF00 then BE(n, 2) else [0xFF, 0xFE] + BE(n, 4)
  }

  function AadBlocks(aad: seq<byte>): (s: seq<byte>)
    ensures |s| % 16 == 0
  {
    if aad == [] then [] else Padded(LengthPrefix(|aad|) + aad)
  }

  /** Everything fed to the CBC-MAC. */
  function MacInput(nonce: Nonce, aad: seq<byte>, plain: seq<byte>): (s: seq<byte>)
    ensures |s| % 16 == 0 && |s| >= 16
  {
    WholeBlocks(AadBlocks(aad), Padded(plain));
    FirstBlock(nonce, aad != [], |plain|) + (AadBlocks(aad) + Padded(plain))
  }

  lemma WholeBlocks(a: seq<byte>, b: seq<byte>)
    requires |a| % 16 == 0 && |b| % 16 == 0
    ensures |a + b| % 16 == 0 && (16 + |a + b|) % 16 == 0
  {
  }

  /** CBC-MAC from the state `x` over whole blocks. */
  function Chain(e: BlockFunction, x: Block, data: seq<byte>): Block
    decreases |data|
  {
    if |data| < 16 then x else Chain(e, e(XorSeq(x, data[..16])), data[16..])
  }

  function Mac(e: BlockFunction, nonce: Nonce, aad: seq<byte>, plain: seq<byte>): Block {
    Chain(e, Zeros(16), MacInput(nonce, aad, plain))
  }

  lemma {:induction false} ChainConcat(e: BlockFunction, x: Block, a: seq<byte>, b: seq<byte>)
    requires |a| % 16 == 0
    ensures Chain(e, x, a + b) == Chain(e, Chain(e, x, a), b)
    decreases |a|
  {
    if |a| < 16 {
      assert a + b == b;
    } else {
      assert (a + b)[..16] == a[..16] && (a + b)[16..] == a[16..] + b;
      ChainConcat(e, e(XorSeq(x, a[..16])), a[16..], b);
    }
  }

  /** Starting from the encrypted first block is the same as starting from zero. */
  lemma MacFromFirstBlock(e: BlockFunction, nonce: Nonce, aad: seq<byte>, plain: seq<byte>)
    ensures Mac(e, nonce, aad, plain)
         == Chain(e, Chain(e, e(FirstBlock(nonce, aad != [], |plain|)), AadBlocks(aad)), Padded(plain))
  {
    var b0: seq<byte> := FirstBlock(nonce, aad != [], |plain|);
    var more := AadBlocks(aad) + Padded(plain);
    assert (b0 + more)[..16] == b0 && (b0 + more)[16..] == more;
    forall i | 0 <= i < 16
      ensures XorSeq(Zeros(16), b0)[i] == b0[i]
    {
      XorByteZero(b0[i]);
    }
    assert XorSeq(Zeros(16), b0) == b0;
    ChainConcat(e, e(b0), AadBlocks(aad), Padded(plain));
  }

  // ----- the key stream ---------------------------------------------------------------

  /** A_i. */
  function CounterBlock(nonce: Nonce, i: nat): Block {
    [0x01] + nonce + BE(i, 2)
  }

  /** Byte `j` of the key stream for the message. */
  function StreamByte(e: BlockFunction, nonce: Nonce, j: nat): byte {
    e(CounterBlock(nonce, 1 + j / 16))[j % 16]
  }

  function Crypt(e: BlockFunction, nonce: Nonce, s: seq<byte>): (r: seq<byte>)
    ensures |r| == |s|
  {
    seq(|s|, j requires 0 <= j < |s| => XorByte(s[j], StreamByte(e, nonce, j)))
  }

  function MaskTag(e: BlockFunction, nonce: Nonce, tag: Block): Block {
    XorSeq(tag, e(CounterBlock(nonce, 0)))
  }

  lemma CryptUndo(e: BlockFunction, nonce: Nonce, s: seq<byte>)
    ensures Crypt(e, nonce, Crypt(e, nonce, s)) == s
  {
    forall j | 0 <= j < |s|
      ensures Crypt(e, nonce, Crypt(e, nonce, s))[j] == s[j]
    {
      XorByteUndo(s[j], StreamByte(e, nonce, j));
    }
  }

  // ----- encryption and decryption ----------------------------------------------------

  datatype CcmError = BadKey | BadNonce | TooLong | TooShort | AuthenticationFailed

  datatype Result = Ok(bytes: seq<byte>) | Err(error: CcmError)

  /** Ciphertext and masked tag. */
  function Sealed(e: BlockFunction, nonce: Nonce, plain: seq<byte>, aad: seq<byte>): seq<byte> {
    Crypt(e, nonce, plain) + MaskTag(e, nonce, Mac(e, nonce, aad, plain))
  }

  function Encrypt(aes: seq<byte> -> BlockFunction, key: seq<byte>, nonce: seq<byte>, plain: seq<byte>,
                   aad: seq<byte>): Result {
    if |key| != 16 then Err(BadKey)
    else if |nonce| != NONCE_SIZE then Err(BadNonce)
    else if |plain| > MAX_LENGTH then Err(TooLong)
    else Ok(Sealed(aes(key), nonce, plain, aad))
  }

  function Decrypt(aes: seq<byte> -> BlockFunction, key: seq<byte>, nonce: seq<byte>, sealed: seq<byte>,
                   aad: seq<byte>): Result {
    if |key| != 16 then Err(BadKey)
    else if |nonce| != NONCE_SIZE then Err(BadNonce)
    else if |sealed| < TAG_SIZE then Err(TooShort)
    else
      var n := |sealed| - TAG_SIZE;
      var plain := Crypt(aes(key), nonce, sealed[..n]);
      var tag := MaskTag(aes(key), nonce, sealed[n..]);
      if tag == Mac(aes(key), nonce, aad, plain) then Ok(plain) else Err(AuthenticationFailed)
  }

  /** Decryption succeeds with `plain` exactly when the input is what sealing `plain` produces. */
  lemma DecryptIffSealed(aes: seq<byte> -> BlockFunction, key: seq<byte>, nonce: seq<byte>,
                         plain: seq<byte>, aad: seq<byte>, sealed: seq<byte>)
    requires |key| == 16 && |nonce| == NONCE_SIZE
    ensures Decrypt(aes, key, nonce, sealed, aad) == Ok(plain) <==> sealed == Sealed(aes(key), nonce, plain, aad)
  {
    hide Mac;
    var e := aes(key);
    var mac := Mac(e, nonce, aad, plain);
    CryptUndo(e, nonce, plain);
    XorSeqUndo(mac, e(CounterBlock(nonce, 0)));
    if |sealed| >= TAG_SIZE {
      var n := |sealed| - TAG_SIZE;
      CryptUndo(e, nonce, sealed[..n]);
      XorSeqUndo(sealed[n..], e(CounterBlock(nonce, 0)));
      assert sealed == sealed[..n] + sealed[n..];
      if sealed == Sealed(e, nonce, plain, aad) {
        assert sealed[..n] == Crypt(e, nonce, plain) && sealed[n..] == MaskTag(e, nonce, mac);
      }
    }
  }

  /** Decrypting an encryption returns the plaintext. */
  lemma DecryptEncrypt(aes: seq<byte> -> BlockFunction, key: seq<byte>, nonce: seq<byte>, plain: seq<byte>,
                       aad: seq<byte>)
    ensures var r := Encrypt(aes, key, nonce, plain, aad);
      r.Ok? ==> Decrypt(aes, key, nonce, r.bytes, aad) == Ok(plain)
  {
    if Encrypt(aes, key, nonce, plain, aad).Ok? {
      DecryptIffSealed(aes, key, nonce, plain, aad, Sealed(aes(key), nonce, plain, aad));
    }
  }

  /**
   * What decrypts was encrypted, exactly as long as the body fits the two-byte length field: decryption
   * does not check the length, so every longer body has a tag under which it is accepted, although
   * encryption refuses to produce it.
   */
  lemma DecryptIffEncrypt(aes: seq<byte> -> BlockFunction, key: seq<byte>, nonce: seq<byte>, aad: seq<byte>,
                          body: seq<byte>)
    requires |key| == 16 && |nonce| == NONCE_SIZE
    ensures |body| <= MAX_LENGTH <==>
      forall tag: Block, plain :: Decrypt(aes, key, nonce, body + tag, aad) == Ok(plain)
                              ==> Encrypt(aes, key, nonce, plain, aad) == Ok(body + tag)
  {
    var e := aes(key);
    forall tag: Block, plain | Decrypt(aes, key, nonce, body + tag, aad) == Ok(plain)
      ensures |plain| == |body| && body + tag == Sealed(e, nonce, plain, aad)
    {
      DecryptIffSealed(aes, key, nonce, plain, aad, body + tag);
    }
    if |body| > MAX_LENGTH {
      var plain := Crypt(e, nonce, body);
      CryptUndo(e, nonce, body);
      var tag := MaskTag(e, nonce, Mac(e, nonce, aad, plain));
      DecryptIffSealed(aes, key, nonce, plain, aad, body + tag);
      assert Encrypt(aes, key, nonce, plain, aad) != Ok(body + tag);
    }
  }

  // ----- no two inputs are authenticated as the same blocks ---------------------------

  lemma FirstBlockInjective(n1: Nonce, n2: Nonce, d1: bool, d2: bool, l1: nat, l2: nat)
    requires l1 <= MAX_LENGTH && l2 <= MAX_LENGTH
    requires FirstBlock(n1, d1, l1) == FirstBlock(n2, d2, l2)
    ensures n1 == n2 && d1 == d2 && l1 == l2
  {
    var a, b := FirstBlock(n1, d1, l1), FirstBlock(n2, d2, l2);
    assert a[0] == Flags(d1) && b[0] == Flags(d2);
    assert a[1..14] == n1 && b[1..14] == n2;
    assert a[14..] == BE(l1, 2) && b[14..] == BE(l2, 2);
    PowerTable();
    BEInjective(l1, l2, 2);
  }

  lemma HighByte(n: nat)
    requires n < 0xFF00
    ensures BE(n, 2)[0] < 0xFF
  {
    assert BE(n, 2) == BE(n / 256, 1) + [n % 256];
    assert BE(n / 256, 1) == [n / 256 % 256];
  }

  lemma Prefixes<T>(a: seq<T>, x: seq<T>, b: seq<T>, y: seq<T>)
    requires |a| == |b| && a + x == b + y
    ensures a == b && x == y
  {
    assert (a + x)[..|a|] == (b + y)[..|b|];
    assert (a + x)[|a|..] == (b + y)[|b|..];
  }

  /** The length prefix says how long it is itself and how much data follows. */
  lemma LengthPrefixInjective(m: nat, n: nat, x: seq<byte>, y: seq<byte>)
    requires m < Pow256(4) && n < Pow256(4)
    requires LengthPrefix(m) + x == LengthPrefix(n) + y
    ensures m == n && x == y
  {
    PowerTable();
    if m < 0xFF00 { HighByte(m); }
    if n < 0xFF00 { HighByte(n); }
    assert (LengthPrefix(m) + x)[0] == LengthPrefix(m)[0];
    assert (LengthPrefix(n) + y)[0] == LengthPrefix(n)[0];
    Prefixes(LengthPrefix(m), x, LengthPrefix(n), y);
    if m < 0xFF00 {
      BEInjective(m, n, 2);
    } else {
      Prefixes([0xFF, 0xFE], BE(m, 4), [0xFF, 0xFE], BE(n, 4));
      BEInjective(m, n, 4);
    }
  }

  lemma AadParts(a: seq<byte>, x: seq<byte>)
    requires a != []
    ensures AadBlocks(a) + x == LengthPrefix(|a|) + (a + (Fill(LengthPrefix(|a|) + a) + x))
  {
    hide LengthPrefix, Zeros;
  }

  /** Associated data followed by anything is read back in one way. */
  lemma AadInjective(a: seq<byte>, b: seq<byte>, x: seq<byte>, y: seq<byte>)
    requires |a| < Pow256(4) && |b| < Pow256(4)
    requires (a == []) == (b == [])
    requires AadBlocks(a) + x == AadBlocks(b) + y
    ensures a == b && x == y
  {
    if a != [] {
      hide AadBlocks, LengthPrefix, Fill;
      AadParts(a, x);
      AadParts(b, y);
      var fa, fb := Fill(LengthPrefix(|a|) + a), Fill(LengthPrefix(|b|) + b);
      LengthPrefixInjective(|a|, |b|, a + (fa + x), b + (fb + y));
      Prefixes(a, fa + x, b, fb + y);
      Prefixes(AadBlocks(a), x, AadBlocks(b), y);
    } else {
      assert AadBlocks(a) + x == x && AadBlocks(b) + y == y;
    }
  }

  lemma PaddedInjective(p: seq<byte>, q: seq<byte>, tail: seq<byte>)
    requires |p| == |q| && Padded(p) + tail == Padded(q)
    ensures p == q
  {
    hide Zeros;
    assert Padded(p) + tail == p + (Fill(p) + tail);
    Prefixes(p, Fill(p) + tail, q, Fill(q));
  }

  /**
   * The authenticated blocks determine nonce, associated data and plaintext, and none of them is a
   * proper prefix of another's: the condition under which CBC-MAC may be used.
   */
  lemma {:induction false} MacInputPrefixFree(n1: Nonce, a1: seq<byte>, p1: seq<byte>, n2: Nonce, a2: seq<byte>,
                                              p2: seq<byte>)
    requires |p1| <= MAX_LENGTH && |p2| <= MAX_LENGTH
    requires |a1| < Pow256(4) && |a2| < Pow256(4)
    requires MacInput(n1, a1, p1) <= MacInput(n2, a2, p2)
    ensures n1 == n2 && a1 == a2 && p1 == p2
  {
    hide FirstBlock, AadBlocks, Padded;
    var tail := MacInput(n2, a2, p2)[|MacInput(n1, a1, p1)|..];
    var b1, b2 := FirstBlock(n1, a1 != [], |p1|), FirstBlock(n2, a2 != [], |p2|);
    assert MacInput(n1, a1, p1) + tail == MacInput(n2, a2, p2);
    var rest: seq<byte> := AadBlocks(a1) + (Padded(p1) + tail);
    assert b1 + (AadBlocks(a1) + Padded(p1)) + tail == b1 + rest;
    Prefixes(b1, rest, b2, AadBlocks(a2) + Padded(p2));
    FirstBlockInjective(n1, n2, a1 != [], a2 != [], |p1|, |p2|);
    AadInjective(a1, a2, Padded(p1) + tail, Padded(p2));
    PaddedInjective(p1, p2, tail);
  }

  /**
   * Under one nonce the counter blocks of a longest message and its tag are all different, and none of
   * them is the first block of a MAC computation under any nonce.
   */
  lemma CounterBlocksDistinct(nonce: Nonce, i: nat, j: nat, other: Nonce, adata: bool, length: nat)
    requires i < j <= 65535
    ensures CounterBlock(nonce, i) != CounterBlock(nonce, j)
    ensures CounterBlock(nonce, i) != FirstBlock(other, adata, length)
  {
    PowerTable();
    var a, b := CounterBlock(nonce, i), CounterBlock(nonce, j);
    if a == b {
      assert a[14..] == BE(i, 2) && b[14..] == BE(j, 2);
      BEInjective(i, j, 2);
    }
    assert a[0] == 0x01 && FirstBlock(other, adata, length)[0] == Flags(adata);
  }

  /** The last key-stream block of a message of the greatest length is A_4096. */
  lemma LastCounter(j: nat)
    requires j < MAX_LENGTH
    ensures 1 <= 1 + j / 16 <= 4096
  {
  }

  // ----- the equations of RFC 3610, byte by byte ---------------------------------------

  lemma TwoBytes(n: nat)
    requires n < 0x1_0000
    ensures BE(n, 2) == [n / 256, n % 256]
  {
    assert BE(n / 256, 1) == [n / 256] by { assert BE(n / 256 / 256, 0) == []; }
  }

  lemma FourBytes(n: nat)
    requires n < 0x1_0000_0000
    ensures BE(n, 4) == [n / 0x100_0000, n / 0x1_0000 % 256, n / 256 % 256, n % 256]
  {
    var q := n / 256 / 256;
    assert q / 256 == n / 0x100_0000 && q % 256 == n / 0x1_0000 % 256;
    TwoBytes(q);
    hide BE;
    BESplit(n, 4);
    BESplit(n / 256, 3);
  }

  lemma BESplit(v: nat, n: nat)
    requires n > 0
    ensures BE(v, n) == BE(v / 256, n - 1) + [v % 256]
  {
  }

  /** Section 2.2: how the length of the additional data is encoded. */
  lemma LengthPrefixBytes(n: nat)
    ensures 0 <= n < 0xFF00 ==> LengthPrefix(n) == [n / 256, n % 256]
    ensures 0xFF00 <= n < 0x1_0000_0000 ==>
              LengthPrefix(n) == [0xFF, 0xFE, n / 0x100_0000, n / 0x1_0000 % 256, n / 256 % 256, n % 256]
  {
    hide BE;
    if n < 0xFF00 { TwoBytes(n); } else if n < 0x1_0000_0000 { FourBytes(n); }
  }

  /** Padding adds zeros, and fewer than a block of them. */
  lemma PaddedBytes(s: seq<byte>)
    ensures |s| <= |Padded(s)| < |s| + 16 && |Padded(s)| % 16 == 0
    ensures forall i :: 0 <= i < |Padded(s)| ==> Padded(s)[i] == if i < |s| then s[i] else 0
  {
  }

  lemma ChainBlock(e: BlockFunction, x: Block, b: Block)
    ensures Chain(e, x, b) == e(XorSeq(x, b))
  {
    assert b[..16] == b && b[16..] == [];
  }

  /** Section 2.3: each byte of the text is xored with the byte of its counter block. */
  lemma CryptAt(e: BlockFunction, nonce: Nonce, s: seq<byte>, j: nat)
    requires j < |s| <= 65535
    ensures var c := 1 + j / 16;
            Crypt(e, nonce, s)[j] == XorByte(s[j], e([0x01] + nonce + [c / 256, c % 256])[j % 16])
  {
    hide BE;
    TwoBytes(1 + j / 16);
  }

  /** A whole sealed message of one block without additional data, from the definitions of the RFC. */
  lemma SealedBlock(e: BlockFunction, nonce: Nonce, plain: seq<byte>)
    requires 0 < |plain| <= 16
    ensures var x := e([0x39] + nonce + [0, |plain|]);
            var tag := e(XorSeq(x, plain + seq(16 - |plain|, _ => 0)));
            Sealed(e, nonce, plain, [])
            == XorSeq(plain, e([0x01] + nonce + [0, 1])) + XorSeq(tag, e([0x01] + nonce + [0, 0]))
  {
    var x := e([0x39] + nonce + [0, |plain|]);
    MacOfBlock(e, nonce, plain, [], x);
    OneCounter(e, nonce, plain);
  }

  /** The same with up to fourteen bytes of additional data. */
  lemma SealedBlockWithData(e: BlockFunction, nonce: Nonce, plain: seq<byte>, aad: seq<byte>)
    requires 0 < |plain| <= 16 && 0 < |aad| <= 14
    ensures var x := e([0x79] + nonce + [0, |plain|]);
            var y := e(XorSeq(x, [0, |aad|] + aad + seq(14 - |aad|, _ => 0)));
            var tag := e(XorSeq(y, plain + seq(16 - |plain|, _ => 0)));
            Sealed(e, nonce, plain, aad)
            == XorSeq(plain, e([0x01] + nonce + [0, 1])) + XorSeq(tag, e([0x01] + nonce + [0, 0]))
  {
    var x := e([0x79] + nonce + [0, |plain|]);
    var block := [0, |aad|] + aad + seq(14 - |aad|, _ => 0);
    hide AadBlocks, Chain, XorSeq, Mac, Crypt, CounterBlock;
    OneAadBlock(aad);
    ChainBlock(e, x, block);
    MacOfBlock(e, nonce, plain, aad, e(XorSeq(x, block)));
    OneCounter(e, nonce, plain);
  }

  lemma OneAadBlock(aad: seq<byte>)
    requires 0 < |aad| <= 14
    ensures AadBlocks(aad) == [0, |aad|] + aad + seq(14 - |aad|, _ => 0)
  {
    hide BE, LengthPrefix, Padded;
    LengthPrefixBytes(|aad|);
    PaddedBytes([0, |aad|] + aad);
  }

  lemma MacOfBlock(e: BlockFunction, nonce: Nonce, plain: seq<byte>, aad: seq<byte>, y: Block)
    requires 0 < |plain| <= 16
    requires y == Chain(e, e([if aad != [] then 0x79 else 0x39] + nonce + [0, |plain|]), AadBlocks(aad))
    ensures Mac(e, nonce, aad, plain) == e(XorSeq(y, plain + seq(16 - |plain|, _ => 0)))
  {
    hide BE, Chain, XorSeq;
    TwoBytes(|plain|);
    PaddedBytes(plain);
    assert Padded(plain) == plain + seq(16 - |plain|, _ => 0);
    MacFromFirstBlock(e, nonce, aad, plain);
    ChainBlock(e, y, Padded(plain));
  }

  lemma OneCounter(e: BlockFunction, nonce: Nonce, plain: seq<byte>)
    requires |plain| <= 16
    ensures Crypt(e, nonce, plain) == XorSeq(plain, e([0x01] + nonce + [0, 1]))
    ensures CounterBlock(nonce, 0) == [0x01] + nonce + [0, 0]
  {
    hide BE, XorByte;
    TwoBytes(0);
    TwoBytes(1);
  }

  /** What is encrypted, and in which order the sizes are refused. */
  lemma EncryptOutcome(aes: seq<byte> -> BlockFunction, key: seq<byte>, nonce: seq<byte>, plain: seq<byte>,
                       aad: seq<byte>)
    ensures Encrypt(aes, key, nonce, plain, aad)
         == if |key| != 16 then Err(BadKey)
            else if |nonce| != 13 then Err(BadNonce)
            else if |plain| > 65535 then Err(TooLong)
            else Ok(Sealed(aes(key), nonce, plain, aad))
  {
  }

  /** Why a decryption fails. */
  lemma DecryptFails(aes: seq<byte> -> BlockFunction, key: seq<byte>, nonce: seq<byte>, sealed: seq<byte>,
                     aad: seq<byte>)
    ensures var r := Decrypt(aes, key, nonce, sealed, aad);
            && (r == Err(BadKey) <==> |key| != 16)
            && (r == Err(BadNonce) <==> |key| == 16 && |nonce| != 13)
            && (r == Err(TooShort) <==> |key| == 16 && |nonce| == 13 && |sealed| < 16)
            && r != Err(TooLong)
            && (r.Ok? ==> |r.bytes| == |sealed| - 16)
  {
  }
}
