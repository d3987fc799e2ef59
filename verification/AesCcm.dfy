/** The hand-written AES-CCM of internal/crypto/aesccm.go, on buffers changed in place. */
module AesCcm {
  import opened Bytes
  import opened CcmSpec

  /** `xorBytes` on slices: `dst[to..to+n] = a[at..at+n] ^ b[..n]`, where `dst` may be `a` itself. */
  method XorBytes(dst: array<byte>, to: nat, a: array<byte>, at: nat, n: nat, b: array<byte>)
    requires to + n <= dst.Length && at + n <= a.Length && n <= b.Length
    requires b != dst && (a == dst ==> at == to)
    modifies dst
    ensures dst[..] == old(dst[..to]) + XorSeq(old(a[at..at + n]), b[..n]) + old(dst[to + n..])
  {
    hide XorByte;
    for i := 0 to n
      invariant forall j :: 0 <= j < to || to + i <= j < dst.Length ==> dst[j] == old(dst[j])
      invariant forall j :: 0 <= j < i ==> dst[to + j] == XorByte(old(a[at + j]), b[j])
      invariant a != dst ==> a[..] == old(a[..])
      invariant b[..] == old(b[..])
    {
      dst[to + i] := XorByte(a[at + i], b[i]);
    }
  }

  /** `putLength`: big-endian from the last byte backwards. */
  method PutLength(buf: array<byte>, at: nat, val: nat, size: nat)
    requires at + size == buf.Length
    modifies buf
    ensures buf[..] == old(buf[..at]) + BE(val, size)
  {
    var v := val;
    for i := size downto 0
      invariant buf[..at] == old(buf[..at])
      invariant BE(v, i) + buf[at + i..] == BE(val, size)
    {
      buf[at + i] := v % 256;
      assert buf[at + i..] == [v % 256] + buf[at + i + 1..];
      assert BE(v, i + 1) + buf[at + i + 1..] == BE(v / 256, i) + buf[at + i..];
      v := v / 256;
    }
    assert buf[at..] == BE(val, size);
  }

  /** `cipher.Block.Encrypt`; source and destination may be the same block. */
  method EncryptBlock(e: BlockFunction, dst: array<byte>, src: array<byte>)
    requires dst.Length == 16 && src.Length == 16
    modifies dst
    ensures dst[..] == e(old(src[..]))
  {
    var out := e(src[..]);
    forall i | 0 <= i < 16 {
      dst[i] := out[i];
    }
  }

  /** Mixes `n` bytes of `data` from `at` into the state and encrypts it. */
  method Absorb(e: BlockFunction, x: array<byte>, block: array<byte>)
    requires x.Length == 16 && block.Length == 16 && x != block
    modifies x
    ensures x[..] == e(XorSeq(old(x[..]), block[..]))
  {
    assert x[0..16] == x[..];
    XorBytes(x, 0, x, 0, 16, block);
    assert x[..] == XorSeq(old(x[..]), block[..16]);
    assert block[..16] == block[..];
    EncryptBlock(e, x, x);
  }

  lemma PaddedStep(s: seq<byte>)
    requires |s| >= 16
    ensures Padded(s)[..16] == s[..16] && Padded(s)[16..] == Padded(s[16..])
  {
    assert |s[16..]| % 16 == |s| % 16;
  }

  lemma ChainStep(e: BlockFunction, x: Block, s: seq<byte>)
    requires |s| >= 16
    ensures Chain(e, x, Padded(s)) == Chain(e, e(XorSeq(x, s[..16])), Padded(s[16..]))
  {
    PaddedStep(s);
  }

  /** `ccmMACData`: whole blocks, then the zero-padded rest. */
  method MacData(e: BlockFunction, x: array<byte>, data: seq<byte>)
    requires x.Length == 16
    modifies x
    ensures x[..] == Chain(e, old(x[..]), Padded(data))
  {
    hide Padded, Chain, XorSeq;
    var n := |data|;
    var i := 0;
    while i + 16 <= n
      invariant i <= n && i % 16 == 0
      invariant Chain(e, x[..], Padded(data[i..])) == Chain(e, old(x[..]), Padded(data))
      decreases n - i
    {
      ChainStep(e, x[..], data[i..]);
      assert data[i..][..16] == data[i..i + 16] && data[i..][16..] == data[i + 16..];
      var block := new byte[16](j requires 0 <= j < 16 => data[i + j]);
      assert block[..] == data[i..i + 16];
      Absorb(e, x, block);
      i := i + 16;
    }
    if i < n {
      var rest := data[i..];
      var tmp := new byte[16](j => if 0 <= j < n - i then data[i + j] else 0);
      LastBlock(rest, tmp[..]);
      ChainOne(e, x[..], tmp[..]);
      Absorb(e, x, tmp);
    } else {
      NoBlock(e, x[..], data[i..]);
    }
  }

  lemma LastBlock(s: seq<byte>, tmp: Block)
    requires 0 < |s| < 16
    requires forall j :: 0 <= j < 16 ==> tmp[j] == if j < |s| then s[j] else 0
    ensures Padded(s) == tmp
  {
  }

  lemma NoBlock(e: BlockFunction, x: Block, s: seq<byte>)
    requires s == []
    ensures Chain(e, x, Padded(s)) == x
  {
  }

  lemma ChainOne(e: BlockFunction, x: Block, b: Block)
    ensures Chain(e, x, b) == e(XorSeq(x, b))
  {
    assert b[..16] == b;
  }

  /** `ccmMACAAD`: the length prefix, the data and the padding as one buffer. */
  method MacAad(e: BlockFunction, x: array<byte>, aad: seq<byte>)
    requires x.Length == 16 && aad != []
    modifies x
    ensures x[..] == Chain(e, old(x[..]), AadBlocks(aad))
  {
    hide Padded, LengthPrefix, XorByte;
    var lenEnc := EncodeAadLength(|aad|);
    var data := lenEnc + aad;
    var rem := |data| % 16;
    if rem != 0 {
      data := data + seq(16 - rem, _ => 0);
    }
    PadBuffer(lenEnc + aad, data);
    MacBlocks(e, x, data);
  }

  /** The loop of `ccmMACAAD` over whole blocks. */
  method MacBlocks(e: BlockFunction, x: array<byte>, data: seq<byte>)
    requires x.Length == 16 && |data| % 16 == 0
    modifies x
    ensures x[..] == Chain(e, old(x[..]), data)
  {
    hide XorSeq;
    var i := 0;
    while i < |data|
      invariant i <= |data| && i % 16 == 0
      invariant Chain(e, x[..], data[i..]) == Chain(e, old(x[..]), data)
      decreases |data| - i
    {
      assert data[i..][..16] == data[i..i + 16] && data[i..][16..] == data[i + 16..];
      var block := new byte[16](j requires 0 <= j < 16 => data[i + j]);
      assert block[..] == data[i..i + 16];
      Absorb(e, x, block);
      i := i + 16;
    }
  }

  lemma PadBuffer(s: seq<byte>, data: seq<byte>)
    requires data == if |s| % 16 == 0 then s else s + seq(16 - |s| % 16, _ => 0)
    ensures data == Padded(s)
  {
  }

  method EncodeAadLength(la: nat) returns (lenEnc: seq<byte>)
    ensures lenEnc == LengthPrefix(la)
  {
    if la < 0x1_0000 - 0x100 {
      lenEnc := [la / 256 % 256, la % 256];
      assert BE(la, 2) == BE(la / 256, 1) + [la % 256];
      assert BE(la / 256, 1) == BE(la / 256 / 256, 0) + [la / 256 % 256];
    } else {
      lenEnc := [0xFF, 0xFE] + BE(la, 4);
    }
  }

  /** `ccmCBCMAC`. */
  method CbcMac(e: BlockFunction, nonce: Nonce, plain: seq<byte>, aad: seq<byte>) returns (x: array<byte>)
    ensures fresh(x) && x.Length == 16
    ensures x[..] == Mac(e, nonce, aad, plain)
  {
    hide Mac, Chain, AadBlocks, Padded, FlagByte, SetByteBit, Bit, BE;
    var b0 := new byte[16](_ => 0);
    b0[0] := FlagByte(aad);
    CopyNonce(b0, nonce);
    PutLength(b0, 14, |plain|, 2);
    assert b0[..] == FirstBlock(nonce, aad != [], |plain|);
    x := new byte[16](_ => 0);
    EncryptBlock(e, x, b0);
    MacFromFirstBlock(e, nonce, aad, plain);
    if |aad| > 0 {
      MacAad(e, x, aad);
    } else {
      NoAad(e, x[..], aad);
    }
    MacData(e, x, plain);
  }

  lemma NoAad(e: BlockFunction, x: Block, aad: seq<byte>)
    requires aad == []
    ensures Chain(e, x, AadBlocks(aad)) == x
  {
  }

  /** The flags of the first block: `L-1`, the tag size, and the associated-data bit. */
  function FlagByte(aad: seq<byte>): (f: byte)
    ensures f == Flags(aad != [])
  {
    var flags := Or(2 - 1, (TAG_SIZE - 2) / 2 * 8, 8);
    if |aad| > 0 then SetByteBit(flags, 6) else flags
  }

  method CopyNonce(b: array<byte>, nonce: Nonce)
    requires b.Length == 16
    modifies b
    ensures b[..14] == [old(b[0])] + nonce && b[14..] == old(b[14..])
  {
    forall i | 0 <= i < 13 {
      b[1 + i] := nonce[i];
    }
  }

  /** `ccmCTR`: masks the tag with A_0 in place and writes `src` masked with A_1, A_2, ... to `dst`. */
  method Ctr(e: BlockFunction, nonce: Nonce, dst: array<byte>, src: array<byte>, tag: array<byte>)
    requires dst.Length == src.Length && tag.Length == 16
    requires dst != src && dst != tag && src != tag
    modifies dst, tag
    ensures dst[..] == Crypt(e, nonce, src[..])
    ensures tag[..] == MaskTag(e, nonce, old(tag[..]))
  {
    hide XorByte;
    var a := new byte[16](_ => 0);
    a[0] := 0x01;
    CopyNonce(a, nonce);
    CounterZero(nonce, a[..]);

    var s := new byte[16](_ => 0);
    MaskInPlace(e, a, s, tag);

    var ctr := 1;
    var i := 0;
    ghost var masked := tag[..];
    while i < src.Length
      invariant i % 16 == 0 && ctr == 1 + i / 16
      invariant a[..14] == [0x01] + nonce && tag[..] == masked && src[..] == old(src[..])
      invariant forall j :: 0 <= j < i && j < src.Length ==> dst[j] == XorByte(src[j], StreamByte(e, nonce, j))
      decreases src.Length - i
    {
      PutLength(a, 14, ctr, 2);
      assert a[..] == CounterBlock(nonce, ctr);
      EncryptBlock(e, s, a);
      var end := i + 16;
      if end > src.Length {
        end := src.Length;
      }
      ghost var before := dst[..];
      XorBytes(dst, i, src, i, end - i, s);
      MaskedPart(e, nonce, src[..], i, end, before, dst[..]);
      ctr := ctr + 1;
      i := i + 16;
    }
  }

  /** The first step of `ccmCTR`: the tag xor the encrypted counter block `a`, through the scratch block `s`. */
  method MaskInPlace(e: BlockFunction, a: array<byte>, s: array<byte>, tag: array<byte>)
    requires a.Length == 16 && s.Length == 16 && tag.Length == 16
    requires a != s && a != tag && s != tag
    modifies s, tag
    ensures tag[..] == XorSeq(old(tag[..]), e(a[..]))
  {
    EncryptBlock(e, s, a);
    assert tag[0..16] == tag[..] && s[..16] == s[..];
    XorBytes(tag, 0, tag, 0, 16, s);
  }

  lemma CounterZero(nonce: Nonce, a: seq<byte>)
    requires |a| == 16 && a[..14] == [0x01] + nonce && a[14..] == [0, 0]
    ensures a == CounterBlock(nonce, 0)
  {
    assert BE(0, 2) == BE(0, 1) + [0] && BE(0, 1) == BE(0, 0) + [0];
  }

  lemma MaskedPart(e: BlockFunction, nonce: Nonce, src: seq<byte>, i: nat, end: nat, before: seq<byte>,
                   after: seq<byte>)
    requires |before| == |src| && i < end <= |src| && end <= i + 16 && i % 16 == 0
    requires after == before[..i] + XorSeq(src[i..end], e(CounterBlock(nonce, 1 + i / 16))[..end - i]) + before[end..]
    requires forall j :: 0 <= j < i ==> before[j] == XorByte(src[j], StreamByte(e, nonce, j))
    ensures forall j :: 0 <= j < end ==> after[j] == XorByte(src[j], StreamByte(e, nonce, j))
  {
    hide XorByte;
    forall j | i <= j < end
      ensures after[j] == XorByte(src[j], StreamByte(e, nonce, j))
    {
      assert j / 16 == i / 16 && j % 16 == j - i;
    }
  }

  method Encrypt(aes: seq<byte> -> BlockFunction, key: seq<byte>, nonce: seq<byte>, plain: seq<byte>, aad: seq<byte>)
    returns (r: Result)
    ensures r == CcmSpec.Encrypt(aes, key, nonce, plain, aad)
  {
    hide Mac, Crypt, MaskTag;
    if |key| != 16 {
      return Err(BadKey);
    }
    if |nonce| != NONCE_SIZE {
      return Err(BadNonce);
    }
    if |plain| > MAX_LENGTH {
      return Err(TooLong);
    }
    var tag := CbcMac(aes(key), nonce, plain, aad);
    var src := new byte[|plain|](i requires 0 <= i < |plain| => plain[i]);
    assert src[..] == plain;
    var out := new byte[|plain|](_ => 0);
    Ctr(aes(key), nonce, out, src, tag);
    r := Ok(out[..] + tag[..]);
  }

  method Decrypt(aes: seq<byte> -> BlockFunction, key: seq<byte>, nonce: seq<byte>, sealed: seq<byte>, aad: seq<byte>)
    returns (r: Result)
    ensures r == CcmSpec.Decrypt(aes, key, nonce, sealed, aad)
  {
    hide Mac, Crypt, MaskTag;
    if |key| != 16 {
      return Err(BadKey);
    }
    if |nonce| != NONCE_SIZE {
      return Err(BadNonce);
    }
    if |sealed| < TAG_SIZE {
      return Err(TooShort);
    }
    var n := |sealed| - TAG_SIZE;
    var body := new byte[n](i requires 0 <= i < n => sealed[i]);
    var tag := new byte[16](i requires 0 <= i < 16 => sealed[n + i]);
    assert body[..] == sealed[..n] && tag[..] == sealed[n..];
    var plain := new byte[n](_ => 0);
    Ctr(aes(key), nonce, plain, body, tag);
    var expected := CbcMac(aes(key), nonce, plain[..], aad);
    if tag[..] != expected[..] {
      return Err(AuthenticationFailed);
    }
    r := Ok(plain[..]);
  }
}
