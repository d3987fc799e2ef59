/** Whole messages on the wire, encrypted on secured sessions (internal/protocol/codec.go). */
module Codec {
  import opened Bytes
  import opened Message
  import opened CcmSpec
  import opened SessionTable
  import AesCcm

  /** The parts of a session the codec uses; a key may be unset. */
  datatype SecureContext = SecureContext(
    kind: SessionType, encryptKey: Option<seq<byte>>, decryptKey: Option<seq<byte>>, localNodeID: u64, peerNodeID: u64)

  datatype WireMessage = WireMessage(header: MessageHeader, protocol: ProtocolHeader, payload: seq<byte>)

  datatype CodecError = BadHeader(header: HeaderError) | Crypto(crypto: CcmError)

  datatype Encoded = Wire(bytes: seq<byte>) | EncodeFailed(error: CodecError)
  datatype Received = Got(message: WireMessage) | DecodeFailed(error: CodecError)

  type Aes = seq<byte> -> BlockFunction

  /** Security flags, counter and node ID, little-endian. */
  function Nonce(securityFlags: byte, counter: u32, nodeID: u64): CcmSpec.Nonce {
    [securityFlags] + LE(counter, 4) + LE(nodeID, 8)
  }

  method BuildNonce(securityFlags: byte, counter: u32, nodeID: u64) returns (nonce: array<byte>)
    ensures fresh(nonce) && nonce[..] == Nonce(securityFlags, counter, nodeID)
  {
    hide LE;
    nonce := new byte[NONCE_SIZE](_ => 0);
    nonce[0] := securityFlags;
    Put(nonce, 1, counter, 4);
    Put(nonce, 5, nodeID, 8);
    assert nonce[..] == nonce[..13];
  }

  /** Messages that differ in security flags, counter or node never share a nonce. */
  lemma NonceInjective(f1: byte, c1: u32, n1: u64, f2: byte, c2: u32, n2: u64)
    requires Nonce(f1, c1, n1) == Nonce(f2, c2, n2)
    ensures f1 == f2 && c1 == c2 && n1 == n2
  {
    hide LE, FromLE;
    PowerTable();
    Prefixes([f1] + LE(c1, 4), LE(n1, 8), [f2] + LE(c2, 4), LE(n2, 8));
    Prefixes([f1], LE(c1, 4), [f2], LE(c2, 4));
    LERoundTrip(c1, 4);
    LERoundTrip(c2, 4);
    LERoundTrip(n1, 8);
    LERoundTrip(n2, 8);
  }

  /** So no block of keystream is ever derived twice under one key: not within a message, and not across messages. */
  lemma KeystreamNotReused(f1: byte, c1: u32, n1: u64, i: nat, f2: byte, c2: u32, n2: u64, j: nat)
    requires i <= 65535 && j <= 65535
    requires CounterBlock(Nonce(f1, c1, n1), i) == CounterBlock(Nonce(f2, c2, n2), j)
    ensures f1 == f2 && c1 == c2 && n1 == n2 && i == j
  {
    hide Nonce, BE;
    var m, n := Nonce(f1, c1, n1), Nonce(f2, c2, n2);
    PowerTable();
    Prefixes([0x01] + m, BE(i, 2), [0x01] + n, BE(j, 2));
    Prefixes([0x01], m, [0x01], n);
    NonceInjective(f1, c1, n1, f2, c2, n2);
    BEInjective(i, j, 2);
  }

  /** The key that encrypts or decrypts, if the session is secured and has one. */
  function KeyOf(session: Option<SecureContext>, encrypt: bool): Option<seq<byte>> {
    if session.None? || session.value.kind == Unsecured then None
    else if encrypt then session.value.encryptKey else session.value.decryptKey
  }

  function SenderNonce(h: MessageHeader, session: SecureContext): CcmSpec.Nonce {
    Nonce(h.securityFlags, h.messageCounter, if h.hasSourceNodeID then h.sourceNodeID else session.localNodeID)
  }

  function ReceiverNonce(h: MessageHeader, session: SecureContext): CcmSpec.Nonce {
    Nonce(h.securityFlags, h.messageCounter, if h.hasSourceNodeID then h.sourceNodeID else session.peerNodeID)
  }

  function Plaintext(m: WireMessage): seq<byte> {
    ProtocolBytes(m.protocol) + m.payload
  }

  function Encode(aes: Aes, m: WireMessage, session: Option<SecureContext>): Encoded {
    var key := KeyOf(session, true);
    if key.None? then Wire(HeaderBytes(m.header) + Plaintext(m))
    else
      match CcmSpec.Encrypt(aes, key.value, SenderNonce(m.header, session.value), Plaintext(m), HeaderBytes(m.header))
      case Ok(sealed) => Wire(HeaderBytes(m.header) + sealed)
      case Err(error) => EncodeFailed(Crypto(error))
  }

  /** The message inside a decrypted payload. */
  function Open(h: MessageHeader, plain: seq<byte>): Received {
    match ReadProtocol(plain)
    case Bad(error) => DecodeFailed(BadHeader(error))
    case Decoded(p, used) => Got(WireMessage(h, p, plain[used..]))
  }

  function Decode(aes: Aes, data: seq<byte>, session: Option<SecureContext>): Received {
    match ReadHeader(data)
    case Bad(error) => DecodeFailed(BadHeader(error))
    case Decoded(h, used) =>
      var key := KeyOf(session, false);
      if key.None? then Open(h, data[used..])
      else
        match CcmSpec.Decrypt(aes, key.value, ReceiverNonce(h, session.value), data[used..], data[..used])
        case Ok(plain) => Open(h, plain)
        case Err(error) => DecodeFailed(Crypto(error))
  }

  method EncodeMessage(aes: Aes, m: WireMessage, session: Option<SecureContext>) returns (r: Encoded)
    ensures r == Encode(aes, m, session)
  {
    hide ProtocolBytes, HeaderBytes, CcmSpec.Encrypt, Nonce;
    var proto := EncodeProtocolHeader(m.protocol);
    var plain := proto[..] + m.payload;
    var header := EncodeMessageHeader(m.header);
    if session.Some? && session.value.kind != Unsecured && session.value.encryptKey.Some? {
      var nodeID := m.header.sourceNodeID;
      if !m.header.hasSourceNodeID {
        nodeID := session.value.localNodeID;
      }
      var nonce := BuildNonce(m.header.securityFlags, m.header.messageCounter, nodeID);
      var sealed := AesCcm.Encrypt(aes, session.value.encryptKey.value, nonce[..], plain, header[..]);
      match sealed {
        case Err(error) => r := EncodeFailed(Crypto(error));
        case Ok(bytes) => r := Wire(header[..] + bytes);
      }
    } else {
      r := Wire(header[..] + plain);
    }
  }

  method DecodeMessage(aes: Aes, data: seq<byte>, session: Option<SecureContext>) returns (r: Received)
    ensures r == Decode(aes, data, session)
  {
    hide ReadHeader, ReadProtocol, CcmSpec.Decrypt, Nonce;
    var header := DecodeMessageHeader(data);
    if header.Bad? {
      return DecodeFailed(BadHeader(header.error));
    }
    var Decoded(h, used) := header;
    var plain := data[used..];
    if session.Some? && session.value.kind != Unsecured && session.value.decryptKey.Some? {
      var nodeID := h.sourceNodeID;
      if !h.hasSourceNodeID {
        nodeID := session.value.peerNodeID;
      }
      var nonce := BuildNonce(h.securityFlags, h.messageCounter, nodeID);
      var unsealed := AesCcm.Decrypt(aes, session.value.decryptKey.value, nonce[..], plain, data[..used]);
      if unsealed.Err? {
        return DecodeFailed(Crypto(unsealed.error));
      }
      plain := unsealed.bytes;
    }
    var proto := DecodeProtocolHeader(plain);
    if proto.Bad? {
      return DecodeFailed(BadHeader(proto.error));
    }
    r := Got(WireMessage(h, proto.header, plain[proto.used..]));
  }

  // ----- sender and receiver agree ----------------------------------------------------

  /** What the receiver sees of a message. */
  function Normal(m: WireMessage): WireMessage {
    WireMessage(NormalHeader(m.header), NormalProtocol(m.protocol), m.payload)
  }

  /** The two ends of one session: the sender's key and node ID are the receiver's for its peer. */
  predicate Paired(sender: Option<SecureContext>, receiver: Option<SecureContext>) {
    && KeyOf(sender, true) == KeyOf(receiver, false)
    && (KeyOf(sender, true).Some? ==> sender.value.localNodeID == receiver.value.peerNodeID)
  }

  lemma OpenPlaintext(m: WireMessage)
    ensures Open(NormalHeader(m.header), Plaintext(m)) == Got(Normal(m)) <==> FlagsMatch(m.protocol)
  {
    hide ProtocolBytes, ReadProtocol, FlagsMatch, NormalProtocol;
    ProtocolRoundTrip(m.protocol, m.payload);
    TakeDrop(ProtocolBytes(m.protocol), m.payload);
    if Open(NormalHeader(m.header), Plaintext(m)) == Got(Normal(m)) {
      var Decoded(p, used) := ReadProtocol(Plaintext(m));
      assert |Plaintext(m)| - used == |m.payload|;
    }
  }

  lemma SameNonce(m: WireMessage, sender: SecureContext, receiver: SecureContext)
    requires sender.localNodeID == receiver.peerNodeID
    ensures ReceiverNonce(NormalHeader(m.header), receiver) == SenderNonce(m.header, sender)
  {
    hide Nonce, MessageFlags;
  }

  /**
   * Between paired ends a message that encodes is decoded to its normal form, exactly when the flag
   * bits of its protocol header match its optional fields.
   */
  lemma DecodeEncode(aes: Aes, m: WireMessage, sender: Option<SecureContext>, receiver: Option<SecureContext>)
    requires Paired(sender, receiver) && Encode(aes, m, sender).Wire?
    ensures Decode(aes, Encode(aes, m, sender).bytes, receiver) == Got(Normal(m)) <==> FlagsMatch(m.protocol)
  {
    hide HeaderBytes, ReadHeader, ProtocolBytes, NormalHeader, NormalProtocol, Nonce, Sealed, Open, FlagsMatch,
         Plaintext;
    var wire := Encode(aes, m, sender).bytes;
    var header := HeaderBytes(m.header);
    var body := wire[|header|..];
    assert wire == header + body;
    HeaderRoundTrip(m.header, body);
    TakeDrop(header, body);
    OpenPlaintext(m);
    var key := KeyOf(sender, true);
    if key.Some? {
      SameNonce(m, sender.value, receiver.value);
      DecryptEncrypt(aes, key.value, SenderNonce(m.header, sender.value), Plaintext(m), header);
    }
  }

  /** Encoding fails only for a key that is not 16 bytes or a message over 65535 bytes. */
  lemma EncodesWhen(aes: Aes, m: WireMessage, session: Option<SecureContext>)
    ensures Encode(aes, m, session).Wire? <==>
      KeyOf(session, true).None? || (|KeyOf(session, true).value| == 16 && |Plaintext(m)| <= MAX_LENGTH)
  {
    hide HeaderBytes, Sealed, Plaintext, Nonce;
  }

  lemma OpenIsPlaintext(h: MessageHeader, plain: seq<byte>)
    requires Open(h, plain).Got?
    ensures Plaintext(Open(h, plain).message) == plain && Open(h, plain).message.header == h
  {
    hide ProtocolBytes, ReadProtocol;
    ProtocolReencode(plain);
  }

  lemma NonceOfDecoded(h: MessageHeader, sender: SecureContext, receiver: SecureContext)
    requires sender.localNodeID == receiver.peerNodeID
    ensures SenderNonce(h, sender) == ReceiverNonce(h, receiver)
  {
  }

  /** The plaintext under a secured message is short enough for the CCM length field. */
  predicate LengthFits(data: seq<byte>) {
    ReadHeader(data).Decoded? ==> |data| - ReadHeader(data).used - TAG_SIZE <= MAX_LENGTH
  }

  /**
   * Whatever a receiver accepts is what its paired sender would have sent: encoding the decoded message
   * gives the very same bytes, exactly when reserved bit 3 of the first byte was clear and, on a secured
   * session, the length fits (decryption does not check it, encryption does).
   */
  lemma EncodeDecode(aes: Aes, data: seq<byte>, sender: Option<SecureContext>, receiver: Option<SecureContext>)
    requires Paired(sender, receiver) && Decode(aes, data, receiver).Got?
    ensures Encode(aes, Decode(aes, data, receiver).message, sender) == Wire(data) <==>
      !Bit(data[0], 3) && (KeyOf(sender, true).Some? ==> LengthFits(data))
  {
    hide HeaderBytes, ReadHeader, Plaintext, NormalHeader, Nonce, Sealed, Open, CcmSpec.Decrypt, CcmSpec.Encrypt, Bit,
         SenderNonce, ReceiverNonce;
    var Decoded(h, used) := ReadHeader(data);
    HeaderReencode(data);
    var key := KeyOf(sender, true);
    if key.None? {
      OpenIsPlaintext(h, data[used..]);
      SamePrefix(HeaderBytes(h), data[used..], data, used);
    } else {
      var nonce := ReceiverNonce(h, receiver.value);
      var plain := CcmSpec.Decrypt(aes, key.value, nonce, data[used..], data[..used]).bytes;
      NonceOfDecoded(h, sender.value, receiver.value);
      OpenIsPlaintext(h, plain);
      AcceptedIsSealed(aes, key.value, nonce, data[used..], data[..used], plain);
      if HeaderBytes(h) == data[..used] {
        assert data == data[..used] + data[used..];
        if Encode(aes, Decode(aes, data, receiver).message, sender) == Wire(data) {
          Fitted(aes, key.value, nonce, plain, data[..used], data[used..]);
        }
      } else {
        NotAPrefix(HeaderBytes(h), data);
      }
    }
  }

  lemma Fitted(aes: Aes, key: seq<byte>, nonce: CcmSpec.Nonce, plain: seq<byte>, aad: seq<byte>, sealed: seq<byte>)
    requires CcmSpec.Encrypt(aes, key, nonce, plain, aad).Ok?
    requires CcmSpec.Decrypt(aes, key, nonce, sealed, aad) == Ok(plain)
    ensures |sealed| - TAG_SIZE <= MAX_LENGTH
  {
  }

  lemma NotAPrefix(a: seq<byte>, data: seq<byte>)
    requires |a| <= |data| && a != data[..|a|]
    ensures forall b :: a + b != data
  {
    forall b
      ensures a + b != data
    {
      assert (a + b)[..|a|] == a;
    }
  }

  lemma SamePrefix(a: seq<byte>, b: seq<byte>, data: seq<byte>, n: nat)
    requires n <= |data| && |a| == n && b == data[n..]
    ensures a + b == data <==> a == data[..n]
  {
    assert (a + b)[..n] == a;
    assert data == data[..n] + data[n..];
  }

  lemma AcceptedIsSealed(aes: Aes, key: seq<byte>, nonce: CcmSpec.Nonce, sealed: seq<byte>, aad: seq<byte>,
                         plain: seq<byte>)
    requires CcmSpec.Decrypt(aes, key, nonce, sealed, aad) == Ok(plain)
    ensures |plain| == |sealed| - TAG_SIZE
    ensures |plain| <= MAX_LENGTH ==> CcmSpec.Encrypt(aes, key, nonce, plain, aad) == Ok(sealed)
  {
    DecryptIffSealed(aes, key, nonce, plain, aad, sealed);
  }

  // ----- keys and nonces in terms of the session ---------------------------------------------------

  lemma NonceBytes(flags: byte, counter: u32, nodeID: u64)
    ensures Nonce(flags, counter, nodeID) == [flags] + LE(counter, 4) + LE(nodeID, 8)
  {
    hide LE;
  }

  /**
   * With an encryption key, on a session established by PASE or CASE, the message goes out sealed under that key:
   * the header in clear and authenticated, the nonce built from its security flags and counter and the sender's node.
   */
  lemma SealedOnWire(aes: Aes, m: WireMessage, s: SecureContext)
    requires s.kind == Pase || s.kind == Case
    requires s.encryptKey.Some? && |s.encryptKey.value| == 16 && |ProtocolBytes(m.protocol) + m.payload| <= 65535
    ensures var node := if m.header.hasSourceNodeID then m.header.sourceNodeID else s.localNodeID;
            var nonce := [m.header.securityFlags] + LE(m.header.messageCounter, 4) + LE(node, 8);
            var plain := ProtocolBytes(m.protocol) + m.payload;
            Encode(aes, m, Some(s))
            == Wire(HeaderBytes(m.header) + Sealed(aes(s.encryptKey.value), nonce, plain, HeaderBytes(m.header)))
  {
    hide LE, HeaderBytes, ProtocolBytes, Sealed;
  }

  /** Without a session, on the unsecured one, or without a key, it goes out in clear. */
  lemma ClearOnWire(aes: Aes, m: WireMessage, session: Option<SecureContext>)
    requires session.None? || session.value.kind == Unsecured || session.value.encryptKey.None?
    ensures Encode(aes, m, session) == Wire(HeaderBytes(m.header) + ProtocolBytes(m.protocol) + m.payload)
  {
    hide HeaderBytes, ProtocolBytes;
    assert HeaderBytes(m.header) + (ProtocolBytes(m.protocol) + m.payload)
        == HeaderBytes(m.header) + ProtocolBytes(m.protocol) + m.payload;
  }

  /** When two ends of a session fit together. */
  lemma PairedWhen(s: SecureContext, r: SecureContext)
    requires s.kind != Unsecured && r.kind != Unsecured
    ensures Paired(Some(s), Some(r)) <==>
              s.encryptKey == r.decryptKey && (s.encryptKey.Some? ==> s.localNodeID == r.peerNodeID)
  {
  }

  lemma PairedInClear(s: Option<SecureContext>, r: Option<SecureContext>)
    requires s.None? || s.value.kind == Unsecured || s.value.encryptKey.None?
    ensures Paired(s, r) <==> r.None? || r.value.kind == Unsecured || r.value.decryptKey.None?
  {
  }
}
