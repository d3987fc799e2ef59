/** Message and protocol headers (section 4.4 of the Matter Core Specification; internal/protocol/message.go). */
module Message {
  import opened Bytes

  datatype MessageHeader = MessageHeader(
    flags: byte, sessionID: u16, securityFlags: byte, messageCounter: u32,
    sourceNodeID: u64, hasSourceNodeID: bool,
    destinationNodeID: u64, hasDestinationNodeID: bool,
    destinationGroupID: u16, hasDestinationGroupID: bool)

  datatype ProtocolHeader = ProtocolHeader(
    exchangeFlags: byte, opcode: byte, exchangeID: u16, protocolID: u16,
    vendorID: u16, hasVendorID: bool, ackMessageCounter: u32, hasAckCounter: bool)

  datatype HeaderError = TooShort | UnknownDSIZ

  datatype Decoded<T> = Decoded(header: T, used: nat) | Bad(error: HeaderError)

  // Bit positions in the flag bytes.
  const SOURCE_BIT := 2
  const ACK_BIT := 1
  const VENDOR_BIT := 4

  // ----- the layout -------------------------------------------------------------------

  /** `flags & FlagVersionMask`. */
  function VersionBits(flags: byte): byte {
    flags / 16 * 16
  }

  function Dsiz(h: MessageHeader): byte {
    if h.hasDestinationNodeID then 1 else if h.hasDestinationGroupID then 2 else 0
  }

  function MessageFlags(h: MessageHeader): byte {
    VersionBits(h.flags) + (if h.hasSourceNodeID then 4 else 0) + Dsiz(h)
  }

  function SourceBytes(h: MessageHeader): seq<byte> {
    if h.hasSourceNodeID then LE(h.sourceNodeID, 8) else []
  }

  function DestinationBytes(h: MessageHeader): seq<byte> {
    if h.hasDestinationNodeID then LE(h.destinationNodeID, 8)
    else if h.hasDestinationGroupID then LE(h.destinationGroupID, 2)
    else []
  }

  function FixedBytes(flags: byte, sessionID: u16, securityFlags: byte, counter: u32): (s: seq<byte>)
    ensures |s| == 8
  {
    [flags] + LE(sessionID, 2) + [securityFlags] + LE(counter, 4)
  }

  function HeaderBytes(h: MessageHeader): seq<byte> {
    FixedBytes(MessageFlags(h), h.sessionID, h.securityFlags, h.messageCounter) + SourceBytes(h) + DestinationBytes(h)
  }

  /** The header a receiver reconstructs: only version bits survive in the flags, absent fields are zero. */
  function NormalHeader(h: MessageHeader): MessageHeader {
    MessageHeader(MessageFlags(h), h.sessionID, h.securityFlags, h.messageCounter,
                  if h.hasSourceNodeID then h.sourceNodeID else 0, h.hasSourceNodeID,
                  if h.hasDestinationNodeID then h.destinationNodeID else 0, h.hasDestinationNodeID,
                  if Dsiz(h) == 2 then h.destinationGroupID else 0, Dsiz(h) == 2)
  }

  function ExchangeFlags(p: ProtocolHeader): byte {
    var flags := if p.hasVendorID then SetByteBit(p.exchangeFlags, VENDOR_BIT) else p.exchangeFlags;
    if p.hasAckCounter then SetByteBit(flags, ACK_BIT) else flags
  }

  function VendorBytes(p: ProtocolHeader): seq<byte> {
    if p.hasVendorID then LE(p.vendorID, 2) else []
  }

  function AckBytes(p: ProtocolHeader): seq<byte> {
    if p.hasAckCounter then LE(p.ackMessageCounter, 4) else []
  }

  function ProtocolBytes(p: ProtocolHeader): seq<byte> {
    [ExchangeFlags(p), p.opcode] + LE(p.exchangeID, 2) + LE(p.protocolID, 2) + VendorBytes(p) + AckBytes(p)
  }

  function NormalProtocol(p: ProtocolHeader): ProtocolHeader {
    p.(exchangeFlags := ExchangeFlags(p),
       vendorID := if p.hasVendorID then p.vendorID else 0,
       ackMessageCounter := if p.hasAckCounter then p.ackMessageCounter else 0)
  }

  // ----- reading ----------------------------------------------------------------------

  /** The first eight bytes. */
  function FixedOf(b: seq<byte>): MessageHeader
    requires |b| == 8
  {
    PowerTable();
    MessageHeader(b[0], FromLE(b[1..3]), b[3], FromLE(b[4..]), 0, false, 0, false, 0, false)
  }

  function ReadHeader(data: seq<byte>): (r: Decoded<MessageHeader>)
    ensures r.Decoded? ==> 8 <= r.used <= |data|
  {
    if |data| < 8 then Bad(TooShort) else ReadSource(FixedOf(data[..8]), data[8..], 8)
  }

  /** The optional source node ID at the front of `s`, `used` bytes into the message. */
  function ReadSource(h: MessageHeader, s: seq<byte>, used: nat): (r: Decoded<MessageHeader>)
    ensures r.Decoded? ==> used <= r.used <= used + |s|
  {
    PowerTable();
    if !Bit(h.flags, SOURCE_BIT) then ReadDestination(h, s, used)
    else if |s| < 8 then Bad(TooShort)
    else ReadDestination(h.(sourceNodeID := FromLE(s[..8]), hasSourceNodeID := true), s[8..], used + 8)
  }

  /** The optional destination, by the two low flag bits. */
  function ReadDestination(h: MessageHeader, s: seq<byte>, used: nat): (r: Decoded<MessageHeader>)
    ensures r.Decoded? ==> used <= r.used <= used + |s|
  {
    PowerTable();
    if h.flags % 4 == 0 then Decoded(h, used)
    else if h.flags % 4 == 1 then
      if |s| < 8 then Bad(TooShort)
      else Decoded(h.(destinationNodeID := FromLE(s[..8]), hasDestinationNodeID := true), used + 8)
    else if h.flags % 4 == 2 then
      if |s| < 2 then Bad(TooShort)
      else Decoded(h.(destinationGroupID := FromLE(s[..2]), hasDestinationGroupID := true), used + 2)
    else Bad(UnknownDSIZ)
  }

  /** The first six bytes of the protocol header. */
  function FixedProtocolOf(b: seq<byte>): ProtocolHeader
    requires |b| == 6
  {
    PowerTable();
    ProtocolHeader(b[0], b[1], FromLE(b[2..4]), FromLE(b[4..]), 0, false, 0, false)
  }

  function ReadProtocol(data: seq<byte>): (r: Decoded<ProtocolHeader>)
    ensures r.Decoded? ==> 6 <= r.used <= |data|
  {
    if |data| < 6 then Bad(TooShort) else ReadVendor(FixedProtocolOf(data[..6]), data[6..], 6)
  }

  function ReadVendor(p: ProtocolHeader, s: seq<byte>, used: nat): (r: Decoded<ProtocolHeader>)
    ensures r.Decoded? ==> used <= r.used <= used + |s|
  {
    PowerTable();
    if !Bit(p.exchangeFlags, VENDOR_BIT) then ReadAck(p, s, used)
    else if |s| < 2 then Bad(TooShort)
    else ReadAck(p.(vendorID := FromLE(s[..2]), hasVendorID := true), s[2..], used + 2)
  }

  function ReadAck(p: ProtocolHeader, s: seq<byte>, used: nat): (r: Decoded<ProtocolHeader>)
    ensures r.Decoded? ==> used <= r.used <= used + |s|
  {
    PowerTable();
    if !Bit(p.exchangeFlags, ACK_BIT) then Decoded(p, used)
    else if |s| < 4 then Bad(TooShort)
    else Decoded(p.(ackMessageCounter := FromLE(s[..4]), hasAckCounter := true), used + 4)
  }

  // ----- headers come back ------------------------------------------------------------

  lemma FlagsAreRead(h: MessageHeader)
    ensures Bit(MessageFlags(h), SOURCE_BIT) == h.hasSourceNodeID
    ensures MessageFlags(h) % 4 == Dsiz(h)
  {
    var f := MessageFlags(h);
    var q := h.flags / 16;
    assert f == 16 * q + (if h.hasSourceNodeID then 4 else 0) + Dsiz(h);
    assert f / 2 / 2 == 4 * q + (if h.hasSourceNodeID then 1 else 0);
    assert Bit(f, 2) == Bit(f / 2, 1) == Bit(f / 2 / 2, 0);
  }

  lemma FixedRoundTrip(flags: byte, sessionID: u16, securityFlags: byte, counter: u32)
    ensures FixedOf(FixedBytes(flags, sessionID, securityFlags, counter))
         == MessageHeader(flags, sessionID, securityFlags, counter, 0, false, 0, false, 0, false)
  {
    PowerTable();
    LERoundTrip(sessionID, 2);
    LERoundTrip(counter, 4);
    hide LE, FromLE;
    var b := FixedBytes(flags, sessionID, securityFlags, counter);
    assert b[1..3] == LE(sessionID, 2) && b[4..] == LE(counter, 4);
  }

  lemma TakeDrop(a: seq<byte>, b: seq<byte>)
    ensures (a + b)[..|a|] == a && (a + b)[|a|..] == b
  {
  }

  lemma DestinationRoundTrip(h: MessageHeader, read: MessageHeader, rest: seq<byte>, used: nat)
    requires read.flags % 4 == Dsiz(h)
    ensures ReadDestination(read, DestinationBytes(h) + rest, used) == Decoded(
      read.(destinationNodeID := if Dsiz(h) == 1 then h.destinationNodeID else read.destinationNodeID,
            hasDestinationNodeID := Dsiz(h) == 1 || read.hasDestinationNodeID,
            destinationGroupID := if Dsiz(h) == 2 then h.destinationGroupID else read.destinationGroupID,
            hasDestinationGroupID := Dsiz(h) == 2 || read.hasDestinationGroupID),
      used + |DestinationBytes(h)|)
  {
    PowerTable();
    LERoundTrip(h.destinationNodeID, 8);
    LERoundTrip(h.destinationGroupID, 2);
    hide LE, FromLE;
    TakeDrop(DestinationBytes(h), rest);
  }

  lemma SourceRoundTrip(h: MessageHeader, read: MessageHeader, rest: seq<byte>, used: nat)
    requires Bit(read.flags, SOURCE_BIT) == h.hasSourceNodeID && !read.hasSourceNodeID && read.sourceNodeID == 0
    ensures ReadSource(read, SourceBytes(h) + rest, used) == ReadDestination(
      read.(sourceNodeID := if h.hasSourceNodeID then h.sourceNodeID else 0, hasSourceNodeID := h.hasSourceNodeID),
      rest, used + |SourceBytes(h)|)
  {
    PowerTable();
    LERoundTrip(h.sourceNodeID, 8);
    hide LE, FromLE, Bit, ReadDestination;
    TakeDrop(SourceBytes(h), rest);
    assert [] + rest == rest;
  }

  /** Any header comes back normalised, whatever follows it. */
  lemma HeaderRoundTrip(h: MessageHeader, rest: seq<byte>)
    ensures ReadHeader(HeaderBytes(h) + rest) == Decoded(NormalHeader(h), |HeaderBytes(h)|)
  {
    var flags := MessageFlags(h);
    FlagsAreRead(h);
    hide MessageFlags, Bit, FixedBytes, FixedOf, SourceBytes, DestinationBytes, ReadSource, ReadDestination, Dsiz;
    var fixed := FixedBytes(flags, h.sessionID, h.securityFlags, h.messageCounter);
    var tail := DestinationBytes(h) + rest;
    FixedRoundTrip(flags, h.sessionID, h.securityFlags, h.messageCounter);
    assert HeaderBytes(h) + rest == fixed + (SourceBytes(h) + tail);
    TakeDrop(fixed, SourceBytes(h) + tail);
    SourceRoundTrip(h, FixedOf(fixed), tail, 8);
    var read := FixedOf(fixed).(sourceNodeID := if h.hasSourceNodeID then h.sourceNodeID else 0,
                                hasSourceNodeID := h.hasSourceNodeID);
    DestinationRoundTrip(h, read, rest, 8 + |SourceBytes(h)|);
    DsizValues(h);
  }

  lemma DsizValues(h: MessageHeader)
    ensures (Dsiz(h) == 1) == h.hasDestinationNodeID
    ensures (Dsiz(h) == 2) == (!h.hasDestinationNodeID && h.hasDestinationGroupID)
  {
  }

  lemma FlagsAreKept(f: byte)
    requires f % 4 != 3
    ensures VersionBits(f) + (if Bit(f, SOURCE_BIT) then 4 else 0) + f % 4 == f <==> !Bit(f, 3)
  {
    var q := f / 4;
    assert f / 2 / 2 == q && f / 2 / 2 / 2 == q / 2 && f / 16 == q / 4;
    assert Bit(f, 2) == (q % 2 == 1) && Bit(f, 3) == (q / 2 % 2 == 1) by {
      assert Bit(f, 2) == Bit(f / 2, 1) == Bit(f / 2 / 2, 0);
      assert Bit(f, 3) == Bit(f / 2, 2) == Bit(f / 2 / 2, 1) == Bit(f / 2 / 2 / 2, 0);
    }
    QuarterBits(q);
  }

  lemma QuarterBits(q: nat)
    ensures q == 4 * (q / 4) + 2 * (q / 2 % 2) + q % 2
  {
    var half := q / 2;
    assert q == 2 * half + q % 2;
    assert half == 2 * (half / 2) + half % 2;
    assert half / 2 == q / 4;
  }

  /** The first eight bytes are restored exactly when their first byte is. */
  lemma FixedReencode(b: seq<byte>, flags: byte)
    requires |b| == 8
    ensures var h := FixedOf(b);
      FixedBytes(flags, h.sessionID, h.securityFlags, h.messageCounter) == b <==> flags == b[0]
  {
    hide LE, FromLE;
    PowerTable();
    LERecovers(b[1..3], 2);
    LERecovers(b[4..], 4);
    var h := FixedOf(b);
    assert b == [b[0]] + b[1..3] + [b[3]] + b[4..];
    assert FixedBytes(flags, h.sessionID, h.securityFlags, h.messageCounter)[0] == flags;
  }

  lemma LERecovers(s: seq<byte>, n: nat)
    requires |s| == n
    ensures LE(FromLE(s), n) == s
  {
    FromLERoundTrip(s);
  }

  lemma DestinationReencode(h: MessageHeader, s: seq<byte>, used: nat)
    requires !h.hasDestinationNodeID && !h.hasDestinationGroupID && ReadDestination(h, s, used).Decoded?
    ensures var Decoded(r, n) := ReadDestination(h, s, used);
      && DestinationBytes(r) == s[..n - used] && Dsiz(r) == h.flags % 4
      && r == h.(destinationNodeID := r.destinationNodeID, hasDestinationNodeID := r.hasDestinationNodeID,
                 destinationGroupID := r.destinationGroupID, hasDestinationGroupID := r.hasDestinationGroupID)
      && r.hasDestinationNodeID == (Dsiz(r) == 1) && r.hasDestinationGroupID == (Dsiz(r) == 2)
      && (Dsiz(r) != 1 ==> r.destinationNodeID == h.destinationNodeID)
      && (Dsiz(r) != 2 ==> r.destinationGroupID == h.destinationGroupID)
  {
    hide LE, FromLE, MessageFlags;
    if h.flags % 4 == 1 { LERecovers(s[..8], 8); }
    if h.flags % 4 == 2 { LERecovers(s[..2], 2); }
  }

  /** Encoding a decoded header restores the bytes it came from exactly when reserved bit 3 was clear. */
  lemma HeaderReencode(data: seq<byte>)
    requires ReadHeader(data).Decoded?
    ensures var Decoded(h, used) := ReadHeader(data);
      && (HeaderBytes(h) == data[..used] <==> !Bit(data[0], 3))
      && |HeaderBytes(h)| == used && NormalHeader(h) == h.(flags := MessageFlags(h))
  {
    hide FixedOf, FixedBytes, ReadDestination, Bit, LE, FromLE, DestinationBytes, VersionBits;
    var Decoded(h, used) := ReadHeader(data);
    var h0, s := FixedOf(data[..8]), data[8..];
    FixedFields(data[..8]);
    var source := Bit(h0.flags, SOURCE_BIT);
    var n := if source then 8 else 0;
    var h1 := if source then h0.(sourceNodeID := FromLE(s[..8]), hasSourceNodeID := true) else h0;
    if source { LERecovers(s[..8], 8); }
    assert s[0..] == s;
    assert ReadHeader(data) == ReadDestination(h1, s[n..], 8 + n);
    DestinationReencode(h1, s[n..], 8 + n);
    KnownDsiz(h1, s[n..], 8 + n);
    FlagsAreKept(data[0]);
    FixedReencode(data[..8], MessageFlags(h));
    var fixed := FixedBytes(MessageFlags(h), h.sessionID, h.securityFlags, h.messageCounter);
    assert SourceBytes(h) == s[..n];
    JoinParts(data, fixed, n, used);
  }

  lemma FixedFields(b: seq<byte>)
    requires |b| == 8
    ensures var h := FixedOf(b);
      && h.flags == b[0] && !h.hasSourceNodeID && !h.hasDestinationNodeID && !h.hasDestinationGroupID
      && h.sourceNodeID == 0 && h.destinationNodeID == 0 && h.destinationGroupID == 0
  {
  }

  lemma KnownDsiz(h: MessageHeader, s: seq<byte>, used: nat)
    requires ReadDestination(h, s, used).Decoded?
    ensures h.flags % 4 != 3
  {
  }

  lemma JoinParts(data: seq<byte>, fixed: seq<byte>, n: nat, used: nat)
    requires 8 + n <= used <= |data| && |fixed| == 8
    ensures fixed + data[8..][..n] + data[8..][n..][..used - 8 - n] == data[..used] <==> fixed == data[..8]
  {
    var s := fixed + data[8..][..n] + data[8..][n..][..used - 8 - n];
    assert s[..8] == fixed && data[..used][..8] == data[..8];
    assert s[8..] == data[..used][8..];
    assert data[..used] == data[..8] + data[..used][8..];
    assert s == fixed + s[8..];
  }

  /** The flag bits that announce optional fields are set only for fields that are there. */
  predicate FlagsMatch(p: ProtocolHeader) {
    (Bit(p.exchangeFlags, VENDOR_BIT) ==> p.hasVendorID) && (Bit(p.exchangeFlags, ACK_BIT) ==> p.hasAckCounter)
  }

  lemma FixedProtocolRoundTrip(flags: byte, opcode: byte, exchangeID: u16, protocolID: u16)
    ensures var b := [flags, opcode] + LE(exchangeID, 2) + LE(protocolID, 2);
      |b| == 6 && FixedProtocolOf(b) == ProtocolHeader(flags, opcode, exchangeID, protocolID, 0, false, 0, false)
  {
    PowerTable();
    LERoundTrip(exchangeID, 2);
    LERoundTrip(protocolID, 2);
    hide LE, FromLE;
    var b := [flags, opcode] + LE(exchangeID, 2) + LE(protocolID, 2);
    assert b[2..4] == LE(exchangeID, 2) && b[4..] == LE(protocolID, 2);
  }

  lemma OptionalRoundTrip(p: ProtocolHeader, read: ProtocolHeader, rest: seq<byte>)
    requires read == NormalProtocol(p).(vendorID := 0, hasVendorID := false,
                                        ackMessageCounter := 0, hasAckCounter := false)
    ensures FlagsMatch(p) <==>
      ReadVendor(read, VendorBytes(p) + (AckBytes(p) + rest), 6)
      == Decoded(NormalProtocol(p), 6 + |VendorBytes(p)| + |AckBytes(p)|)
  {
    PowerTable();
    var flags := ExchangeFlags(p);
    assert Bit(flags, VENDOR_BIT) == (p.hasVendorID || Bit(p.exchangeFlags, VENDOR_BIT));
    assert Bit(flags, ACK_BIT) == (p.hasAckCounter || Bit(p.exchangeFlags, ACK_BIT));
    LERoundTrip(p.vendorID, 2);
    LERoundTrip(p.ackMessageCounter, 4);
    hide LE, FromLE, ExchangeFlags, Bit;
    TakeDrop(VendorBytes(p), AckBytes(p) + rest);
    TakeDrop(AckBytes(p), rest);
  }

  /** A protocol header comes back normalised exactly when its flag bits match its fields. */
  lemma ProtocolRoundTrip(p: ProtocolHeader, rest: seq<byte>)
    ensures FlagsMatch(p) <==>
      ReadProtocol(ProtocolBytes(p) + rest) == Decoded(NormalProtocol(p), |ProtocolBytes(p)|)
  {
    hide LE, ExchangeFlags, Bit, ReadVendor, FixedProtocolOf, FlagsMatch, VendorBytes, AckBytes;
    var flags := ExchangeFlags(p);
    FixedProtocolRoundTrip(flags, p.opcode, p.exchangeID, p.protocolID);
    var fixed := [flags, p.opcode] + LE(p.exchangeID, 2) + LE(p.protocolID, 2);
    var tail := VendorBytes(p) + (AckBytes(p) + rest);
    assert ProtocolBytes(p) + rest == fixed + tail;
    TakeDrop(fixed, tail);
    OptionalRoundTrip(p, FixedProtocolOf(fixed), rest);
  }

  lemma NoNewFlags(p: ProtocolHeader)
    requires p.hasVendorID == Bit(p.exchangeFlags, VENDOR_BIT) && p.hasAckCounter == Bit(p.exchangeFlags, ACK_BIT)
    ensures ExchangeFlags(p) == p.exchangeFlags
  {
  }

  /** Encoding a decoded protocol header always restores its bytes. */
  lemma ProtocolReencode(data: seq<byte>)
    requires ReadProtocol(data).Decoded?
    ensures var Decoded(p, used) := ReadProtocol(data);
      && FlagsMatch(p) && NormalProtocol(p) == p && ProtocolBytes(p) == data[..used]
  {
    var Decoded(p, used) := ReadProtocol(data);
    NoNewFlags(p);
    hide LE, FromLE, ExchangeFlags, Bit;
    var b, s := data[..6], data[6..];
    LERecovers(b[2..4], 2);
    LERecovers(b[4..], 2);
    var at := if p.hasVendorID then 2 else 0;
    if p.hasVendorID { LERecovers(s[..2], 2); }
    if p.hasAckCounter { LERecovers(s[at..][..4], 4); }
    assert s[0..] == s;
    assert VendorBytes(p) == s[..at] && AckBytes(p) == s[at..used - 6];
    assert b == [b[0], b[1]] + b[2..4] + b[4..];
    assert data[..used] == b + s[..at] + s[at..used - 6];
  }

  // ----- the encoders and decoders ----------------------------------------------------

  /** `binary.LittleEndian.PutUint16/32/64` into a buffer at an offset. */
  method Put(buf: array<byte>, offset: nat, v: nat, n: nat)
    requires offset + n <= buf.Length
    modifies buf
    ensures buf[..offset + n] == old(buf[..offset]) + LE(v, n)
  {
    hide LE;
    var bytes := LE(v, n);
    forall i | 0 <= i < n {
      buf[offset + i] := bytes[i];
    }
  }

  /** The fields every message header has, in its first eight bytes. */
  method PutFixed(buf: array<byte>, flags: byte, h: MessageHeader)
    requires buf.Length >= 8
    modifies buf
    ensures buf[..8] == FixedBytes(flags, h.sessionID, h.securityFlags, h.messageCounter)
  {
    hide LE;
    buf[0] := flags;
    Put(buf, 1, h.sessionID, 2);
    buf[3] := h.securityFlags;
    Put(buf, 4, h.messageCounter, 4);
  }

  method EncodeMessageHeader(h: MessageHeader) returns (buf: array<byte>)
    ensures fresh(buf) && buf[..] == HeaderBytes(h)
  {
    hide LE;
    var size := 8;
    if h.hasSourceNodeID {
      size := size + 8;
    }
    if h.hasDestinationNodeID {
      size := size + 8;
    } else if h.hasDestinationGroupID {
      size := size + 2;
    }
    buf := new byte[size](_ => 0);

    var flags := VersionBits(h.flags);
    if h.hasSourceNodeID {
      flags := flags + 4;
    }
    if h.hasDestinationNodeID {
      flags := flags + 1;
    } else if h.hasDestinationGroupID {
      flags := flags + 2;
    }
    assert flags == MessageFlags(h);
    hide MessageFlags, VersionBits;
    PutFixed(buf, flags, h);
    hide FixedBytes;
    ghost var fixed := FixedBytes(flags, h.sessionID, h.securityFlags, h.messageCounter);
    var offset := 8;
    if h.hasSourceNodeID {
      Put(buf, offset, h.sourceNodeID, 8);
      offset := offset + 8;
    }
    assert buf[..offset] == fixed + SourceBytes(h);
    if h.hasDestinationNodeID {
      Put(buf, offset, h.destinationNodeID, 8);
    } else if h.hasDestinationGroupID {
      Put(buf, offset, h.destinationGroupID, 2);
    }
    assert buf[..] == buf[..size];
  }

  method DecodeMessageHeader(data: seq<byte>) returns (r: Decoded<MessageHeader>)
    ensures r == ReadHeader(data)
  {
    hide FromLE;
    PowerTable();
    if |data| < 8 {
      return Bad(TooShort);
    }
    var h := MessageHeader(data[0], FromLE(data[1..3]), data[3], FromLE(data[4..8]), 0, false, 0, false, 0, false);
    assert data[..8][1..3] == data[1..3] && data[..8][4..] == data[4..8];
    assert ReadHeader(data) == ReadSource(h, data[8..], 8);
    var offset := 8;
    if Bit(h.flags, SOURCE_BIT) {
      if |data| < offset + 8 {
        return Bad(TooShort);
      }
      assert data[8..][..8] == data[offset..offset + 8] && data[8..][8..] == data[16..];
      h := h.(sourceNodeID := FromLE(data[offset..offset + 8]), hasSourceNodeID := true);
      offset := offset + 8;
    }
    assert ReadHeader(data) == ReadDestination(h, data[offset..], offset);
    var dsiz := h.flags % 4;
    if dsiz == 1 {
      if |data| < offset + 8 {
        return Bad(TooShort);
      }
      assert data[offset..][..8] == data[offset..offset + 8];
      h := h.(destinationNodeID := FromLE(data[offset..offset + 8]), hasDestinationNodeID := true);
      offset := offset + 8;
    } else if dsiz == 2 {
      if |data| < offset + 2 {
        return Bad(TooShort);
      }
      assert data[offset..][..2] == data[offset..offset + 2];
      h := h.(destinationGroupID := FromLE(data[offset..offset + 2]), hasDestinationGroupID := true);
      offset := offset + 2;
    } else if dsiz != 0 {
      return Bad(UnknownDSIZ);
    }
    r := Decoded(h, offset);
  }

  method EncodeProtocolHeader(p: ProtocolHeader) returns (buf: array<byte>)
    ensures fresh(buf) && buf[..] == ProtocolBytes(p)
  {
    hide LE;
    var size := 6;
    if p.hasVendorID {
      size := size + 2;
    }
    if p.hasAckCounter {
      size := size + 4;
    }
    buf := new byte[size](_ => 0);
    var flags := p.exchangeFlags;
    if p.hasVendorID {
      flags := SetByteBit(flags, VENDOR_BIT);
    }
    if p.hasAckCounter {
      flags := SetByteBit(flags, ACK_BIT);
    }
    buf[0] := flags;
    buf[1] := p.opcode;
    Put(buf, 2, p.exchangeID, 2);
    Put(buf, 4, p.protocolID, 2);
    ghost var fixed := [flags, p.opcode] + LE(p.exchangeID, 2) + LE(p.protocolID, 2);
    assert buf[..6] == fixed;
    var offset := 6;
    if p.hasVendorID {
      Put(buf, offset, p.vendorID, 2);
      offset := offset + 2;
    }
    assert buf[..offset] == fixed + (if p.hasVendorID then LE(p.vendorID, 2) else []);
    if p.hasAckCounter {
      Put(buf, offset, p.ackMessageCounter, 4);
    }
    assert buf[..] == buf[..size];
  }

  method DecodeProtocolHeader(data: seq<byte>) returns (r: Decoded<ProtocolHeader>)
    ensures r == ReadProtocol(data)
  {
    hide FromLE;
    PowerTable();
    if |data| < 6 {
      return Bad(TooShort);
    }
    var p := ProtocolHeader(data[0], data[1], FromLE(data[2..4]), FromLE(data[4..6]), 0, false, 0, false);
    assert data[..6][2..4] == data[2..4] && data[..6][4..] == data[4..6];
    assert ReadProtocol(data) == ReadVendor(p, data[6..], 6);
    var offset := 6;
    if Bit(p.exchangeFlags, VENDOR_BIT) {
      if |data| < offset + 2 {
        return Bad(TooShort);
      }
      assert data[6..][..2] == data[offset..offset + 2] && data[6..][2..] == data[8..];
      p := p.(vendorID := FromLE(data[offset..offset + 2]), hasVendorID := true);
      offset := offset + 2;
    }
    assert ReadProtocol(data) == ReadAck(p, data[offset..], offset);
    if Bit(p.exchangeFlags, ACK_BIT) {
      if |data| < offset + 4 {
        return Bad(TooShort);
      }
      assert data[offset..][..4] == data[offset..offset + 4];
      p := p.(ackMessageCounter := FromLE(data[offset..offset + 4]), hasAckCounter := true);
      offset := offset + 4;
    }
    r := Decoded(p, offset);
  }

  // ----- the headers in numbers -----------------------------------------------------------------

  /** The message header as bytes: flags, session, security flags, counter, then the node IDs that are present. */
  lemma HeaderOnWire(h: MessageHeader)
    ensures HeaderBytes(h)
         == [h.flags / 16 * 16 + (if h.hasSourceNodeID then 4 else 0)
             + (if h.hasDestinationNodeID then 1 else if h.hasDestinationGroupID then 2 else 0)]
            + LE(h.sessionID, 2) + [h.securityFlags] + LE(h.messageCounter, 4)
            + (if h.hasSourceNodeID then LE(h.sourceNodeID, 8) else [])
            + (if h.hasDestinationNodeID then LE(h.destinationNodeID, 8)
               else if h.hasDestinationGroupID then LE(h.destinationGroupID, 2) else [])
  {
    hide LE;
  }

  /** A header is read exactly when its destination size is known and all the bytes its flags announce are there. */
  lemma HeaderReadable(data: seq<byte>)
    ensures ReadHeader(data) == Bad(UnknownDSIZ) ==> data[0] % 4 == 3
    ensures ReadHeader(data).Decoded? <==>
              && |data| >= 8 && data[0] % 4 != 3
              && |data| >= 8 + (if data[0] / 4 % 2 == 1 then 8 else 0)
                             + (if data[0] % 4 == 1 then 8 else if data[0] % 4 == 2 then 2 else 0)
  {
    hide FromLE, LE;
    if |data| >= 8 {
      assert Bit(data[0], 2) == Bit(data[0] / 2, 1) == Bit(data[0] / 2 / 2, 0);
    }
  }

  lemma ProtocolOnWire(p: ProtocolHeader)
    ensures ProtocolBytes(p)
         == [ExchangeFlags(p), p.opcode] + LE(p.exchangeID, 2) + LE(p.protocolID, 2)
            + (if p.hasVendorID then LE(p.vendorID, 2) else [])
            + (if p.hasAckCounter then LE(p.ackMessageCounter, 4) else [])
  {
    hide LE, ExchangeFlags;
  }

  /** The flags on the wire: those given, bit 4 with a vendor and bit 1 with a counter. */
  lemma FlagsOnWire(p: ProtocolHeader, k: nat)
    ensures Bit(ExchangeFlags(p), k) <==> || Bit(p.exchangeFlags, k)
                                          || (k == 4 && p.hasVendorID) || (k == 1 && p.hasAckCounter)
  {
    hide Bit;
  }

  lemma ProtocolReadable(data: seq<byte>)
    ensures ReadProtocol(data).Decoded? <==>
              |data| >= 6 && |data| >= 6 + (if data[0] / 16 % 2 == 1 then 2 else 0)
                                         + (if data[0] / 2 % 2 == 1 then 4 else 0)
  {
    hide FromLE, LE;
    if |data| >= 6 {
      assert Bit(data[0], 1) == Bit(data[0] / 2, 0);
      FourthBit(data[0]);
    }
  }

  lemma FourthBit(b: byte)
    ensures Bit(b, 4) <==> b / 16 % 2 == 1
  {
    assert Bit(b, 4) == Bit(b / 2, 3) == Bit(b / 2 / 2, 2) == Bit(b / 2 / 2 / 2, 1) == Bit(b / 2 / 2 / 2 / 2, 0);
  }

  lemma FlagsMatchWhen(p: ProtocolHeader)
    ensures FlagsMatch(p) <==> && (p.exchangeFlags / 16 % 2 == 1 ==> p.hasVendorID)
                               && (p.exchangeFlags / 2 % 2 == 1 ==> p.hasAckCounter)
  {
    FourthBit(p.exchangeFlags);
    assert Bit(p.exchangeFlags, 1) == Bit(p.exchangeFlags / 2, 0);
  }
}
