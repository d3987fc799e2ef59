/**
 * The onboarding payload and its QR code text (section 5.1.3 of the Matter Core Specification;
 * internal/commissioning/payload.go).
 */
module SetupPayload {
  import opened Bytes
  import opened BitBuffer
  import opened BitFields
  import Base38

  datatype Payload = Payload(
    version: byte,
    vendorID: u16,
    productID: u16,
    flow: byte,
    capabilities: byte,
    discriminator: u16,
    passcode: u32)

  const CUSTOM_FLOW: byte := 2

  datatype CodeError =
    | PasscodeTooLarge
    | DiscriminatorTooLarge
    | MissingPrefix
    | InvalidBase38(base38: Base38.Error)
    | WrongLength
    | NotADigit
    | WrongCheckDigit
    | DisallowedPasscode
    | IndexPanic  // the slice expression runs past the end of the code

  datatype Result<+T> = Ok(value: T) | Err(error: CodeError)

  const DISALLOWED: seq<u32> :=
    [ 11111111, 22222222, 33333333, 44444444, 55555555, 66666666,
      77777777, 88888888, 99999999, 12345678, 87654321 ]

  predicate Allowed(passcode: u32) {
    passcode != 0 && passcode !in DISALLOWED
  }

  method ValidatePasscode(passcode: u32) returns (ok: bool)
    ensures ok == Allowed(passcode)
  {
    if passcode == 0 { return false; }
    for i := 0 to |DISALLOWED|
      invariant passcode !in DISALLOWED[..i]
    {
      if passcode == DISALLOWED[i] { return false; }
    }
    assert DISALLOWED[..|DISALLOWED|] == DISALLOWED;
    ok := true;
  }

  // ----- the packed fields -----------------------------------------------------------------

  const PACKED_LENGTH := 11
  const PREFIX := "MT:"

  function Fields(p: Payload): seq<Field> {
    [ Field(3, p.version), Field(16, p.vendorID), Field(16, p.productID), Field(2, p.flow),
      Field(8, p.capabilities), Field(12, p.discriminator), Field(27, p.passcode) ]
  }

  function QRText(p: Payload): Result<string> {
    if p.passcode > 0x7FF_FFFF then Err(PasscodeTooLarge)
    else if p.discriminator > 0xFFF then Err(DiscriminatorTooLarge)
    else Ok(PREFIX + Base38.Encoded(LE(Pack(Fields(p)), PACKED_LENGTH)))
  }

  lemma WidthTable()
    ensures Pow2(2) == 4 && Pow2(3) == 8 && Pow2(8) == 0x100 && Pow2(12) == 0x1000
    ensures Pow2(14) == 0x4000 && Pow2(16) == 0x1_0000 && Pow2(27) == 0x800_0000
    ensures Pow2(32) == 0x1_0000_0000
  {
    Pow2Table();
    assert Pow2(20) == 0x10_0000;
    assert Pow2(24) == 0x100_0000;
  }

  function PayloadAt(buf: seq<byte>): Payload {
    WidthTable();
    Payload(FieldAt(buf, 0, 3), FieldAt(buf, 3, 16), FieldAt(buf, 19, 16), FieldAt(buf, 35, 2),
            FieldAt(buf, 37, 8), FieldAt(buf, 45, 12), FieldAt(buf, 57, 27))
  }

  function Padded(buf: seq<byte>): seq<byte> {
    if |buf| < PACKED_LENGTH then buf + seq(PACKED_LENGTH - |buf|, _ => 0) else buf
  }

  function FromQRText(code: string): Result<Payload> {
    if |code| < 3 || code[..3] != PREFIX then Err(MissingPrefix)
    else
      match Base38.Decoded(code[3..])
      case Err(error) => Err(InvalidBase38(error))
      case Ok(buf) =>
        var p := PayloadAt(Padded(buf));
        if Allowed(p.passcode) then Ok(p) else Err(DisallowedPasscode)
  }

  // ----- round trip ------------------------------------------------------------------------

  lemma {:induction false} BytesAreEightBits(n: nat)
    ensures Pow256(n) == Pow2(8 * n)
  {
    if n > 0 {
      BytesAreEightBits(n - 1);
      Pow2Sum(8, 8 * n - 8);
      Pow2Table();
    }
  }

  const OFFSETS: seq<nat> := [0, 3, 19, 35, 37, 45, 57, 84]

  lemma {:induction false} OffsetOf(fields: seq<Field>, p: Payload, k: nat)
    requires fields == Fields(p) && k <= 7
    ensures TotalWidth(fields[..k]) == OFFSETS[k]
  {
    if k > 0 {
      OffsetOf(fields, p, k - 1);
      assert fields[..k] == fields[..k - 1] + [fields[k - 1]];
      PackSnoc(fields[..k - 1], fields[k - 1]);
    }
  }

  /** The bit offset of each field is the total width of those before it. */
  lemma Layout(p: Payload)
    ensures var fs := Fields(p);
            && TotalWidth(fs[..0]) == 0 && TotalWidth(fs[..1]) == 3 && TotalWidth(fs[..2]) == 19
            && TotalWidth(fs[..3]) == 35 && TotalWidth(fs[..4]) == 37 && TotalWidth(fs[..5]) == 45
            && TotalWidth(fs[..6]) == 57 && TotalWidth(fs) == 84
  {
    hide TotalWidth;
    var fs := Fields(p);
    assert fs[..7] == fs;
    OffsetOf(fs, p, 0);
    OffsetOf(fs, p, 1);
    OffsetOf(fs, p, 2);
    OffsetOf(fs, p, 3);
    OffsetOf(fs, p, 4);
    OffsetOf(fs, p, 5);
    OffsetOf(fs, p, 6);
    OffsetOf(fs, p, 7);
  }

  lemma PackedNumber(p: Payload)
    ensures FromLE(LE(Pack(Fields(p)), PACKED_LENGTH)) == Pack(Fields(p))
  {
    hide Pack, Pow2, FromLE, LE, Pow256;
    var fs := Fields(p);
    Layout(p);
    PackFits(fs);
    BytesAreEightBits(PACKED_LENGTH);
    Pow2Sum(84, 4);
    Widen(Pack(fs), Pow2(84), Pow2(4));
    LERoundTrip(Pack(fs), PACKED_LENGTH);
  }

  lemma Widen(n: nat, a: nat, b: nat)
    requires n < a && b > 0
    ensures n < a * b
  {
    assert a * b - a == a * (b - 1);
    Multiple(a, b - 1);
  }

  lemma FieldBack(p: Payload, k: nat, f: Field)
    requires k < 7 && f == Fields(p)[k]
    ensures FieldAt(LE(Pack(Fields(p)), PACKED_LENGTH), OFFSETS[k], f.width) == f.value % Pow2(f.width)
  {
    hide Pack, TotalWidth, FromLE, LE, Pow2;
    PackedNumber(p);
    OffsetOf(Fields(p), p, k);
    Unpack(Fields(p), k);
  }

  /** What the packed bytes hold, field by field. */
  lemma PackedPayload(p: Payload)
    requires p.passcode <= 0x7FF_FFFF && p.discriminator <= 0xFFF
    ensures PayloadAt(LE(Pack(Fields(p)), PACKED_LENGTH)) == p.(version := p.version % 8, flow := p.flow % 4)
  {
    hide Pack, LE, Pow2, FieldAt;
    WidthTable();
    FieldBack(p, 0, Field(3, p.version));
    FieldBack(p, 1, Field(16, p.vendorID));
    FieldBack(p, 2, Field(16, p.productID));
    FieldBack(p, 3, Field(2, p.flow));
    FieldBack(p, 4, Field(8, p.capabilities));
    FieldBack(p, 5, Field(12, p.discriminator));
    FieldBack(p, 6, Field(27, p.passcode));
  }

  /** A QR code that is printed reads back as the payload, in the three bits of its version and the two of its flow. */
  lemma QRRoundTrip(p: Payload)
    requires QRText(p).Ok?
    ensures FromQRText(QRText(p).value)
         == if Allowed(p.passcode) then Ok(p.(version := p.version % 8, flow := p.flow % 4))
            else Err(DisallowedPasscode)
  {
    hide Pack, Base38.Encoded, Base38.Decoded, Allowed, PayloadAt;
    var buf := LE(Pack(Fields(p)), PACKED_LENGTH);
    var code := QRText(p).value;
    assert code[..3] == PREFIX && code[3..] == Base38.Encoded(buf);
    Base38.DecodeEncode(buf);
    PackedPayload(p);
  }

  lemma QRTextShape(p: Payload)
    requires p.passcode <= 0x7FF_FFFF && p.discriminator <= 0xFFF
    ensures QRText(p).Ok? && |QRText(p).value| == 22 && QRText(p).value[..3] == PREFIX
  {
    hide Pack, LE, Base38.Encoded;
    Base38.EncodedLength(LE(Pack(Fields(p)), PACKED_LENGTH));
  }

  /** Exactly the payloads that survive. */
  lemma QRFaithful(p: Payload)
    ensures QRText(p).Ok? && FromQRText(QRText(p).value) == Ok(p)
       <==> && p.passcode <= 0x7FF_FFFF && p.discriminator <= 0xFFF && Allowed(p.passcode)
            && p.version < 8 && p.flow < 4
  {
    hide FromQRText, Allowed, Fields, LE, Pack, Base38.Encoded;
    if QRText(p).Ok? { QRRoundTrip(p); }
  }

  // ----- the layout in plain numbers -----------------------------------------------------------

  lemma PackTwo(a: Field, b: Field, rest: seq<Field>)
    ensures Pack([a, b] + rest)
         == a.value % Pow2(a.width) + Pow2(a.width) * (b.value % Pow2(b.width) + Pow2(b.width) * Pack(rest))
  {
    hide Pow2;
    assert ([a, b] + rest)[1..] == [b] + rest && ([b] + rest)[1..] == rest;
  }

  /** Version, vendor, product, flow, capabilities, discriminator and passcode, from the lowest bit up. */
  lemma PackedFields(p: Payload)
    requires p.discriminator < 0x1000 && p.passcode < 0x800_0000
    ensures Pack(Fields(p))
         == p.version % 8 + 0x8 * p.vendorID + 0x8_0000 * p.productID + 0x8_0000_0000 * (p.flow % 4)
          + 0x20_0000_0000 * p.capabilities + 0x2000_0000_0000 * p.discriminator
          + 0x200_0000_0000_0000 * p.passcode
  {
    hide Pack, Pow2;
    WidthTable();
    var version, vendor, product := Field(3, p.version), Field(16, p.vendorID), Field(16, p.productID);
    var flow, capabilities := Field(2, p.flow), Field(8, p.capabilities);
    var discriminator, passcode := Field(12, p.discriminator), Field(27, p.passcode);
    var last := [passcode];
    assert Pack(last) == p.passcode by { PackNothing(passcode); }
    PackTwo(capabilities, discriminator, last);
    PackTwo(product, flow, [capabilities, discriminator] + last);
    PackTwo(version, vendor, [product, flow] + ([capabilities, discriminator] + last));
    assert Fields(p) == [version, vendor] + ([product, flow] + ([capabilities, discriminator] + last));
  }

  lemma PackNothing(f: Field)
    ensures Pack([f]) == f.value % Pow2(f.width)
  {
    hide Pow2;
    assert [f][1..] == [];
  }

  /** The passcodes that are refused. */
  lemma RefusedPasscodes(passcode: u32)
    ensures !Allowed(passcode) <==>
              || (passcode % 11111111 == 0 && passcode <= 99999999)
              || passcode == 12345678 || passcode == 87654321
  {
    if passcode % 11111111 == 0 && passcode <= 99999999 {
      var k := passcode / 11111111;
      assert passcode == 11111111 * k && 0 <= k <= 9;
      assert k > 0 ==> DISALLOWED[k - 1] == passcode;
    }
    assert DISALLOWED[9] == 12345678 && DISALLOWED[10] == 87654321;
  }

  /** A code of fewer bytes reads as if its missing high bits were zero. */
  lemma PaddingAddsNothing(buf: seq<byte>)
    ensures |Padded(buf)| >= 11 && FromLE(Padded(buf)) == FromLE(buf) && buf <= Padded(buf)
  {
    if |buf| < PACKED_LENGTH { ZeroPadding(buf, PACKED_LENGTH - |buf|); }
  }

  const EXAMPLE := Payload(0, 0xFFF1, 0x8000, 0, 2, 3840, 20202021)
  const EXAMPLE_BYTES: seq<byte> := [0x88, 0xFF, 0x07, 0x00, 0x44, 0x00, 0xE0, 0x4B, 0x84, 0x68, 0x02]

  lemma FirstBytes()
    ensures LE(0x2_6884_4BE0_0044_0007_FF88, 11) == [0x88, 0xFF, 0x07, 0x00] + LE(0x2_6884_4BE0_0044, 7)
  {
    hide LE;
    LEFront(0x2_6884_4BE0_0044_0007_FF88, 11, 0x88, 0x268_844B_E000_4400_07FF);
    LEFront(0x268_844B_E000_4400_07FF, 10, 0xFF, 0x2_6884_4BE0_0044_0007);
    LEFront(0x2_6884_4BE0_0044_0007, 9, 0x07, 0x268_844B_E000_4400);
    LEFront(0x268_844B_E000_4400, 8, 0x00, 0x2_6884_4BE0_0044);
  }

  lemma MiddleBytes()
    ensures LE(0x2_6884_4BE0_0044, 7) == [0x44, 0x00, 0xE0, 0x4B] + LE(0x2_6884, 3)
  {
    hide LE;
    LEFront(0x2_6884_4BE0_0044, 7, 0x44, 0x268_844B_E000);
    LEFront(0x268_844B_E000, 6, 0x00, 0x2_6884_4BE0);
    LEFront(0x2_6884_4BE0, 5, 0xE0, 0x268_844B);
    LEFront(0x268_844B, 4, 0x4B, 0x2_6884);
  }

  lemma LastBytes()
    ensures LE(0x2_6884, 3) == [0x84, 0x68, 0x02]
  {
    hide LE;
    LEFront(0x2_6884, 3, 0x84, 0x268);
    LEFront(0x268, 2, 0x68, 0x2);
    LEFront(0x2, 1, 0x02, 0);
    LEOfNothing();
  }

  lemma ExampleBytes()
    ensures LE(Pack(Fields(EXAMPLE)), PACKED_LENGTH) == EXAMPLE_BYTES
  {
    hide Pack, Fields, LE, FromLE;
    PackedFields(EXAMPLE);
    FirstBytes();
    MiddleBytes();
    LastBytes();
  }

  lemma FirstCharacters()
    ensures Base38.Encoded(EXAMPLE_BYTES) == "Y.K90" + Base38.Encoded(EXAMPLE_BYTES[3..])
  {
    hide Base38.Encoded;
    assert EXAMPLE_BYTES == [0x88, 0xFF, 0x07] + EXAMPLE_BYTES[3..];
    Base38.ThreeByteText(0x88, 0xFF, 0x07, EXAMPLE_BYTES[3..], 34, 37, 20, 9, 0);
  }

  lemma MiddleCharacters()
    ensures Base38.Encoded(EXAMPLE_BYTES[3..]) == "42C00" + Base38.Encoded(EXAMPLE_BYTES[6..])
  {
    hide Base38.Encoded;
    assert EXAMPLE_BYTES[3..] == [0x00, 0x44, 0x00] + EXAMPLE_BYTES[6..];
    Base38.ThreeByteText(0x00, 0x44, 0x00, EXAMPLE_BYTES[6..], 4, 2, 12, 0, 0);
  }

  lemma LastCharacters()
    ensures Base38.Encoded(EXAMPLE_BYTES[6..]) == "KA064" + "8G00"
  {
    hide Base38.Encoded;
    assert EXAMPLE_BYTES[6..] == [0xE0, 0x4B, 0x84] + [0x68, 0x02];
    Base38.ThreeByteText(0xE0, 0x4B, 0x84, [0x68, 0x02], 20, 10, 0, 6, 4);
    Base38.TwoByteText(0x68, 0x02, 8, 16, 0, 0);
  }

  lemma ExampleText()
    ensures Base38.Encoded(EXAMPLE_BYTES) == "Y.K9042C00KA0648G00"
  {
    hide Base38.Encoded, EXAMPLE_BYTES;
    FirstCharacters();
    MiddleCharacters();
    LastCharacters();
  }

  /** The QR code of a known payload. */
  lemma ExampleQRCode()
    ensures QRText(EXAMPLE) == Ok("MT:Y.K9042C00KA0648G00")
  {
    hide Pack, Fields, LE, Base38.Encoded;
    ExampleBytes();
    ExampleText();
    assert PREFIX + "Y.K9042C00KA0648G00" == "MT:Y.K9042C00KA0648G00";
  }

  // ----- the two operations ------------------------------------------------------------------

  /** One more field written behind those already there. */
  lemma FieldWritten(fields: seq<Field>, k: nat, before: seq<byte>, after: seq<byte>)
    requires k < |fields| && FromLE(before) == Pack(fields[..k])
    requires Written(before, after, TotalWidth(fields[..k]), fields[k].width, fields[k].value)
    ensures FromLE(after) == Pack(fields[..k + 1])
  {
    hide Written, Pack, TotalWidth, FromLE, Pow2;
    PackFits(fields[..k]);
    WriteAddsField(before, after, TotalWidth(fields[..k]), fields[k].width, fields[k].value);
    assert fields[..k + 1] == fields[..k] + [fields[k]];
    PackSnoc(fields[..k], fields[k]);
  }

  method PackBits(p: Payload) returns (bits: array<byte>)
    ensures bits.Length == PACKED_LENGTH && bits[..] == LE(Pack(Fields(p)), PACKED_LENGTH)
  {
    hide Written, Pack, TotalWidth, FromLE, LE;
    bits := new byte[PACKED_LENGTH](_ => 0);
    ghost var fs := Fields(p);
    Layout(p);
    NothingPacked(bits[..], fs);
    ghost var b0 := bits[..];
    WriteBits(bits, 0, 3, p.version);
    FieldWritten(fs, 0, b0, bits[..]);
    ghost var b1 := bits[..];
    WriteBits(bits, 3, 16, p.vendorID);
    FieldWritten(fs, 1, b1, bits[..]);
    ghost var b2 := bits[..];
    WriteBits(bits, 19, 16, p.productID);
    FieldWritten(fs, 2, b2, bits[..]);
    ghost var b3 := bits[..];
    WriteBits(bits, 35, 2, p.flow);
    FieldWritten(fs, 3, b3, bits[..]);
    ghost var b4 := bits[..];
    WriteBits(bits, 37, 8, p.capabilities);
    FieldWritten(fs, 4, b4, bits[..]);
    ghost var b5 := bits[..];
    WriteBits(bits, 45, 12, p.discriminator);
    FieldWritten(fs, 5, b5, bits[..]);
    ghost var b6 := bits[..];
    WriteBits(bits, 57, 27, p.passcode);
    FieldWritten(fs, 6, b6, bits[..]);
    assert fs[..7] == fs;
    FromLERoundTrip(bits[..]);
  }

  lemma NothingPacked(buf: seq<byte>, fields: seq<Field>)
    requires forall i :: 0 <= i < |buf| ==> buf[i] == 0
    ensures FromLE(buf) == Pack(fields[..0])
  {
    ZeroPadding([], |buf|);
    assert buf == [] + seq(|buf|, _ => 0);
  }

  method QRCode(p: Payload) returns (r: Result<string>)
    ensures r == QRText(p)
  {
    if p.passcode > 0x7FF_FFFF { return Err(PasscodeTooLarge); }
    if p.discriminator > 0xFFF { return Err(DiscriminatorTooLarge); }
    var bits := PackBits(p);
    var encoded := Base38.Encode(bits[..]);
    r := Ok(PREFIX + encoded);
  }

  /** Reads one field; the buffer is long enough for all of them. */
  method ReadField(buf: seq<byte>, at: nat, width: nat) returns (value: nat)
    requires at + width <= 8 * |buf|
    ensures value == FieldAt(buf, at, width)
  {
    value := ReadBits(buf, at, width);
    ReadIsField(buf, at, width, value);
  }

  method ParseQRCode(code: string) returns (r: Result<Payload>)
    ensures r == FromQRText(code)
  {
    hide FieldAt, Allowed, Pow2;
    if !(PREFIX <= code) {
      return Err(MissingPrefix);
    }
    var decoded := Base38.Decode(code[3..]);
    if decoded.Err? {
      return Err(InvalidBase38(decoded.error));
    }
    var bits := decoded.data;
    if |bits| < PACKED_LENGTH {
      bits := bits + seq(PACKED_LENGTH - |bits|, _ => 0);
    }
    WidthTable();
    var version := ReadField(bits, 0, 3);
    var vendorID := ReadField(bits, 3, 16);
    var productID := ReadField(bits, 19, 16);
    var flow := ReadField(bits, 35, 2);
    var capabilities := ReadField(bits, 37, 8);
    var discriminator := ReadField(bits, 45, 12);
    var passcode := ReadField(bits, 57, 27);
    assert PayloadAt(bits) == Payload(version, vendorID, productID, flow, capabilities, discriminator, passcode);
    var ok := ValidatePasscode(passcode);
    if !ok {
      return Err(DisallowedPasscode);
    }
    r := Ok(Payload(version, vendorID, productID, flow, capabilities, discriminator, passcode));
  }
}
