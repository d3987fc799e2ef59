/**
 * The TLV encoding as bytes on the wire (Appendix A of the Matter Core Specification; internal/tlv): every element
 * type, width, container and tag form, written and read, in numbers.
 */
module TlvWire {
  import opened Bytes
  import opened TlvElement
  import opened TlvReader
  import opened TlvTree

  /** The encoding of a value without a tag. */
  function Untagged(v: Value): seq<byte> {
    ElementBytes(Element(NO_TAG, TypeOf(v), v))
  }

  lemma TwoLowBytesFirst()
    ensures LE(0x0102, 2) == [0x02, 0x01]
  {
    hide LE;
    LEFront(0x0102, 2, 0x02, 0x01);
    LEFront(0x01, 1, 0x01, 0);
    LEOfNothing();
  }

  lemma FourLowBytesFirst()
    ensures LE(0x0102_0304, 4) == [0x04, 0x03, 0x02, 0x01]
  {
    hide LE;
    LEFront(0x0102_0304, 4, 0x04, 0x0102_03);
    LEFront(0x0102_03, 3, 0x03, 0x0102);
    TwoLowBytesFirst();
  }

  lemma EightLowBytesFirst()
    ensures LE(0x0102_0304_0506_0708, 8) == [0x08, 0x07, 0x06, 0x05, 0x04, 0x03, 0x02, 0x01]
  {
    hide LE;
    LEFront(0x0102_0304_0506_0708, 8, 0x08, 0x0102_0304_0506_07);
    LEFront(0x0102_0304_0506_07, 7, 0x07, 0x0102_0304_0506);
    LEFront(0x0102_0304_0506, 6, 0x06, 0x0102_0304_05);
    LEFront(0x0102_0304_05, 5, 0x05, 0x0102_0304);
    FourLowBytesFirst();
  }

  lemma UntaggedBytes(v: Value)
    ensures Untagged(v) == [TypeOf(v)] + ValueBytes(v)
  {
    hide TypeOf, ValueBytes;
    ControlByteIsSum(ANONYMOUS, TypeOf(v));
    assert TagBytes(NO_TAG) == [];
  }

  // ----- writing ---------------------------------------------------------------------

  /** Booleans and null have no value bytes. */
  lemma BareValues()
    ensures Untagged(Bool(false)) == [0x08] && Untagged(Bool(true)) == [0x09] && Untagged(Nil) == [0x14]
  {
    UntaggedBytes(Bool(false));
    UntaggedBytes(Bool(true));
    UntaggedBytes(Nil);
  }

  lemma SignedBytes(i: i64)
    ensures Untagged(SInt(i))
         == if -0x80 <= i < 0x80 then [0x00] + LE(i, 1)
            else if -0x8000 <= i < 0x8000 then [0x01] + LE(i, 2)
            else if -0x8000_0000 <= i < 0x8000_0000 then [0x02] + LE(i, 4)
            else [0x03] + LE(i, 8)
  {
    hide LE, Untagged;
    UntaggedBytes(SInt(i));
  }

  lemma UnsignedBytes(u: u64)
    ensures Untagged(UInt(u))
         == if u < 0x100 then [0x04] + LE(u, 1)
            else if u < 0x1_0000 then [0x05] + LE(u, 2)
            else if u < 0x1_0000_0000 then [0x06] + LE(u, 4)
            else [0x07] + LE(u, 8)
  {
    hide LE, Untagged;
    UntaggedBytes(UInt(u));
  }

  lemma FloatBytes(single: u32, double: u64)
    ensures Untagged(Float32(single)) == [0x0A] + LE(single, 4)
    ensures Untagged(Float64(double)) == [0x0B] + LE(double, 8)
  {
    hide LE, Untagged;
    UntaggedBytes(Float32(single));
    UntaggedBytes(Float64(double));
  }

  /** The byte `first` announces a one-byte length, the three codes after it longer ones. */
  function Lengthened(first: byte, data: seq<byte>): seq<byte>
    requires first < 0xFD
  {
    if |data| < 0x100 then [first] + (LE(|data|, 1) + data)
    else if |data| < 0x1_0000 then [first + 1] + (LE(|data|, 2) + data)
    else if |data| < 0x1_0000_0000 then [first + 2] + (LE(|data|, 4) + data)
    else [first + 3] + (LE(|data|, 8) + data)
  }

  lemma StringBytes(data: seq<byte>)
    ensures Untagged(Utf8(data)) == Lengthened(0x0C, data)
    ensures Untagged(Octets(data)) == Lengthened(0x10, data)
  {
    hide LE, Untagged;
    UntaggedBytes(Utf8(data));
    UntaggedBytes(Octets(data));
  }

  lemma ContainerCodes(ty: byte)
    ensures IsContainer(ty) <==> 0x15 <= ty <= 0x17
    ensures STRUCTURE == 0x15 && ARRAY == 0x16 && LIST == 0x17 && END_OF_CONTAINER == 0x18
  {
  }

  /** Structures, arrays and lists, and their end. */
  lemma ContainerBytes(kids: seq<Tree>)
    ensures Encode(Node(NO_TAG, 0x15, kids)) == [0x15] + EncodeAll(kids) + [0x18]
    ensures Encode(Node(NO_TAG, 0x16, kids)) == [0x16] + EncodeAll(kids) + [0x18]
    ensures Encode(Node(NO_TAG, 0x17, kids)) == [0x17] + EncodeAll(kids) + [0x18]
  {
    OpeningByte(0x15);
    OpeningByte(0x16);
    OpeningByte(0x17);
    hide Encode, EncodeAll, ElementBytes;
    EncodeNode(NO_TAG, 0x15, kids);
    EncodeNode(NO_TAG, 0x16, kids);
    EncodeNode(NO_TAG, 0x17, kids);
  }

  lemma OpeningByte(kind: byte)
    requires kind < 0x20
    ensures ElementBytes(Element(NO_TAG, kind, Nil)) == [kind]
  {
    ControlByteIsSum(ANONYMOUS, kind);
    assert TagBytes(NO_TAG) == [] && ValueBytes(Nil) == [];
  }

  /** The null element under a tag of each form. */
  function NullTagged(form: byte, vendorID: u16, profileNum: u16, tagNum: u32): seq<byte> {
    ElementBytes(Element(Tag(form, vendorID, profileNum, tagNum), 0x14, Nil))
  }

  lemma TaggedBytes(form: byte, vendorID: u16, profileNum: u16, tagNum: u32)
    requires IsForm(form)
    ensures NullTagged(form, vendorID, profileNum, tagNum)
         == [form + 0x14] + TagBytes(Tag(form, vendorID, profileNum, tagNum))
  {
    hide TagBytes;
    ControlByteIsSum(form, 0x14);
    assert ValueBytes(Nil) == [];
  }

  lemma TagForms(v: u16, p: u16, n: u32)
    ensures NullTagged(0x00, v, p, n) == [0x14]
    ensures NullTagged(0x20, v, p, n) == [0x34] + LE(n, 1)
    ensures NullTagged(0x40, v, p, n) == [0x54] + LE(n, 2)
    ensures NullTagged(0x60, v, p, n) == [0x74] + LE(n, 4)
    ensures NullTagged(0x80, v, p, n) == [0x94] + LE(n, 2)
    ensures NullTagged(0xA0, v, p, n) == [0xB4] + LE(n, 4)
    ensures NullTagged(0xC0, v, p, n) == [0xD4] + (LE(v, 2) + LE(p, 2) + LE(n, 2))
    ensures NullTagged(0xE0, v, p, n) == [0xF4] + (LE(v, 2) + LE(p, 2) + LE(n, 4))
  {
    hide LE, NullTagged;
    TaggedBytes(0x00, v, p, n);
    TaggedBytes(0x20, v, p, n);
    TaggedBytes(0x40, v, p, n);
    TaggedBytes(0x60, v, p, n);
    TaggedBytes(0x80, v, p, n);
    TaggedBytes(0xA0, v, p, n);
    TaggedBytes(0xC0, v, p, n);
    TaggedBytes(0xE0, v, p, n);
  }

  /** A whole message: the structure {1: 5, 2: true}. */
  lemma SmallStructure(a: Tree, b: Tree)
    requires a == Leaf(ContextTag(1), UInt(5)) && b == Leaf(ContextTag(2), Bool(true))
    ensures Encode(Node(NO_TAG, 0x15, [a, b])) == [0x15, 0x24, 0x01, 0x05, 0x29, 0x02, 0x18]
  {
    hide *;
    ContainerBytes([a, b]);
    TwoFields(a, b);
    FieldBytes();
    SevenBytes(Encode(a), Encode(b));
  }

  lemma SevenBytes(a: seq<byte>, b: seq<byte>)
    requires a == [0x24, 0x01, 0x05] && b == [0x29, 0x02]
    ensures [0x15] + (a + b) + [0x18] == [0x15, 0x24, 0x01, 0x05, 0x29, 0x02, 0x18]
  {
  }

  lemma TwoFields(a: Tree, b: Tree)
    ensures EncodeAll([a, b]) == Encode(a) + Encode(b)
  {
    hide Encode, EncodeAll;
    EncodeCons(a, [b]);
    EncodeCons(b, []);
    NoBytes();
    assert [a] + [b] == [a, b] && [b] + [] == [b];
  }

  lemma NoBytes()
    ensures EncodeAll([]) == []
  {
  }

  lemma FieldBytes()
    ensures Encode(Leaf(ContextTag(1), UInt(5))) == [0x24, 0x01, 0x05]
    ensures Encode(Leaf(ContextTag(2), Bool(true))) == [0x29, 0x02]
  {
    EncodeLeaf(ContextTag(1), UInt(5));
    EncodeLeaf(ContextTag(2), Bool(true));
    ControlByteIsSum(CONTEXT, 0x04);
    ControlByteIsSum(CONTEXT, 0x09);
    assert LE(1, 1) == [1] && LE(2, 1) == [2] && LE(5, 1) == [5];
  }

  // ----- reading -----------------------------------------------------------------------

  /** The bytes that a code 0 to 3 above the first of its family announces. */
  function Width(k: nat): nat
    requires k < 4
  {
    if k == 0 then 1 else if k == 1 then 2 else if k == 2 then 4 else 8
  }

  /** Integers are read in every width, also a wider one than they need. */
  lemma IntegersRead(k: byte, i: i64, u: u64, rest: seq<byte>)
    requires k < 4
    ensures -Pow256(Width(k)) <= 2 * i < Pow256(Width(k)) ==>
              ScanValue(0x00 + k, LE(i, Width(k)) + rest) == GotValue(SInt(i), Width(k))
    ensures u < Pow256(Width(k)) ==>
              ScanValue(0x04 + k, LE(u, Width(k)) + rest) == GotValue(UInt(u), Width(k))
  {
    hide LE, FromLE, Pow256;
    var n := Width(k);
    assert FieldWidth(k) == n && FieldWidth(0x04 + k) == n;
    assert (LE(i, n) + rest)[..n] == LE(i, n) && (LE(u, n) + rest)[..n] == LE(u, n);
    if -Pow256(n) <= 2 * i < Pow256(n) { SignedRoundTrip(i, n); }
    if u < Pow256(n) { LERoundTrip(u, n); }
  }

  /** And so are strings, whatever the width of their length. */
  lemma StringsRead(ty: byte, n: nat, data: seq<byte>, rest: seq<byte>)
    requires || (n == 1 && (ty == 0x0C || ty == 0x10)) || (n == 2 && (ty == 0x0D || ty == 0x11))
             || (n == 4 && (ty == 0x0E || ty == 0x12)) || (n == 8 && (ty == 0x0F || ty == 0x13))
    requires |data| < Pow256(n) && |data| <= 0x1_0000_0000_0000
    ensures ScanValue(ty, LE(|data|, n) + data + rest)
         == GotValue(if ty < 0x10 then Utf8(data) else Octets(data), n + |data|)
  {
    hide *;
    StringKinds(ty);
    StringValue(ty, n, LE(|data|, n) + data + rest);
    StringRoundTrip(ty, n, data, rest);
  }

  lemma StringValue(ty: byte, n: nat, s: seq<byte>)
    requires 0x0C <= ty < 0x14
    requires n == if ty % 4 == 0 then 1 else if ty % 4 == 1 then 2 else if ty % 4 == 2 then 4 else 8
    ensures ScanValue(ty, s) == ScanString(ty, s, n)
  {
  }

  lemma StringKinds(ty: byte)
    ensures (ty < OCTET_STRING1 <==> ty < 0x10) && MAX_ALLOCATION == 0x1_0000_0000_0000
  {
  }

  lemma OthersRead(single: u32, double: u64, rest: seq<byte>)
    ensures ScanValue(0x08, rest) == GotValue(Bool(false), 0) && ScanValue(0x09, rest) == GotValue(Bool(true), 0)
    ensures ScanValue(0x0A, LE(single, 4) + rest) == GotValue(Float32(single), 4)
    ensures ScanValue(0x0B, LE(double, 8) + rest) == GotValue(Float64(double), 8)
    ensures ScanValue(0x14, rest) == GotValue(Nil, 0)
    ensures forall ty: byte :: ty >= 0x15 ==> ScanValue(ty, rest) == BadValue(InvalidType, 0)
  {
    hide LE, FromLE;
    PowerTable();
    LERoundTrip(single, 4);
    LERoundTrip(double, 8);
    assert (LE(single, 4) + rest)[..4] == LE(single, 4) && (LE(double, 8) + rest)[..8] == LE(double, 8);
  }

  /** What the reader answers to input that ends early or is no encoding. */
  lemma ReadingFails(st: ReaderState)
    ensures st.done ==> NextStep(st) == (st, EOF)
    ensures !st.done && st.rest == [] ==> NextStep(st) == (st.(done := true), EOF)
    ensures !st.done && st.rest == [0x18] && st.containers == [] ==> NextStep(st).1 == Fault(ContainerMismatch)
    ensures !st.done && st.rest == [0x19] ==> NextStep(st).1 == Fault(InvalidType)
    ensures !st.done && st.rest == [0x24] ==> NextStep(st).1 == Fault(UnexpectedEOF)
    ensures !st.done && st.rest == [0x04] ==> NextStep(st).1 == Fault(UnexpectedEOF)
    ensures !st.done && st.rest == [0x0C] ==> NextStep(st).1 == Fault(UnexpectedEOF)
    ensures !st.done && st.rest == [0x0C, 2, 0x41] ==> NextStep(st).1 == Fault(UnexpectedEOF)
  {
    if !st.done && st.rest == [0x0C, 2, 0x41] {
      CutString();
    }
  }

  lemma CutString()
    ensures Scan([0x0C, 2, 0x41]) == Bad(UnexpectedEOF, 3)
  {
    var s: seq<byte> := [0x0C, 2, 0x41];
    assert s[1..][..1] == [2];
    assert FromLE([2]) == 2 by { assert [2][1..] == []; }
  }

  lemma BareElement(ty: byte)
    requires 0x15 <= ty <= 0x18
    ensures Scan([ty]) == Got(Element(NO_TAG, ty, Nil), 1)
  {
    FromNoBytes();
    hide FromLE;
    assert [ty][1..1] == [] && [ty][1..] == [];
    assert TagSize(ANONYMOUS) == 0 && ty % 0x20 == ty;
  }

  /** A container's start opens it and an end-of-container closes the innermost one. */
  lemma ContainersOpenAndClose(st: ReaderState, kind: byte)
    requires !st.done && 0x15 <= kind <= 0x17
    ensures st.rest == [kind] ==>
              NextStep(st) == (ReaderState([], st.containers + [kind], Element(NO_TAG, kind, Nil), false), Read)
    ensures st.rest == [0x18] && st.containers != [] ==>
              var outer := st.containers[..|st.containers| - 1];
              NextStep(st) == (ReaderState([], outer, Element(NO_TAG, 0x18, Nil), false), Read)
  {
    hide Scan;
    BareElement(kind);
    BareElement(0x18);
    assert [kind][1..] == [] && [0x18 as byte][1..] == [];
  }

  lemma FromNoBytes()
    ensures FromLE([]) == 0
  {
  }

  // ----- what can be written ---------------------------------------------------------------------

  /** Which tags survive, by form. */
  lemma TagsThatFit(form: byte, vendorID: u16, profileNum: u16, tagNum: u32)
    ensures TagFits(Tag(form, vendorID, profileNum, tagNum)) <==>
              || (form == 0x00 && vendorID == 0 && profileNum == 0 && tagNum == 0)
              || (form == 0x20 && vendorID == 0 && profileNum == 0 && tagNum <= 0xFF)
              || ((form == 0x40 || form == 0x80) && vendorID == 0 && profileNum == 0 && tagNum <= 0xFFFF)
              || ((form == 0x60 || form == 0xA0) && vendorID == 0 && profileNum == 0)
              || (form == 0xC0 && tagNum <= 0xFFFF)
              || form == 0xE0
  {
  }

  /** Which trees: three kinds of container over trees that fit, and any value but a string beyond 2^48 bytes. */
  lemma TreesThatFit(tag: Tag, v: Value, kind: byte, children: seq<Tree>)
    ensures Fits(Leaf(tag, v)) <==>
              && TagFits(tag)
              && (v.Utf8? ==> |v.text| <= 0x1_0000_0000_0000) && (v.Octets? ==> |v.data| <= 0x1_0000_0000_0000)
    ensures Fits(Node(tag, kind, children)) <==>
              TagFits(tag) && 0x15 <= kind <= 0x17 && forall i :: 0 <= i < |children| ==> Fits(children[i])
  {
    assert forall c :: c in children <==> exists i :: 0 <= i < |children| && children[i] == c;
  }
}
