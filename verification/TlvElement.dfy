/**
 * TLV elements (Appendix A of the Matter Core Specification): the bytes of one element,
 * and what one element read off the front of a byte string is.
 */
module TlvElement {
  import opened Bytes

  // Element types: the low five bits of the control byte.
  const SIGNED_INT8: byte := 0x00
  const SIGNED_INT16: byte := 0x01
  const SIGNED_INT32: byte := 0x02
  const SIGNED_INT64: byte := 0x03
  const UNSIGNED_INT8: byte := 0x04
  const UNSIGNED_INT16: byte := 0x05
  const UNSIGNED_INT32: byte := 0x06
  const UNSIGNED_INT64: byte := 0x07
  const BOOL_FALSE: byte := 0x08
  const BOOL_TRUE: byte := 0x09
  const FLOAT32: byte := 0x0A
  const FLOAT64: byte := 0x0B
  const UTF8_STRING1: byte := 0x0C
  const UTF8_STRING8: byte := 0x0F
  const OCTET_STRING1: byte := 0x10
  const OCTET_STRING8: byte := 0x13
  const NULL: byte := 0x14
  const STRUCTURE: byte := 0x15
  const ARRAY: byte := 0x16
  const LIST: byte := 0x17
  const END_OF_CONTAINER: byte := 0x18

  // The most bytes the Go runtime lets one allocation ask for, on the usual 64-bit platforms.
  const MAX_ALLOCATION: nat := 0x1_0000_0000_0000

  // Tag forms: the high three bits of the control byte.
  const ANONYMOUS: byte := 0x00
  const CONTEXT: byte := 0x20
  const COMMON_PROFILE2: byte := 0x40
  const COMMON_PROFILE4: byte := 0x60
  const IMPLICIT_PROFILE2: byte := 0x80
  const IMPLICIT_PROFILE4: byte := 0xA0
  const FULLY_QUALIFIED6: byte := 0xC0
  const FULLY_QUALIFIED8: byte := 0xE0

  datatype Tag = Tag(form: byte, vendorID: u16, profileNum: u16, tagNum: u32)

  const NO_TAG := Tag(ANONYMOUS, 0, 0, 0)

  function ContextTag(n: byte): Tag {
    Tag(CONTEXT, 0, 0, n)
  }

  /** An element's value.  `Nil` is both the null element and what containers carry. */
  datatype Value =
    | Nil
    | SInt(i: i64)
    | UInt(u: u64)
    | Bool(b: bool)
    | Float32(bits32: u32)
    | Float64(bits64: u64)
    | Utf8(text: seq<byte>)
    | Octets(data: seq<byte>)

  datatype Element = Element(tag: Tag, ty: byte, value: Value)

  datatype TlvError =
    | InvalidTag
    | InvalidType
    | ContainerMismatch
    | UnexpectedEOF
    | LengthPanic  // a length no allocation can have makes the allocation panic

  // ----- writing ---------------------------------------------------------------------

  predicate IsForm(form: byte) {
    form % 0x20 == 0
  }

  predicate IsContainer(ty: byte) {
    ty == STRUCTURE || ty == ARRAY || ty == LIST
  }

  function TagSize(form: byte): (n: nat)
    ensures n <= 8
  {
    if form == CONTEXT then 1
    else if form == COMMON_PROFILE2 || form == IMPLICIT_PROFILE2 then 2
    else if form == COMMON_PROFILE4 || form == IMPLICIT_PROFILE4 then 4
    else if form == FULLY_QUALIFIED6 then 6
    else if form == FULLY_QUALIFIED8 then 8
    else 0
  }

  /** The tag bytes; a tag number too wide for its form loses its high bytes. */
  function TagBytes(tag: Tag): (s: seq<byte>)
    ensures |s| == TagSize(tag.form)
  {
    if tag.form == CONTEXT then LE(tag.tagNum, 1)
    else if tag.form == COMMON_PROFILE2 || tag.form == IMPLICIT_PROFILE2 then LE(tag.tagNum, 2)
    else if tag.form == COMMON_PROFILE4 || tag.form == IMPLICIT_PROFILE4 then LE(tag.tagNum, 4)
    else if tag.form == FULLY_QUALIFIED6 then LE(tag.vendorID, 2) + LE(tag.profileNum, 2) + LE(tag.tagNum, 2)
    else if tag.form == FULLY_QUALIFIED8 then LE(tag.vendorID, 2) + LE(tag.profileNum, 2) + LE(tag.tagNum, 4)
    else []
  }

  function SignedType(i: i64): byte {
    if -0x80 <= i < 0x80 then SIGNED_INT8
    else if -0x8000 <= i < 0x8000 then SIGNED_INT16
    else if -0x8000_0000 <= i < 0x8000_0000 then SIGNED_INT32
    else SIGNED_INT64
  }

  function UnsignedType(u: u64): byte {
    if u < 0x100 then UNSIGNED_INT8
    else if u < 0x1_0000 then UNSIGNED_INT16
    else if u < 0x1_0000_0000 then UNSIGNED_INT32
    else UNSIGNED_INT64
  }

  /** The string type with the narrowest length field; `base` is the one-byte-length type. */
  function StringType(length: nat, base: byte): (ty: byte)
    requires base == UTF8_STRING1 || base == OCTET_STRING1
  {
    if length < 0x100 then base
    else if length < 0x1_0000 then base + 1
    else if length < 0x1_0000_0000 then base + 2
    else base + 3
  }

  function TypeOf(v: Value): (ty: byte)
    ensures ty < END_OF_CONTAINER && !IsContainer(ty)
  {
    match v
    case Nil => NULL
    case SInt(i) => SignedType(i)
    case UInt(u) => UnsignedType(u)
    case Bool(b) => if b then BOOL_TRUE else BOOL_FALSE
    case Float32(_) => FLOAT32
    case Float64(_) => FLOAT64
    case Utf8(s) => StringType(|s|, UTF8_STRING1)
    case Octets(s) => StringType(|s|, OCTET_STRING1)
  }

  /** Bytes in the integer or length field of a type: 1, 2, 4 or 8 by its low two bits. */
  function FieldWidth(ty: byte): (n: nat)
    ensures n == 1 || n == 2 || n == 4 || n == 8
  {
    if ty % 4 == 0 then 1 else if ty % 4 == 1 then 2 else if ty % 4 == 2 then 4 else 8
  }

  function ValueBytes(v: Value): seq<byte> {
    match v
    case Nil => []
    case SInt(i) => LE(i, FieldWidth(TypeOf(v)))
    case UInt(u) => LE(u, FieldWidth(TypeOf(v)))
    case Bool(_) => []
    case Float32(bits) => LE(bits, 4)
    case Float64(bits) => LE(bits, 8)
    case Utf8(s) => LE(|s|, FieldWidth(TypeOf(v))) + s
    case Octets(s) => LE(|s|, FieldWidth(TypeOf(v))) + s
  }

  /** `tagType | elementType`. */
  function ControlByte(form: byte, ty: byte): byte {
    assert Pow2(8) == 256;
    Or(form, ty, 8)
  }

  function ElementBytes(e: Element): seq<byte> {
    [ControlByte(e.tag.form, e.ty)] + TagBytes(e.tag) + ValueBytes(e.value)
  }

  // ----- reading ---------------------------------------------------------------------

  /** One element taken off the front of a byte string, with the number of bytes consumed. */
  datatype Scanned =
    | Got(elem: Element, used: nat)
    | Bad(error: TlvError, used: nat)
    | AtEOF

  datatype ScannedValue =
    | GotValue(value: Value, used: nat)
    | BadValue(error: TlvError, used: nat)

  function TagFromBytes(form: byte, s: seq<byte>): Tag
    requires |s| == TagSize(form)
  {
    PowerTable();
    if form == FULLY_QUALIFIED6 || form == FULLY_QUALIFIED8 then
      Tag(form, FromLE(s[0..2]), FromLE(s[2..4]), FromLE(s[4..]))
    else
      Tag(form, 0, 0, FromLE(s))
  }

  function ScanFixed(ty: byte, s: seq<byte>, n: nat): (r: ScannedValue)
    requires n == 1 || n == 2 || n == 4 || n == 8
    requires ty < SIGNED_INT64 + 1 || ty < UNSIGNED_INT64 + 1 || ty == FLOAT32 || ty == FLOAT64
    requires ty == FLOAT32 ==> n == 4
    ensures r.used <= |s|
  {
    PowerTable();
    if |s| < n then BadValue(UnexpectedEOF, |s|)
    else if ty <= SIGNED_INT64 then GotValue(SInt(FromSignedLE(s[..n])), n)
    else if ty <= UNSIGNED_INT64 then GotValue(UInt(FromLE(s[..n])), n)
    else if ty == FLOAT32 then GotValue(Float32(FromLE(s[..n])), n)
    else GotValue(Float64(FromLE(s[..n])), n)
  }

  function ScanString(ty: byte, s: seq<byte>, n: nat): (r: ScannedValue)
    ensures r.used <= |s|
  {
    if |s| < n then BadValue(UnexpectedEOF, |s|)
    else
      var length := FromLE(s[..n]);
      if length > MAX_ALLOCATION then BadValue(LengthPanic, n)
      else if |s| < n + length then BadValue(UnexpectedEOF, |s|)
      else
        var data := s[n..n + length];
        GotValue(if ty < OCTET_STRING1 then Utf8(data) else Octets(data), n + length)
  }

  function ScanValue(ty: byte, s: seq<byte>): (r: ScannedValue)
    ensures r.used <= |s|
  {
    if ty <= UNSIGNED_INT64 then ScanFixed(ty, s, FieldWidth(ty))
    else if ty == BOOL_FALSE then GotValue(Bool(false), 0)
    else if ty == BOOL_TRUE then GotValue(Bool(true), 0)
    else if ty == FLOAT32 then ScanFixed(ty, s, 4)
    else if ty == FLOAT64 then ScanFixed(ty, s, 8)
    else if ty < NULL then ScanString(ty, s, FieldWidth(ty))
    else if ty == NULL then GotValue(Nil, 0)
    else BadValue(InvalidType, 0)
  }

  function Scan(s: seq<byte>): (r: Scanned)
    ensures r.AtEOF? <==> s == []
    ensures !r.AtEOF? ==> 1 <= r.used <= |s|
  {
    if s == [] then AtEOF
    else
      var ty := s[0] % 0x20;
      var form := s[0] - ty;
      var n := 1 + TagSize(form);
      if |s| < n then Bad(UnexpectedEOF, |s|)
      else
        ScanBody(TagFromBytes(form, s[1..n]), ty, s[n..], n)
  }

  /** The element after its control byte and tag, which took `n` bytes. */
  function ScanBody(tag: Tag, ty: byte, body: seq<byte>, n: nat): (r: Scanned)
    ensures !r.AtEOF? && n <= r.used <= n + |body|
  {
    if ty == END_OF_CONTAINER || IsContainer(ty) then Got(Element(tag, ty, Nil), n)
    else
      match ScanValue(ty, body)
      case GotValue(v, used) => Got(Element(tag, ty, v), n + used)
      case BadValue(error, used) => Bad(error, n + used)
  }

  // ----- the two agree ---------------------------------------------------------------

  /** The tags whose parts fit their form: exactly those that survive encoding. */
  predicate TagFits(tag: Tag) {
    && IsForm(tag.form)
    && (tag.form != FULLY_QUALIFIED6 && tag.form != FULLY_QUALIFIED8 ==> tag.vendorID == 0 && tag.profileNum == 0)
    && (tag.form == ANONYMOUS ==> tag.tagNum == 0)
    && (tag.form == CONTEXT ==> tag.tagNum < 0x100)
    && (tag.form == COMMON_PROFILE2 || tag.form == IMPLICIT_PROFILE2 || tag.form == FULLY_QUALIFIED6
        ==> tag.tagNum < 0x1_0000)
  }

  predicate ValueFits(v: Value) {
    && (v.Utf8? ==> |v.text| <= MAX_ALLOCATION)
    && (v.Octets? ==> |v.data| <= MAX_ALLOCATION)
  }

  lemma StringPanicsWhen(ty: byte, body: seq<byte>)
    requires UTF8_STRING1 <= ty < NULL
    ensures var r := ScanString(ty, body, FieldWidth(ty));
            (r.BadValue? && r.error == LengthPanic)
            <==> FieldWidth(ty) == 8 && |body| >= 8 && FromLE(body[..8]) > MAX_ALLOCATION
  {
    hide FromLE;
    PowerTable();
    var n := FieldWidth(ty);
    if |body| >= n && n < 8 {
      assert FromLE(body[..n]) < Pow256(n);
    }
  }

  lemma BodyPanicsWhen(tag: Tag, ty: byte, body: seq<byte>, n: nat)
    requires ty < 0x20
    ensures var r := ScanBody(tag, ty, body, n);
            (r.Bad? && r.error == LengthPanic)
            <==> (ty == UTF8_STRING8 || ty == OCTET_STRING8) && |body| >= 8 && FromLE(body[..8]) > MAX_ALLOCATION
  {
    hide FromLE, ScanFixed, ScanString;
    if UTF8_STRING1 <= ty < NULL { StringPanicsWhen(ty, body); }
    if ty <= UNSIGNED_INT64 || ty == FLOAT32 || ty == FLOAT64 { FixedNeverPanics(ty, body); }
  }

  /** Reading panics exactly on a string whose eight-byte length is more than an allocation can have. */
  lemma PanicsWhen(s: seq<byte>)
    ensures (Scan(s).Bad? && Scan(s).error == LengthPanic) <==>
              && s != []
              && var ty := s[0] % 0x20;
              var n := 1 + TagSize(s[0] - ty);
              && (ty == UTF8_STRING8 || ty == OCTET_STRING8)
              && |s| >= n + 8 && FromLE(s[n..n + 8]) > MAX_ALLOCATION
  {
    if s != [] {
      hide FromLE, TagFromBytes, ScanBody, TagSize;
      var ty := s[0] % 0x20;
      var n := 1 + TagSize(s[0] - ty);
      if |s| >= n {
        BodyPanicsWhen(TagFromBytes(s[0] - ty, s[1..n]), ty, s[n..], n);
        if |s| >= n + 8 { assert s[n..][..8] == s[n..n + 8]; }
      }
    }
  }

  lemma FixedNeverPanics(ty: byte, body: seq<byte>)
    requires ty <= UNSIGNED_INT64 || ty == FLOAT32 || ty == FLOAT64
    ensures var r := ScanFixed(ty, body, if ty == FLOAT32 then 4 else if ty == FLOAT64 then 8 else FieldWidth(ty));
            r.BadValue? ==> r.error == UnexpectedEOF
  {
  }

  /** Nine bytes are enough: an octet string that announces one byte more than that. */
  lemma PanicReached()
    ensures Scan([0x13] + LE(0x1_0000_0000_0001, 8)) == Bad(LengthPanic, 9)
  {
    var length := LE(MAX_ALLOCATION + 1, 8);
    var s := [OCTET_STRING8] + length;
    hide LE, FromLE;
    PowerTable();
    LERoundTrip(MAX_ALLOCATION + 1, 8);
    assert s[1..][..8] == length && s[0] % 0x20 == OCTET_STRING8;
  }

  /** An element as the writer emits it: narrowest type, and a bare end-of-container. */
  predicate Canonical(e: Element) {
    && TagFits(e.tag)
    && ValueFits(e.value)
    && (if e.ty == END_OF_CONTAINER then e == Element(NO_TAG, END_OF_CONTAINER, Nil)
        else if IsContainer(e.ty) then e.value == Nil
        else e.ty == TypeOf(e.value))
  }

  lemma ControlByteIsSum(form: byte, ty: byte)
    requires IsForm(form) && ty < 0x20
    ensures ControlByte(form, ty) == form + ty
  {
    hide Or;
    assert Pow2(5) == 32 && Pow2(8) == 256;
    OrIsSum(form / 0x20, ty, 5, 8);
  }

  lemma TypeBits(form: byte, ty: byte)
    requires IsForm(form) && ty < 0x20
    ensures (form + ty) % 0x20 == ty
  {
  }

  /** A tag survives encoding and decoding exactly when its parts fit its form. */
  lemma TagRoundTrip(tag: Tag)
    requires IsForm(tag.form)
    ensures TagFromBytes(tag.form, TagBytes(tag)) == tag <==> TagFits(tag)
  {
    PowerTable();
    var s := TagBytes(tag);
    LERoundTrip(tag.vendorID, 2);
    LERoundTrip(tag.profileNum, 2);
    LERoundTrip(tag.tagNum, 1);
    LERoundTrip(tag.tagNum, 2);
    LERoundTrip(tag.tagNum, 4);
    if tag.form == FULLY_QUALIFIED6 {
      assert s[0..2] == LE(tag.vendorID, 2) && s[2..4] == LE(tag.profileNum, 2) && s[4..] == LE(tag.tagNum, 2);
    } else if tag.form == FULLY_QUALIFIED8 {
      assert s[0..2] == LE(tag.vendorID, 2) && s[2..4] == LE(tag.profileNum, 2) && s[4..] == LE(tag.tagNum, 4);
    }
  }

  lemma FixedRoundTrip(v: Value, rest: seq<byte>)
    requires v.SInt? || v.UInt? || v.Float32? || v.Float64?
    ensures ScanValue(TypeOf(v), ValueBytes(v) + rest) == GotValue(v, |ValueBytes(v)|)
  {
    PowerTable();
    var b := ValueBytes(v);
    var n := |b|;
    assert (b + rest)[..n] == b;
    match v
    case SInt(i) => SignedRoundTrip(i, n);
    case UInt(u) => LERoundTrip(u, n);
    case Float32(bits) => LERoundTrip(bits, 4);
    case Float64(bits) => LERoundTrip(bits, 8);
  }

  lemma {:induction false} StringRoundTrip(ty: byte, n: nat, data: seq<byte>, rest: seq<byte>)
    requires |data| <= MAX_ALLOCATION && |data| < Pow256(n)
    ensures ScanString(ty, LE(|data|, n) + data + rest, n)
         == GotValue(if ty < OCTET_STRING1 then Utf8(data) else Octets(data), n + |data|)
  {
    LERoundTrip(|data|, n);
    var s := LE(|data|, n) + data + rest;
    assert s[..n] == LE(|data|, n);
    assert s[n..n + |data|] == data;
  }

  lemma ValueRoundTrip(v: Value, rest: seq<byte>)
    requires ValueFits(v)
    ensures ScanValue(TypeOf(v), ValueBytes(v) + rest) == GotValue(v, |ValueBytes(v)|)
  {
    PowerTable();
    var ty := TypeOf(v);
    match v
    case Nil =>
    case Bool(_) =>
    case Utf8(data) => StringRoundTrip(ty, FieldWidth(ty), data, rest);
    case Octets(data) => StringRoundTrip(ty, FieldWidth(ty), data, rest);
    case _ => FixedRoundTrip(v, rest);
  }

  /** A control byte, tag and body are taken apart at the right places. */
  lemma ScanSplit(s: seq<byte>, form: byte, ty: byte, n: nat)
    requires |s| >= n == 1 + TagSize(form)
    requires s[0] == form + ty && s[0] % 0x20 == ty
    ensures Scan(s) == ScanBody(TagFromBytes(form, s[1..n]), ty, s[n..], n)
  {
  }

  lemma BodyRoundTrip(e: Element, rest: seq<byte>, n: nat)
    requires Canonical(e)
    ensures ScanBody(e.tag, e.ty, ValueBytes(e.value) + rest, n) == Got(e, n + |ValueBytes(e.value)|)
  {
    if !IsContainer(e.ty) && e.ty != END_OF_CONTAINER {
      ValueRoundTrip(e.value, rest);
    }
  }

  lemma Slices(c: byte, tag: seq<byte>, body: seq<byte>, rest: seq<byte>)
    ensures var s := [c] + tag + body + rest;
      s[0] == c && s[1..1 + |tag|] == tag && s[1 + |tag|..] == body + rest
  {
  }

  /** Whatever follows it, an encoded element is read back whole, and nothing after it is touched. */
  lemma ElementRoundTrip(e: Element, rest: seq<byte>)
    requires Canonical(e)
    ensures Scan(ElementBytes(e) + rest) == Got(e, |ElementBytes(e)|)
  {
    hide ScanBody, ScanValue, TypeOf, ValueFits, LE, FromLE, TagFromBytes, TagBytes, ValueBytes, Scan, Pow256,
         ControlByte;
    var form, n := e.tag.form, 1 + TagSize(e.tag.form);
    var s := ElementBytes(e) + rest;
    Slices(ControlByte(form, e.ty), TagBytes(e.tag), ValueBytes(e.value), rest);
    ControlByteIsSum(form, e.ty);
    TypeBits(form, e.ty);
    ScanSplit(s, form, e.ty, n);
    assert TagFromBytes(form, TagBytes(e.tag)) == e.tag by { TagRoundTrip(e.tag); }
    BodyRoundTrip(e, rest, n);
  }
}
