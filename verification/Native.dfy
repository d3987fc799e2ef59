/** Decoding a TLV tree into a plain value, as the subscribe command prints it (cli/subscribe.go). */
module Native {
  import opened Bytes
  import opened TlvElement
  import opened TlvReader
  import opened TlvTree
  import Decimal

  datatype Value =
    | Null
    | Boolean(b: bool)
    | Unsigned(u: u64)
    | Signed(i: i64)
    | Single(bits32: u32)
    | Double(bits64: u64)
    | Text(text: seq<byte>)
    | Hex(digits: string)
    | Items(items: seq<Value>)
    | Fields(fields: map<string, Value>)

  datatype Decoded = Decoded(value: Value) | Undecodable(why: ReadResult)

  function HexDigit(d: nat): char
    requires d < 16
  {
    if d < 10 then '0' + d as char else 'a' + (d - 10) as char
  }

  function HexOf(s: seq<byte>): string {
    if s == [] then [] else [HexDigit(s[0] / 16), HexDigit(s[0] % 16)] + HexOf(s[1..])
  }

  function Scalar(v: TlvElement.Value): Value {
    match v
    case Nil => Null
    case SInt(i) => Signed(i)
    case UInt(u) => Unsigned(u)
    case Bool(b) => Boolean(b)
    case Float32(bits) => Single(bits)
    case Float64(bits) => Double(bits)
    case Utf8(text) => Text(text)
    case Octets(data) => Hex("0x" + HexOf(data))
  }

  /** A structure field's key: its tag number in decimal, whatever the tag's form. */
  function Key(t: Tree): string {
    Decimal.Format(t.tag.tagNum)
  }

  function Image(t: Tree): Value
    decreases t, 0
  {
    match t
    case Leaf(_, v) => Scalar(v)
    case Node(_, kind, children) =>
      if kind == STRUCTURE then Fields(FieldsOf(children)) else Items(ItemsOf(children))
  }

  function ItemsOf(ts: seq<Tree>): (s: seq<Value>)
    ensures |s| == |ts|
    decreases ts, 1
  {
    if ts == [] then [] else [Image(ts[0])] + ItemsOf(ts[1..])
  }

  /** Structure fields by key; where a key is repeated the later field wins. */
  function FieldsOf(ts: seq<Tree>): map<string, Value>
    decreases ts, 1
  {
    if ts == [] then map[] else map[Key(ts[0]) := Image(ts[0])] + FieldsOf(ts[1..])
  }

  // ----- what the image is ------------------------------------------------------------

  lemma {:induction false} ItemsInOrder(ts: seq<Tree>, i: nat)
    requires i < |ts|
    ensures ItemsOf(ts)[i] == Image(ts[i])
  {
    if i > 0 { ItemsInOrder(ts[1..], i - 1); }
  }

  /** A field is present exactly when some child has its tag number. */
  lemma {:induction false} FieldPresent(ts: seq<Tree>, n: u32)
    ensures Decimal.Format(n) in FieldsOf(ts) <==> exists i :: 0 <= i < |ts| && ts[i].tag.tagNum == n
  {
    if ts != [] {
      FieldPresent(ts[1..], n);
      if Decimal.Format(n) == Key(ts[0]) {
        Decimal.FormatInjective(n, ts[0].tag.tagNum);
        assert ts[0].tag.tagNum == n;
      } else if Decimal.Format(n) in FieldsOf(ts) {
        var i :| 0 <= i < |ts[1..]| && ts[1..][i].tag.tagNum == n;
        assert ts[i + 1].tag.tagNum == n;
      }
      if exists i :: 0 <= i < |ts| && ts[i].tag.tagNum == n {
        var i :| 0 <= i < |ts| && ts[i].tag.tagNum == n;
        assert i > 0 ==> ts[1..][i - 1].tag.tagNum == n;
      }
    }
  }

  /** Its value is the image of the last child with that tag number. */
  lemma {:induction false} LastFieldWins(ts: seq<Tree>, i: nat)
    requires i < |ts|
    requires forall j :: i < j < |ts| ==> ts[j].tag.tagNum != ts[i].tag.tagNum
    ensures Key(ts[i]) in FieldsOf(ts) && FieldsOf(ts)[Key(ts[i])] == Image(ts[i])
  {
    if i > 0 {
      LastFieldWins(ts[1..], i - 1);
    } else {
      FieldPresent(ts[1..], ts[0].tag.tagNum);
    }
  }

  // ----- decoding from a reader -------------------------------------------------------

  function ImageOf(p: Parsed<Tree>): Decoded {
    match p
    case Parsed(t, _) => Decoded(Image(t))
    case Failed(why) => Undecodable(why)
  }

  /** Children already read, followed by what parsing the rest gives. */
  ghost function Joined(before: seq<Tree>, p: Parsed<seq<Tree>>): Parsed<seq<Tree>> {
    match p
    case Parsed(ts, rest) => Parsed(before + ts, rest)
    case Failed(_) => p
  }

  lemma JoinedNone(p: Parsed<seq<Tree>>)
    ensures Joined([], p) == p
  {
    if p.Parsed? { assert [] + p.value == p.value; }
  }

  /** One turn of the `tlvChildren` loop, seen from the tree side. */
  lemma ChildrenStep(before: seq<Tree>, st: ReaderState)
    requires !st.done && st.containers != []
    ensures var (next, r) := NextStep(st);
      var all := Joined(before, ParseChildren(st.rest));
      if !r.Read? then all == Failed(r)
      else if next.elem.ty == END_OF_CONTAINER then
        all == Parsed(before, next.rest) && !next.done && next.containers == st.containers[..|st.containers| - 1]
      else
        && !next.done
        && next.containers == st.containers + (if IsContainer(next.elem.ty) then [next.elem.ty] else [])
        && match ParseRest(next.elem, next.rest)
           case Parsed(t, rest) => all == Joined(before + [t], ParseChildren(rest))
           case Failed(why) => all == Failed(why)
  {
    hide Scan;
    var (next, r) := NextStep(st);
    if r.Read? {
      if next.elem.ty == END_OF_CONTAINER {
        assert before + [] == before;
      } else {
        match ParseRest(next.elem, next.rest)
        case Failed(_) =>
        case Parsed(t, rest) =>
          match ParseChildren(rest) {
            case Failed(_) =>
            case Parsed(ts, _) => assert before + ([t] + ts) == before + [t] + ts;
          }
      }
    }
  }

  lemma KeyOf(t: Tree)
    ensures Key(t) == Decimal.Format(t.tag.tagNum)
  {
  }

  lemma ImagesSnoc(ts: seq<Tree>, t: Tree)
    ensures ItemsOf(ts + [t]) == ItemsOf(ts) + [Image(t)]
    ensures FieldsOf(ts + [t]) == FieldsOf(ts)[Key(t) := Image(t)]
  {
    hide Image, Key;
    if ts == [] {
      assert ts + [t] == [t];
    } else {
      assert (ts + [t])[1..] == ts[1..] + [t];
      ImagesSnoc(ts[1..], t);
    }
  }

  /**
   * Decodes the element the reader is on.  A whole tree is consumed, and the container it opened is
   * closed again, so a caller iterating over siblings carries on in step.
   */
  method DecodeElement(r: Reader) returns (d: Decoded)
    requires r.Valid() && !r.done && r.elem.ty != END_OF_CONTAINER
    requires IsContainer(r.elem.ty) ==> r.containers != []
    modifies r
    ensures r.Valid() && r.pos >= old(r.pos)
    ensures var p := ParseRest(old(r.elem), old(r.State().rest));
      && d == ImageOf(p)
      && (p.Parsed? ==> && !r.done && r.State().rest == p.rest
                        && r.containers == if IsContainer(old(r.elem.ty))
                                           then old(r.containers)[..|old(r.containers)| - 1]
                                           else old(r.containers))
    decreases |r.input| - r.pos, 1
  {
    if r.elem.ty == ARRAY || r.elem.ty == LIST {
      d := DecodeArray(r);
    } else if r.elem.ty == STRUCTURE {
      d := DecodeStruct(r);
    } else {
      d := Decoded(Scalar(r.elem.value));
    }
  }

  /** `decodeTLVArrayNative` with the loop of `tlvChildren` in place. */
  method DecodeArray(r: Reader) returns (d: Decoded)
    requires r.Valid() && !r.done && r.containers != []
    modifies r
    ensures r.Valid() && r.pos >= old(r.pos)
    ensures match ParseChildren(old(r.State().rest))
      case Failed(why) => d == Undecodable(why)
      case Parsed(ts, rest) =>
        && d == Decoded(Items(ItemsOf(ts))) && !r.done && r.State().rest == rest
        && r.containers == old(r.containers)[..|old(r.containers)| - 1]
    decreases |r.input| - r.pos, 0
  {
    var out := [];
    ghost var before: seq<Tree> := [];
    ghost var start := ParseChildren(r.State().rest);
    JoinedNone(start);
    hide Scan, NextStep, ParseChildren, ParseRest, Joined, Image;
    while true
      invariant r.Valid() && !r.done && r.pos >= old(r.pos)
      invariant r.containers == old(r.containers)
      invariant start == Joined(before, ParseChildren(r.State().rest))
      invariant out == ItemsOf(before)
      decreases |r.input| - r.pos
    {
      ChildrenStep(before, r.State());
      var err := r.Next();
      if err != Read {
        return Undecodable(err);
      }
      if r.elem.ty == END_OF_CONTAINER {
        return Decoded(Items(out));
      }
      ghost var p := ParseRest(r.elem, r.State().rest);
      var elem := DecodeElement(r);
      if elem.Undecodable? {
        return elem;
      }
      ImagesSnoc(before, p.value);
      out := out + [elem.value];
      before := before + [p.value];
    }
  }

  /** `decodeTLVStructNative`: the tag is taken before the field's own children are consumed. */
  method DecodeStruct(r: Reader) returns (d: Decoded)
    requires r.Valid() && !r.done && r.containers != []
    modifies r
    ensures r.Valid() && r.pos >= old(r.pos)
    ensures match ParseChildren(old(r.State().rest))
      case Failed(why) => d == Undecodable(why)
      case Parsed(ts, rest) =>
        && d == Decoded(Fields(FieldsOf(ts))) && !r.done && r.State().rest == rest
        && r.containers == old(r.containers)[..|old(r.containers)| - 1]
    decreases |r.input| - r.pos, 0
  {
    var out: map<string, Value> := map[];
    ghost var before: seq<Tree> := [];
    ghost var start := ParseChildren(r.State().rest);
    JoinedNone(start);
    assert FieldsOf([]) == map[];
    hide Scan, NextStep, ParseChildren, ParseRest, Joined, Image, FieldsOf, Key;
    while true
      invariant r.Valid() && !r.done && r.pos >= old(r.pos)
      invariant r.containers == old(r.containers)
      invariant start == Joined(before, ParseChildren(r.State().rest))
      invariant out == FieldsOf(before)
      decreases |r.input| - r.pos
    {
      ChildrenStep(before, r.State());
      var err := r.Next();
      if err != Read {
        return Undecodable(err);
      }
      if r.elem.ty == END_OF_CONTAINER {
        return Decoded(Fields(out));
      }
      var tag := r.elem.tag;
      ghost var p := ParseRest(r.elem, r.State().rest);
      var elem := DecodeElement(r);
      if elem.Undecodable? {
        return elem;
      }
      ImagesSnoc(before, p.value);
      KeyOf(p.value);
      out := out[Decimal.Format(tag.tagNum) := elem.value];
      before := before + [p.value];
    }
  }

  /** The first step of reading is the first step of parsing. */
  lemma FirstStep(raw: seq<byte>)
    ensures var (next, r) := NextStep(Opened(raw));
      if !r.Read? then ParseTree(raw) == Failed(r)
      else
        && ParseTree(raw) == ParseRest(next.elem, next.rest)
        && !next.done && next.elem.ty != END_OF_CONTAINER && (IsContainer(next.elem.ty) ==> next.containers != [])
  {
    hide Scan, ParseRest;
  }

  lemma NothingToDecode()
    ensures ImageOf(ParseTree([])) == Undecodable(EOF)
  {
    assert Scan([]).AtEOF?;
  }

  /** `decodeTLVNative`. */
  method Decode(raw: seq<byte>) returns (d: Decoded)
    ensures d == ImageOf(ParseTree(raw))
  {
    hide Scan, NextStep, ParseTree, ParseRest, Image, Opened;
    if |raw| == 0 {
      NothingToDecode();
      return Undecodable(EOF);
    }
    FirstStep(raw);
    var r := new Reader(raw);
    var err := r.Next();
    if err != Read {
      return Undecodable(err);
    }
    d := DecodeElement(r);
  }

  /** An encoded tree decodes to its image, whatever bytes come after it. */
  lemma DecodeEncoded(t: Tree, rest: seq<byte>)
    requires Fits(t)
    ensures ImageOf(ParseTree(Encode(t) + rest)) == Decoded(Image(t))
  {
    ParseEncode(t, rest);
  }

  // ----- the images, case by case ---------------------------------------------------------

  lemma ScalarImages(tag: Tag, b: bool, u: u64, i: i64, single: u32, double: u64, text: seq<byte>, data: seq<byte>)
    ensures Image(Leaf(tag, Nil)) == Null && Image(Leaf(tag, Bool(b))) == Boolean(b)
    ensures Image(Leaf(tag, UInt(u))) == Unsigned(u) && Image(Leaf(tag, SInt(i))) == Signed(i)
    ensures Image(Leaf(tag, Float32(single))) == Single(single)
    ensures Image(Leaf(tag, Float64(double))) == Double(double)
    ensures Image(Leaf(tag, Utf8(text))) == Text(text)
    ensures Image(Leaf(tag, Octets(data))) == Hex("0x" + HexOf(data))
  {
    hide HexOf;
  }

  /** Structures become maps; arrays and lists both become sequences. */
  lemma ContainerImages(tag: Tag, kids: seq<Tree>)
    ensures Image(Node(tag, 0x15, kids)) == Fields(FieldsOf(kids))
    ensures Image(Node(tag, 0x16, kids)) == Items(ItemsOf(kids))
    ensures Image(Node(tag, 0x17, kids)) == Items(ItemsOf(kids))
  {
  }

  const HEX_DIGITS := "0123456789abcdef"

  /** Two digits a byte, the high half first, in lower case. */
  lemma {:induction false} HexAt(s: seq<byte>, k: nat)
    requires k < |s|
    ensures |HexOf(s)| == 2 * |s| && |HEX_DIGITS| == 16
    ensures HexOf(s)[2 * k] == HEX_DIGITS[s[k] / 16] && HexOf(s)[2 * k + 1] == HEX_DIGITS[s[k] % 16]
  {
    DigitOf(s[0] / 16);
    DigitOf(s[0] % 16);
    hide HexDigit;
    if k > 0 { HexAt(s[1..], k - 1); } else if |s| > 1 { HexAt(s[1..], 0); }
  }

  lemma DigitOf(d: nat)
    requires d < 16
    ensures HexDigit(d) == HEX_DIGITS[d]
  {
  }

  /** The value of a hexadecimal text. */
  function HexValue(c: char): Option<nat> {
    if '0' <= c <= '9' then Some((c - '0') as int)
    else if 'a' <= c <= 'f' then Some((c - 'a') as int + 10)
    else None
  }

  lemma HexReadsBack(b: byte)
    ensures HexValue(HexDigit(b / 16)) == Some(b / 16) && HexValue(HexDigit(b % 16)) == Some(b % 16)
  {
  }

  /** A field's key is its tag number in decimal. */
  lemma KeysAreNumbers(t: Tree)
    ensures Decimal.Parse(Key(t)) == t.tag.tagNum
  {
    Decimal.ParseFormat(t.tag.tagNum);
  }
}
