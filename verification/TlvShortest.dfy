/** The writer's output is the shortest encoding: nothing the reader accepts for the same tree is shorter. */
module TlvShortest {
  import opened Bytes
  import opened TlvElement
  import opened TlvTree

  lemma FixedIsShortest(ty: byte, s: seq<byte>, n: nat)
    requires n == 1 || n == 2 || n == 4 || n == 8
    requires ty <= UNSIGNED_INT64 ==> n == FieldWidth(ty)
    requires ty <= UNSIGNED_INT64 || (ty == FLOAT32 && n == 4) || (ty == FLOAT64 && n == 8)
    ensures var r := ScanFixed(ty, s, n); r.GotValue? ==> ValueFits(r.value) && |ValueBytes(r.value)| <= r.used
  {
    PowerTable();
  }

  lemma StringIsShortest(ty: byte, s: seq<byte>)
    requires UTF8_STRING1 <= ty < NULL
    ensures var r := ScanString(ty, s, FieldWidth(ty));
      r.GotValue? ==> ValueFits(r.value) && |ValueBytes(r.value)| <= r.used
  {
    PowerTable();
  }

  lemma ValueIsShortest(ty: byte, s: seq<byte>)
    requires ty < 0x20 && !IsContainer(ty) && ty != END_OF_CONTAINER
    ensures var r := ScanValue(ty, s); r.GotValue? ==> ValueFits(r.value) && |ValueBytes(r.value)| <= r.used
  {
    if ty <= UNSIGNED_INT64 { FixedIsShortest(ty, s, FieldWidth(ty)); }
    else if ty == FLOAT32 { FixedIsShortest(ty, s, 4); }
    else if ty == FLOAT64 { FixedIsShortest(ty, s, 8); }
    else if UTF8_STRING1 <= ty < NULL { StringIsShortest(ty, s); }
  }

  lemma ScannedTagFits(form: byte, s: seq<byte>)
    requires IsForm(form) && |s| == TagSize(form)
    ensures TagFits(TagFromBytes(form, s)) && TagFromBytes(form, s).form == form
  {
    PowerTable();
  }

  /** The element the writer would emit for a scanned one: same tag and value, its own choice of type. */
  function Rewritten(e: Element): Element {
    if e.ty == END_OF_CONTAINER || IsContainer(e.ty) then e else Element(e.tag, TypeOf(e.value), e.value)
  }

  /** Any element the reader accepts fits the writer, which needs no more bytes for it. */
  lemma ElementIsShortest(s: seq<byte>)
    requires Scan(s).Got?
    ensures var Got(e, used) := Scan(s);
      && TagFits(e.tag) && ValueFits(e.value) && |ElementBytes(Rewritten(e))| <= used
  {
    var ty := s[0] % 0x20;
    var form := s[0] - ty;
    var n := 1 + TagSize(form);
    hide ScanValue, ValueBytes, TypeOf, TagFromBytes, TagBytes, ControlByte;
    ScannedTagFits(form, s[1..n]);
    if ty != END_OF_CONTAINER && !IsContainer(ty) {
      ValueIsShortest(ty, s[n..]);
    } else {
      NilIsEmpty();
    }
  }

  lemma NilIsEmpty()
    ensures ValueBytes(Nil) == []
  {
  }

  /** Whatever bytes parse to a tree, the writer encodes that tree in no more of them. */
  lemma TreeIsShortest(s: seq<byte>)
    requires ParseTree(s).Parsed?
    ensures var Parsed(t, rest) := ParseTree(s); Fits(t) && |Encode(t)| <= |s| - |rest|
    decreases |s|, 1
  {
    ElementIsShortest(s);
    var Got(e, used) := Scan(s);
    RestIsShortest(e, s[used..]);
    EncodeHead(ParseTree(s).value, []);
  }

  lemma {:induction false} RestIsShortest(e: Element, s: seq<byte>)
    requires e.ty != END_OF_CONTAINER && TagFits(e.tag) && ValueFits(e.value) && (IsContainer(e.ty) ==> e.value == Nil)
    requires ParseRest(e, s).Parsed?
    ensures var Parsed(t, rest) := ParseRest(e, s);
      Fits(t) && |Encode(t)| <= |ElementBytes(Rewritten(e))| + |s| - |rest|
    decreases |s|, 2
  {
    if IsContainer(e.ty) {
      ChildrenAreShortest(s);
      EncodeNode(e.tag, e.ty, ParseChildren(s).value);
    } else {
      EncodeLeaf(e.tag, e.value);
    }
  }

  lemma {:induction false} ChildrenAreShortest(s: seq<byte>)
    requires ParseChildren(s).Parsed?
    ensures var Parsed(ts, rest) := ParseChildren(s); FitsAll(ts) && |EncodeAll(ts)| + 1 <= |s| - |rest|
    decreases |s|, 1
  {
    ElementIsShortest(s);
    var Got(e, used) := Scan(s);
    if e.ty != END_OF_CONTAINER {
      var Parsed(t, rest) := ParseRest(e, s[used..]);
      assert IsContainer(e.ty) ==> e.value == Nil;
      RestIsShortest(e, s[used..]);
      ChildrenAreShortest(rest);
      EncodeCons(t, ParseChildren(rest).value);
    }
  }
}
