/** The revision field that is spliced into every outgoing message (internal/interaction/client.go). */
module Revision {
  import opened Bytes
  import opened TlvElement
  import opened TlvTree
  import Native
  import Decimal

  const REVISION_TAG: byte := 0xFF
  const REVISION: byte := 11

  const REVISION_FIELD := Leaf(ContextTag(REVISION_TAG), UInt(REVISION))

  lemma RevisionBytes()
    ensures EncodeAll([REVISION_FIELD]) == [0x24, 0xFF, 0x0B]
  {
    EncodeLeaf(ContextTag(REVISION_TAG), UInt(REVISION));
    assert Encode(REVISION_FIELD) == [0x24, 0xFF, 0x0B] by {
      assert LE(11, 1) == [11] && LE(0xFF, 1) == [0xFF];
    }
    EncodeCons(REVISION_FIELD, []);
    assert [REVISION_FIELD] + [] == [REVISION_FIELD];
  }

  /** Any encoded container gains the revision as one more child, its last; other bytes are left alone. */
  method InsertRevision(data: seq<byte>) returns (out: seq<byte>)
    ensures forall tag, kind, kids :: data == Encode(Node(tag, kind, kids)) ==>
              out == Encode(Node(tag, kind, kids + [REVISION_FIELD]))
    ensures out == data <==> data == [] || data[|data| - 1] != END_OF_CONTAINER
  {
    hide Encode, EncodeAll;
    out := data;
    if |data| > 0 && data[|data| - 1] == END_OF_CONTAINER {
      var imRevision := [0x24, 0xFF, 0x0B];
      out := data[..|data| - 1] + imRevision;
      out := out + [END_OF_CONTAINER];
      RevisionBytes();
    }
    forall tag, kind, kids | data == Encode(Node(tag, kind, kids))
      ensures out == Encode(Node(tag, kind, kids + [REVISION_FIELD]))
    {
      InsertChildren(tag, kind, kids, [REVISION_FIELD]);
    }
  }

  /** Read back, the message has field 255 equal to 11, whatever it held there, and every other field as it was. */
  lemma RevisionReadBack(kids: seq<Tree>)
    ensures Native.FieldsOf(kids + [REVISION_FIELD]) == Native.FieldsOf(kids)["255" := Native.Unsigned(REVISION)]
  {
    hide Native.FieldsOf;
    Native.ImagesSnoc(kids, REVISION_FIELD);
    assert Decimal.Format(25) == "25" by { assert Decimal.Format(2) == "2"; }
    assert Native.Key(REVISION_FIELD) == "255";
  }
}
