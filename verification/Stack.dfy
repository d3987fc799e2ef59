/** The layers together: a TLV tree handed to the sender is the tree the receiver decodes. */
module Stack {
  import opened Bytes
  import opened TlvElement
  import opened TlvTree
  import opened Message
  import opened Codec
  import opened Revision
  import opened TlvWriter
  import Native

  lemma FitsConcat(a: seq<Tree>, b: seq<Tree>)
    requires FitsAll(a) && FitsAll(b)
    ensures FitsAll(a + b)
  {
  }

  /**
   * A container with the revision field inserted, framed, encrypted if the session is, decrypted, unframed and
   * parsed: what comes out is the container with that one child more, and nothing after it.
   */
  lemma TreeDelivered(aes: Aes, m: WireMessage, tag: Tag, kind: byte, kids: seq<Tree>,
                      sender: Option<SecureContext>, receiver: Option<SecureContext>)
    requires Paired(sender, receiver) && FlagsMatch(m.protocol) && Codec.Encode(aes, m, sender).Wire?
    requires FitsAll(kids) && TagFits(tag) && IsContainer(kind)
    requires m.payload == TlvTree.Encode(Node(tag, kind, kids + [REVISION_FIELD]))
    ensures var r := Decode(aes, Codec.Encode(aes, m, sender).bytes, receiver);
            && r.Got?
            && ParseTree(r.message.payload) == Parsed(Node(tag, kind, kids + [REVISION_FIELD]), [])
  {
    hide Codec.Encode, Decode, ParseTree, Paired, FlagsMatch, TlvTree.Encode;
    DecodeEncode(aes, m, sender, receiver);
    var t := Node(tag, kind, kids + [REVISION_FIELD]);
    FitsConcat(kids, [REVISION_FIELD]);
    ParseEncode(t, []);
    assert TlvTree.Encode(t) + [] == TlvTree.Encode(t);
  }

  lemma NodeFits(tag: Tag, kind: byte, kids: seq<Tree>)
    requires FitsAll(kids) && TagFits(tag) && IsContainer(kind)
    ensures Fits(Node(tag, kind, kids))
  {
  }

  /**
   * The layers in turn, sender and receiver: write the container, insert the revision, frame and seal; then open,
   * unframe and decode.  If the message can be encoded at all, the receiver has the image of the container with
   * the revision as one field more.
   */
  method Deliver(aes: Aes, header: MessageHeader, protocol: ProtocolHeader, tag: Tag, kind: byte, kids: seq<Tree>,
                 sender: Option<SecureContext>, receiver: Option<SecureContext>)
    returns (d: Option<Native.Decoded>)
    requires Paired(sender, receiver) && FlagsMatch(protocol)
    requires FitsAll(kids) && TagFits(tag) && IsContainer(kind)
    ensures var t := Node(tag, kind, kids + [REVISION_FIELD]);
            d == if Codec.Encode(aes, WireMessage(header, protocol, TlvTree.Encode(t)), sender).Wire?
                 then Some(Native.Decoded(Native.Image(t))) else None
  {
    hide Codec.Encode, Decode, ParseTree, Paired, FlagsMatch, TlvTree.Encode, Fits, FitsAll, TagFits, Native.Image;
    NodeFits(tag, kind, kids);
    var w := new Writer();
    w.PutTree(Node(tag, kind, kids));
    assert w.buf == TlvTree.Encode(Node(tag, kind, kids));
    var payload := InsertRevision(w.buf);
    var m := WireMessage(header, protocol, payload);
    var sent := EncodeMessage(aes, m, sender);
    if sent.EncodeFailed? {
      return None;
    }
    TreeDelivered(aes, m, tag, kind, kids, sender, receiver);
    var received := DecodeMessage(aes, sent.bytes, receiver);
    var image := Native.Decode(received.message.payload);
    d := Some(image);
  }
}
