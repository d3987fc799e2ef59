/** `Writer`: appends elements to a buffer and keeps the open containers on a stack (internal/tlv/encoder.go). */
module TlvWriter {
  import opened Bytes
  import opened TlvElement
  import opened TlvTree

  /** What an element call leaves in the buffer: the element, or after a bad tag only its control byte. */
  function Emitted(tag: Tag, ty: byte, v: Value): seq<byte> {
    if IsForm(tag.form) then ElementBytes(Element(tag, ty, v)) else [ControlByte(tag.form, ty)]
  }

  function TagError(tag: Tag): Option<TlvError> {
    if IsForm(tag.form) then None else Some(InvalidTag)
  }

  class Writer {
    var buf: seq<byte>
    var containers: seq<byte>

    constructor ()
      ensures buf == [] && containers == []
    {
      buf, containers := [], [];
    }

    method EncodeTag(tag: Tag) returns (err: Option<TlvError>)
      modifies this`buf
      ensures err == TagError(tag)
      ensures buf == old(buf) + (if IsForm(tag.form) then TagBytes(tag) else [])
    {
      if tag.form == ANONYMOUS {
      } else if tag.form == CONTEXT {
        buf := buf + LE(tag.tagNum, 1);
      } else if tag.form == COMMON_PROFILE2 || tag.form == IMPLICIT_PROFILE2 {
        buf := buf + LE(tag.tagNum, 2);
      } else if tag.form == COMMON_PROFILE4 || tag.form == IMPLICIT_PROFILE4 {
        buf := buf + LE(tag.tagNum, 4);
      } else if tag.form == FULLY_QUALIFIED6 {
        buf := buf + (LE(tag.vendorID, 2) + LE(tag.profileNum, 2) + LE(tag.tagNum, 2));
      } else if tag.form == FULLY_QUALIFIED8 {
        buf := buf + (LE(tag.vendorID, 2) + LE(tag.profileNum, 2) + LE(tag.tagNum, 4));
      } else {
        return Some(InvalidTag);
      }
      err := None;
    }

    method WriteElement(tag: Tag, ty: byte) returns (err: Option<TlvError>)
      modifies this`buf
      ensures err == TagError(tag)
      ensures buf == old(buf) + [ControlByte(tag.form, ty)] + (if IsForm(tag.form) then TagBytes(tag) else [])
    {
      buf := buf + [ControlByte(tag.form, ty)];
      err := EncodeTag(tag);
    }

    /** An integer, or a string's length, in the width its element type calls for. */
    method WriteField(ty: byte, v: int)
      modifies this`buf
      ensures buf == old(buf) + LE(v, FieldWidth(ty))
    {
      if ty % 4 == 0 {
        buf := buf + LE(v, 1);
      } else if ty % 4 == 1 {
        buf := buf + LE(v, 2);
      } else if ty % 4 == 2 {
        buf := buf + LE(v, 4);
      } else {
        buf := buf + LE(v, 8);
      }
    }

    method PutSignedInt(tag: Tag, v: i64) returns (err: Option<TlvError>)
      modifies this`buf
      ensures err == TagError(tag) && buf == old(buf) + Emitted(tag, TypeOf(SInt(v)), SInt(v))
    {
      hide ControlByte, TagBytes, LE;
      var ty := SIGNED_INT64;
      if -0x80 <= v <= 0x7F {
        ty := SIGNED_INT8;
      } else if -0x8000 <= v <= 0x7FFF {
        ty := SIGNED_INT16;
      } else if -0x8000_0000 <= v <= 0x7FFF_FFFF {
        ty := SIGNED_INT32;
      }
      err := WriteElement(tag, ty);
      if err == None {
        WriteField(ty, v);
      }
    }

    method PutUnsignedInt(tag: Tag, v: u64) returns (err: Option<TlvError>)
      modifies this`buf
      ensures err == TagError(tag) && buf == old(buf) + Emitted(tag, TypeOf(UInt(v)), UInt(v))
    {
      hide ControlByte, TagBytes, LE;
      var ty := UNSIGNED_INT64;
      if v <= 0xFF {
        ty := UNSIGNED_INT8;
      } else if v <= 0xFFFF {
        ty := UNSIGNED_INT16;
      } else if v <= 0xFFFF_FFFF {
        ty := UNSIGNED_INT32;
      }
      err := WriteElement(tag, ty);
      if err == None {
        WriteField(ty, v);
      }
    }

    method PutBool(tag: Tag, v: bool) returns (err: Option<TlvError>)
      modifies this`buf
      ensures err == TagError(tag) && buf == old(buf) + Emitted(tag, TypeOf(Bool(v)), Bool(v))
    {
      hide ControlByte, TagBytes, LE;
      err := WriteElement(tag, if v then BOOL_TRUE else BOOL_FALSE);
    }

    method PutFloat32(tag: Tag, bits: u32) returns (err: Option<TlvError>)
      modifies this`buf
      ensures err == TagError(tag) && buf == old(buf) + Emitted(tag, FLOAT32, Float32(bits))
    {
      hide ControlByte, TagBytes, LE;
      err := WriteElement(tag, FLOAT32);
      if err == None {
        buf := buf + LE(bits, 4);
      }
    }

    method PutFloat64(tag: Tag, bits: u64) returns (err: Option<TlvError>)
      modifies this`buf
      ensures err == TagError(tag) && buf == old(buf) + Emitted(tag, FLOAT64, Float64(bits))
    {
      hide ControlByte, TagBytes, LE;
      err := WriteElement(tag, FLOAT64);
      if err == None {
        buf := buf + LE(bits, 8);
      }
    }

    method PutString(tag: Tag, base: byte, data: seq<byte>) returns (err: Option<TlvError>)
      requires base == UTF8_STRING1 || base == OCTET_STRING1
      modifies this`buf
      ensures err == TagError(tag)
      ensures var v := if base == UTF8_STRING1 then Utf8(data) else Octets(data);
        buf == old(buf) + Emitted(tag, TypeOf(v), v)
    {
      hide ControlByte, TagBytes, LE, StringType;
      var ty := StringType(|data|, base);
      err := WriteElement(tag, ty);
      if err == None {
        WriteField(ty, |data|);
        buf := buf + data;
      }
    }

    method PutUTF8String(tag: Tag, text: seq<byte>) returns (err: Option<TlvError>)
      modifies this`buf
      ensures err == TagError(tag) && buf == old(buf) + Emitted(tag, TypeOf(Utf8(text)), Utf8(text))
    {
      err := PutString(tag, UTF8_STRING1, text);
    }

    method PutOctetString(tag: Tag, data: seq<byte>) returns (err: Option<TlvError>)
      modifies this`buf
      ensures err == TagError(tag) && buf == old(buf) + Emitted(tag, TypeOf(Octets(data)), Octets(data))
    {
      err := PutString(tag, OCTET_STRING1, data);
    }

    method PutNull(tag: Tag) returns (err: Option<TlvError>)
      modifies this`buf
      ensures err == TagError(tag) && buf == old(buf) + Emitted(tag, NULL, Nil)
    {
      hide ControlByte, TagBytes, LE;
      err := WriteElement(tag, NULL);
    }

    /** `StartStructure`, `StartArray` and `StartList`: one call for each container type. */
    method StartContainer(tag: Tag, kind: byte) returns (err: Option<TlvError>)
      requires IsContainer(kind)
      modifies this
      ensures err == TagError(tag) && buf == old(buf) + Emitted(tag, kind, Nil)
      ensures containers == old(containers) + (if err == None then [kind] else [])
    {
      hide ControlByte, TagBytes, LE;
      err := WriteElement(tag, kind);
      if err == None {
        containers := containers + [kind];
      }
    }

    method EndContainer() returns (err: Option<TlvError>)
      modifies this
      ensures err == if old(containers) == [] then Some(ContainerMismatch) else None
      ensures err == None ==> containers == old(containers)[..|old(containers)| - 1]
      ensures err == None ==> buf == old(buf) + [END_OF_CONTAINER]
      ensures err != None ==> buf == old(buf) && containers == old(containers)
    {
      if |containers| == 0 {
        return Some(ContainerMismatch);
      }
      containers := containers[..|containers| - 1];
      buf := buf + [END_OF_CONTAINER];
      err := None;
    }

    method PutPreEncodedStruct(tag: Tag, data: seq<byte>) returns (err: Option<TlvError>)
      modifies this`buf
      ensures err == TagError(tag)
      ensures buf == old(buf) + Emitted(tag, STRUCTURE, Nil) + (if err == None then data + [END_OF_CONTAINER] else [])
    {
      hide ControlByte, TagBytes, LE;
      err := WriteElement(tag, STRUCTURE);
      if err == None {
        if |data| > 0 {
          buf := buf + data;
        }
        buf := buf + [END_OF_CONTAINER];
      }
    }

    method PutValue(tag: Tag, v: Value) returns (err: Option<TlvError>)
      modifies this`buf
      ensures err == TagError(tag) && buf == old(buf) + Emitted(tag, TypeOf(v), v)
    {
      match v {
        case Nil => err := PutNull(tag);
        case SInt(i) => err := PutSignedInt(tag, i);
        case UInt(u) => err := PutUnsignedInt(tag, u);
        case Bool(b) => err := PutBool(tag, b);
        case Float32(bits) => err := PutFloat32(tag, bits);
        case Float64(bits) => err := PutFloat64(tag, bits);
        case Utf8(text) => err := PutUTF8String(tag, text);
        case Octets(data) => err := PutOctetString(tag, data);
      }
    }

    /**
     * The calls a client makes to write a tree.  They never fail, append exactly its encoding and
     * leave the same containers open.
     */
    method PutTree(t: Tree)
      requires Fits(t)
      modifies this
      ensures buf == old(buf) + Encode(t) && containers == old(containers)
      decreases t, 0
    {
      hide ElementBytes, Encode, EncodeAll, TypeOf, TagFits, ValueFits;
      FormFits(t);
      match t {
        case Leaf(tag, v) =>
          EncodeLeaf(tag, v);
          var err := PutValue(tag, v);
        case Node(tag, kind, children) =>
          EncodeNode(tag, kind, children);
          var err := StartContainer(tag, kind);
          PutForest(children);
          err := EndContainer();
      }
    }

    method PutForest(ts: seq<Tree>)
      requires FitsAll(ts)
      modifies this
      ensures buf == old(buf) + EncodeAll(ts) && containers == old(containers)
      decreases ts, 1
    {
      hide Encode, EncodeAll, Fits;
      EncodeNone(ts[..0]);
      for i := 0 to |ts|
        invariant buf == old(buf) + EncodeAll(ts[..i])
        invariant containers == old(containers)
      {
        EncodeSnoc(ts, i);
        PutTree(ts[i]);
      }
      assert ts[..|ts|] == ts;
    }
  }

  lemma FormFits(t: Tree)
    requires Fits(t)
    ensures IsForm(t.tag.form)
  {
  }

  lemma EncodeNone(ts: seq<Tree>)
    requires ts == []
    ensures EncodeAll(ts) == []
  {
  }

  lemma EncodeSnoc(ts: seq<Tree>, i: nat)
    requires i < |ts|
    ensures EncodeAll(ts[..i + 1]) == EncodeAll(ts[..i]) + Encode(ts[i])
  {
    assert ts[..i + 1] == ts[..i] + [ts[i]];
    EncodeConcat(ts[..i], [ts[i]]);
    EncodeCons(ts[i], []);
    assert [ts[i]] + [] == [ts[i]] && EncodeAll([]) == [];
  }

  /** `PutPreEncodedStruct` of already encoded fields is the structure with those fields. */
  lemma PreEncodedIsNode(tag: Tag, fields: seq<Tree>)
    requires IsForm(tag.form)
    ensures Emitted(tag, STRUCTURE, Nil) + (EncodeAll(fields) + [END_OF_CONTAINER])
         == Encode(Node(tag, STRUCTURE, fields))
  {
    EncodeNode(tag, STRUCTURE, fields);
  }
}
