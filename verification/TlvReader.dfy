/** `Reader`: a cursor over an encoding with a stack of open containers (internal/tlv/decoder.go). */
module TlvReader {
  import opened Bytes
  import opened TlvElement

  datatype ReadResult = Read | EOF | Fault(error: TlvError)

  /** Everything a reader knows: what is left of the stream, and its fields. */
  datatype ReaderState = ReaderState(rest: seq<byte>, containers: seq<byte>, elem: Element, done: bool)

  function Opened(s: seq<byte>): ReaderState {
    ReaderState(s, [], Element(NO_TAG, SIGNED_INT8, Nil), false)
  }

  /** The container stack after reading `e`; `None` when `e` closes a container that is not open. */
  function StackAfter(containers: seq<byte>, e: Element): Option<seq<byte>> {
    if e.ty == END_OF_CONTAINER then
      if containers == [] then None else Some(containers[..|containers| - 1])
    else if IsContainer(e.ty) then Some(containers + [e.ty])
    else Some(containers)
  }

  /** One call of `Next`.  A failed read consumes what it read but leaves the element and stack alone. */
  function NextStep(st: ReaderState): (r: (ReaderState, ReadResult))
    ensures r.1.Read? ==> |r.0.rest| < |st.rest|
  {
    if st.done then (st, EOF)
    else
      match Scan(st.rest)
      case AtEOF => (st.(done := true), EOF)
      case Bad(error, used) => (st.(rest := st.rest[used..]), Fault(error))
      case Got(e, used) =>
        match StackAfter(st.containers, e)
        case None => (st.(rest := st.rest[used..]), Fault(ContainerMismatch))
        case Some(stack) => (ReaderState(st.rest[used..], stack, e, false), Read)
  }

  class Reader {
    const input: seq<byte>
    var pos: nat
    var containers: seq<byte>
    var elem: Element
    var done: bool

    ghost predicate Valid()
      reads this
    {
      pos <= |input|
    }

    ghost function State(): ReaderState
      requires Valid()
      reads this
    {
      ReaderState(input[pos..], containers, elem, done)
    }

    constructor (s: seq<byte>)
      ensures Valid() && input == s && State() == Opened(s)
    {
      input := s;
      pos := 0;
      containers := [];
      elem := Element(NO_TAG, SIGNED_INT8, Nil);
      done := false;
    }

    /** `io.ReadFull`: `n` bytes, or everything that is left and a failure. */
    method ReadFull(n: nat) returns (ok: bool, data: seq<byte>)
      requires Valid()
      modifies this`pos
      ensures Valid()
      ensures ok <==> n <= |old(input[pos..])|
      ensures ok ==> data == old(input[pos..])[..n] && pos == old(pos) + n
      ensures !ok ==> pos == |input|
    {
      if pos + n <= |input| {
        ok, data, pos := true, input[pos..pos + n], pos + n;
      } else {
        ok, data, pos := false, [], |input|;
      }
    }

    method DecodeTag(form: byte) returns (ok: bool, tag: Tag)
      requires Valid()
      modifies this`pos
      ensures Valid()
      ensures ok <==> TagSize(form) <= |old(input[pos..])|
      ensures ok ==> tag == TagFromBytes(form, old(input[pos..])[..TagSize(form)]) && pos == old(pos) + TagSize(form)
      ensures !ok ==> pos == |input|
    {
      PowerTable();
      var buf;
      ok, buf := ReadFull(TagSize(form));
      tag := NO_TAG;
      if ok {
        if form == FULLY_QUALIFIED6 || form == FULLY_QUALIFIED8 {
          tag := Tag(form, FromLE(buf[0..2]), FromLE(buf[2..4]), FromLE(buf[4..]));
        } else {
          tag := Tag(form, 0, 0, FromLE(buf));
        }
      }
    }

    method ReadFixed(ty: byte, n: nat) returns (r: ScannedValue)
      requires Valid()
      requires n == 1 || n == 2 || n == 4 || n == 8
      requires ty <= UNSIGNED_INT64 || ty == FLOAT32 || ty == FLOAT64
      requires ty == FLOAT32 ==> n == 4
      modifies this`pos
      ensures Valid()
      ensures r == ScanFixed(ty, old(input[pos..]), n) && pos == old(pos) + r.used
    {
      PowerTable();
      ghost var s := input[pos..];
      var left := |input| - pos;
      var ok, buf := ReadFull(n);
      if !ok {
        return BadValue(UnexpectedEOF, left);
      }
      if ty <= SIGNED_INT64 {
        r := GotValue(SInt(FromSignedLE(buf)), n);
      } else if ty <= UNSIGNED_INT64 {
        r := GotValue(UInt(FromLE(buf)), n);
      } else if ty == FLOAT32 {
        r := GotValue(Float32(FromLE(buf)), n);
      } else {
        r := GotValue(Float64(FromLE(buf)), n);
      }
    }

    method ReadString(ty: byte, n: nat) returns (r: ScannedValue)
      requires Valid()
      modifies this`pos
      ensures Valid()
      ensures r == ScanString(ty, old(input[pos..]), n) && pos == old(pos) + r.used
    {
      ghost var s := input[pos..];
      var left := |input| - pos;
      var ok, buf := ReadFull(n);
      if !ok {
        return BadValue(UnexpectedEOF, left);
      }
      var length := FromLE(buf);
      if length > MAX_ALLOCATION {
        return BadValue(LengthPanic, n);
      }
      assert input[pos..] == s[n..];
      var data;
      ok, data := ReadFull(length);
      if !ok {
        return BadValue(UnexpectedEOF, left);
      }
      assert data == s[n..n + length];
      r := GotValue(if ty < OCTET_STRING1 then Utf8(data) else Octets(data), n + length);
    }

    method ReadValue(ty: byte) returns (r: ScannedValue)
      requires Valid()
      modifies this`pos
      ensures Valid()
      ensures r == ScanValue(ty, old(input[pos..])) && pos == old(pos) + r.used
    {
      if ty <= UNSIGNED_INT64 {
        r := ReadFixed(ty, FieldWidth(ty));
      } else if ty == BOOL_FALSE {
        r := GotValue(Bool(false), 0);
      } else if ty == BOOL_TRUE {
        r := GotValue(Bool(true), 0);
      } else if ty == FLOAT32 {
        r := ReadFixed(ty, 4);
      } else if ty == FLOAT64 {
        r := ReadFixed(ty, 8);
      } else if ty < NULL {
        r := ReadString(ty, FieldWidth(ty));
      } else if ty == NULL {
        r := GotValue(Nil, 0);
      } else {
        r := BadValue(InvalidType, 0);
      }
    }

    /** The bytes of one element after its control byte, without touching the stack. */
    method ReadBody(form: byte, ty: byte) returns (r: Scanned)
      requires Valid()
      requires form + ty < 0x100 && IsForm(form) && ty < 0x20
      modifies this`pos
      ensures Valid()
      ensures r == Scan([form + ty] + old(input[pos..])) && !r.AtEOF? && pos == old(pos) + r.used - 1
    {
      ghost var s := [form + ty] + input[pos..];
      ghost var n := 1 + TagSize(form);
      var start := pos;
      TypeBits(form, ty);
      var ok, tag := DecodeTag(form);
      if !ok {
        return Bad(UnexpectedEOF, 1 + |input| - start);
      }
      assert s[1..n] == input[start..][..n - 1];
      assert s[n..] == input[pos..];
      ScanSplit(s, form, ty, n);
      if ty == END_OF_CONTAINER || IsContainer(ty) {
        return Got(Element(tag, ty, Nil), 1 + pos - start);
      }
      var scanned := ReadValue(ty);
      match scanned {
        case GotValue(v, _) => r := Got(Element(tag, ty, v), 1 + pos - start);
        case BadValue(error, _) => r := Bad(error, 1 + pos - start);
      }
    }

    method Next() returns (r: ReadResult)
      requires Valid()
      modifies this
      ensures Valid()
      ensures (State(), r) == NextStep(old(State()))
    {
      if done {
        return EOF;
      }
      ghost var s := input[pos..];
      var ok, cb := ReadFull(1);
      if !ok {
        done := true;
        return EOF;
      }
      var ty := cb[0] % 0x20;
      var form := cb[0] - ty;
      assert [form + ty] + input[pos..] == s;
      var scanned := ReadBody(form, ty);
      assert input[pos..] == s[scanned.used..];
      match scanned {
        case Bad(error, _) => r := Fault(error);
        case Got(e, _) =>
          if e.ty == END_OF_CONTAINER {
            if |containers| == 0 {
              return Fault(ContainerMismatch);
            }
            containers := containers[..|containers| - 1];
          } else if IsContainer(e.ty) {
            containers := containers + [e.ty];
          }
          elem := e;
          r := Read;
      }
    }
  }
}
