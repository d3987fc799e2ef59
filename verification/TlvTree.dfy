/**
 * Trees of TLV elements, the event stream and bytes they become, and the proof that reading
 * the bytes back gives the tree, whatever its depth.
 */
module TlvTree {
  import opened Bytes
  import opened TlvElement
  import opened TlvReader

  datatype Tree =
    | Leaf(tag: Tag, value: Value)
    | Node(tag: Tag, kind: byte, children: seq<Tree>)

  /** Trees the writer can express: tags and values that fit, and a container type on every node. */
  ghost predicate Fits(t: Tree)
    decreases t
  {
    && TagFits(t.tag)
    && match t
       case Leaf(_, v) => ValueFits(v)
       case Node(_, kind, children) => IsContainer(kind) && forall c :: c in children ==> Fits(c)
  }

  ghost predicate FitsAll(ts: seq<Tree>) {
    forall t :: t in ts ==> Fits(t)
  }

  // ----- trees as event streams ------------------------------------------------------

  const END := Element(NO_TAG, END_OF_CONTAINER, Nil)

  function Head(t: Tree): Element {
    match t
    case Leaf(tag, v) => Element(tag, TypeOf(v), v)
    case Node(tag, kind, _) => Element(tag, kind, Nil)
  }

  /** The pre-order events of a tree: its element, its children, its end. */
  function Events(t: Tree): seq<Element>
    decreases t, 0
  {
    match t
    case Leaf(_, _) => [Head(t)]
    case Node(_, _, children) => [Head(t)] + EventsOf(children) + [END]
  }

  function EventsOf(ts: seq<Tree>): seq<Element>
    decreases ts, 1
  {
    if ts == [] then [] else Events(ts[0]) + EventsOf(ts[1..])
  }

  /** How many containers are open after each event of `t`, when `depth` are open before it. */
  function Depths(t: Tree, depth: nat): seq<nat>
    decreases t, 0
  {
    match t
    case Leaf(_, _) => [depth]
    case Node(_, _, children) => [depth + 1] + DepthsOf(children, depth + 1) + [depth]
  }

  function DepthsOf(ts: seq<Tree>, depth: nat): seq<nat>
    decreases ts, 1
  {
    if ts == [] then [] else Depths(ts[0], depth) + DepthsOf(ts[1..], depth)
  }

  function Wire(es: seq<Element>): seq<byte> {
    if es == [] then [] else ElementBytes(es[0]) + Wire(es[1..])
  }

  function Encode(t: Tree): seq<byte> {
    Wire(Events(t))
  }

  function EncodeAll(ts: seq<Tree>): seq<byte> {
    Wire(EventsOf(ts))
  }

  lemma {:induction false} WireConcat(a: seq<Element>, b: seq<Element>)
    ensures Wire(a + b) == Wire(a) + Wire(b)
  {
    if a == [] {
      assert a + b == b;
    } else {
      assert (a + b)[1..] == a[1..] + b;
      WireConcat(a[1..], b);
    }
  }

  lemma WireOne(e: Element)
    ensures Wire([e]) == ElementBytes(e)
  {
    assert Wire([e]) == ElementBytes(e) + Wire([]);
  }

  lemma {:induction false} EventsConcat(a: seq<Tree>, b: seq<Tree>)
    ensures EventsOf(a + b) == EventsOf(a) + EventsOf(b)
  {
    if a == [] {
      assert a + b == b;
    } else {
      assert (a + b)[1..] == a[1..] + b;
      EventsConcat(a[1..], b);
    }
  }

  lemma EndBytes()
    ensures ElementBytes(END) == [END_OF_CONTAINER]
  {
    ControlByteIsSum(ANONYMOUS, END_OF_CONTAINER);
  }

  lemma EncodeConcat(a: seq<Tree>, b: seq<Tree>)
    ensures EncodeAll(a + b) == EncodeAll(a) + EncodeAll(b)
  {
    EventsConcat(a, b);
    WireConcat(EventsOf(a), EventsOf(b));
  }

  lemma EncodeCons(t: Tree, ts: seq<Tree>)
    ensures EncodeAll([t] + ts) == Encode(t) + EncodeAll(ts)
  {
    assert ([t] + ts)[1..] == ts;
    WireConcat(Events(t), EventsOf(ts));
  }

  lemma EncodeNode(tag: Tag, kind: byte, children: seq<Tree>)
    ensures Encode(Node(tag, kind, children))
         == ElementBytes(Element(tag, kind, Nil)) + EncodeAll(children) + [END_OF_CONTAINER]
  {
    var head := Element(tag, kind, Nil);
    WireConcat([head] + EventsOf(children), [END]);
    WireConcat([head], EventsOf(children));
    WireOne(head);
    WireOne(END);
    EndBytes();
  }

  lemma EncodeLeaf(tag: Tag, v: Value)
    ensures Encode(Leaf(tag, v)) == ElementBytes(Element(tag, TypeOf(v), v))
  {
    WireOne(Element(tag, TypeOf(v), v));
  }

  // ----- running a reader over the bytes ---------------------------------------------

  /** What repeated `Next` calls yield: each element, the depth after it, and why it stopped. */
  datatype Transcript = Transcript(elems: seq<Element>, depths: seq<nat>, stop: ReadResult, final: ReaderState)

  function ReadAll(st: ReaderState): Transcript
    decreases |st.rest|
  {
    var (next, r) := NextStep(st);
    if r.Read? then
      var t := ReadAll(next);
      t.(elems := [next.elem] + t.elems, depths := [|next.containers|] + t.depths)
    else
      Transcript([], [], r, next)
  }

  lemma NextReads(e: Element, rest: seq<byte>, st: ReaderState)
    requires Canonical(e) && !st.done
    requires st.rest == ElementBytes(e) + rest
    requires StackAfter(st.containers, e).Some?
    ensures NextStep(st) == (ReaderState(rest, StackAfter(st.containers, e).value, e, false), Read)
  {
    hide *;
    ElementRoundTrip(e, rest);
    DropPrefix(ElementBytes(e), rest);
    NextGot(st, e, |ElementBytes(e)|);
  }

  lemma NextGot(st: ReaderState, e: Element, used: nat)
    requires !st.done && Scan(st.rest) == Got(e, used)
    requires StackAfter(st.containers, e).Some?
    ensures used <= |st.rest|
    ensures NextStep(st) == (ReaderState(st.rest[used..], StackAfter(st.containers, e).value, e, false), Read)
  {
  }

  lemma DropPrefix<T>(a: seq<T>, b: seq<T>)
    ensures (a + b)[|a|..] == b
  {
  }

  /** A transcript with events put in front of it. */
  function Prepend(elems: seq<Element>, depths: seq<nat>, t: Transcript): Transcript {
    t.(elems := elems + t.elems, depths := depths + t.depths)
  }

  lemma PrependTwice(a: seq<Element>, m: seq<nat>, b: seq<Element>, n: seq<nat>, t: Transcript)
    ensures Prepend(a, m, Prepend(b, n, t)) == Prepend(a + b, m + n, t)
  {
    assert a + (b + t.elems) == (a + b) + t.elems;
    assert m + (n + t.depths) == (m + n) + t.depths;
  }

  /** The state of a reader that has read `es`, with `rest` left and the same containers open. */
  ghost function After(es: seq<Element>, st: ReaderState, rest: seq<byte>): ReaderState {
    ReaderState(rest, st.containers, if es == [] then st.elem else es[|es| - 1], false)
  }

  lemma ReadOne(e: Element, rest: seq<byte>, st: ReaderState, stack: seq<byte>)
    requires Canonical(e) && !st.done
    requires st.rest == ElementBytes(e) + rest
    requires StackAfter(st.containers, e) == Some(stack)
    ensures ReadAll(st) == Prepend([e], [|stack|], ReadAll(ReaderState(rest, stack, e, false)))
  {
    hide NextStep, ElementBytes, Canonical;
    NextReads(e, rest, st);
  }

  /** Reading a tree's bytes yields its events and depths, then goes on with whatever follows. */
  lemma {:induction false} ReadTree(t: Tree, rest: seq<byte>, st: ReaderState)
    requires Fits(t) && !st.done && st.rest == Encode(t) + rest
    ensures ReadAll(st) == Prepend(Events(t), Depths(t, |st.containers|), ReadAll(After(Events(t), st, rest)))
    decreases t, 0
  {
    hide ReadAll, Prepend, ElementBytes, Encode, EncodeAll, TypeOf, TagFits, ValueFits;
    var n := |st.containers|;
    match t
    case Leaf(tag, v) =>
      EncodeLeaf(tag, v);
      HeadIsCanonical(t);
      ReadOne(Head(t), rest, st, st.containers);
    case Node(tag, kind, children) =>
      var head, es := Head(t), EventsOf(children);
      var tail := [END_OF_CONTAINER] + rest;
      var body := EncodeAll(children) + tail;
      assert st.rest == ElementBytes(head) + body by { EncodeNode(tag, kind, children); }
      HeadIsCanonical(t);
      ReadOne(head, body, st, st.containers + [kind]);
      var inside := ReaderState(body, st.containers + [kind], head, false);
      ReadForest(children, tail, inside);
      var closing := After(es, inside, tail);
      EndBytes();
      assert (st.containers + [kind])[..n] == st.containers;
      EndIsCanonical();
      ReadOne(END, rest, closing, st.containers);
      var after := ReadAll(After(Events(t), st, rest));
      PrependTwice(es, DepthsOf(children, n + 1), [END], [n], after);
      PrependTwice([head], [n + 1], es + [END], DepthsOf(children, n + 1) + [n], after);
      assert [head] + (es + [END]) == Events(t);
      assert [n + 1] + (DepthsOf(children, n + 1) + [n]) == Depths(t, n);
  }

  lemma HeadIsCanonical(t: Tree)
    requires Fits(t)
    ensures Canonical(Head(t)) && Head(t).ty != END_OF_CONTAINER
  {
  }

  lemma EndIsCanonical()
    ensures Canonical(END)
  {
  }

  lemma {:induction false} ReadForest(ts: seq<Tree>, rest: seq<byte>, st: ReaderState)
    requires FitsAll(ts) && !st.done && st.rest == EncodeAll(ts) + rest
    ensures ReadAll(st)
         == Prepend(EventsOf(ts), DepthsOf(ts, |st.containers|), ReadAll(After(EventsOf(ts), st, rest)))
    decreases ts, 1
  {
    hide ReadAll, Encode, Events, Depths, Wire, Fits, Prepend;
    var n := |st.containers|;
    if ts == [] {
      ReadNothing(st, rest);
    } else {
      var first, others := ts[0], ts[1..];
      var left := EncodeAll(others) + rest;
      SplitForest(ts, rest);
      ReadTree(first, left, st);
      var mid := After(Events(first), st, left);
      ReadForest(others, rest, mid);
      AfterTwice(first, EventsOf(others), st, left, rest);
      PrependTwice(Events(first), Depths(first, n), EventsOf(others), DepthsOf(others, n),
                   ReadAll(After(EventsOf(ts), st, rest)));
    }
  }

  lemma ReadNothing(st: ReaderState, rest: seq<byte>)
    requires st.rest == EncodeAll([]) + rest && !st.done
    ensures ReadAll(st) == Prepend([], [], ReadAll(After([], st, rest)))
  {
    assert st == After([], st, rest);
  }

  lemma SplitForest(ts: seq<Tree>, rest: seq<byte>)
    requires ts != []
    ensures EncodeAll(ts) + rest == Encode(ts[0]) + (EncodeAll(ts[1..]) + rest)
    ensures EventsOf(ts) == Events(ts[0]) + EventsOf(ts[1..])
  {
    hide Encode, EncodeAll, Events;
    EncodeCons(ts[0], ts[1..]);
    assert [ts[0]] + ts[1..] == ts;
  }

  lemma AfterTwice(t: Tree, es: seq<Element>, st: ReaderState, mid: seq<byte>, rest: seq<byte>)
    ensures After(es, After(Events(t), st, mid), rest) == After(Events(t) + es, st, rest)
  {
  }

  /**
   * Writing a forest and reading it to the end yields exactly its pre-order events, with the depth
   * at each step equal to the number of enclosing containers, then a clean end of input.
   */
  lemma ReadBack(ts: seq<Tree>)
    requires FitsAll(ts)
    ensures var t := ReadAll(Opened(EncodeAll(ts)));
      && t.elems == EventsOf(ts) && t.depths == DepthsOf(ts, 0)
      && t.stop == EOF && t.final.containers == [] && t.final.rest == []
  {
    var st := Opened(EncodeAll(ts));
    assert EncodeAll(ts) + [] == EncodeAll(ts);
    ReadForest(ts, [], st);
    var done := After(EventsOf(ts), st, []);
    assert ReadAll(done).elems == [] && ReadAll(done).depths == [];
  }

  // ----- parsing trees from bytes ----------------------------------------------------

  /** A tree taken off the front of a byte string by recursive descent, or the first read error. */
  datatype Parsed<T> = Parsed(value: T, rest: seq<byte>) | Failed(why: ReadResult)

  function ParseTree(s: seq<byte>): (r: Parsed<Tree>)
    ensures r.Parsed? ==> |r.rest| < |s|
    decreases |s|, 1
  {
    match Scan(s)
    case AtEOF => Failed(EOF)
    case Bad(error, _) => Failed(Fault(error))
    case Got(e, used) =>
      if e.ty == END_OF_CONTAINER then Failed(Fault(ContainerMismatch))
      else ParseRest(e, s[used..])
  }

  /** The tree whose first element `e` has been read: its children follow when it is a container. */
  function ParseRest(e: Element, s: seq<byte>): (r: Parsed<Tree>)
    ensures r.Parsed? ==> |r.rest| <= |s|
    decreases |s|, 2
  {
    if IsContainer(e.ty) then
      match ParseChildren(s)
      case Parsed(kids, rest) => Parsed(Node(e.tag, e.ty, kids), rest)
      case Failed(why) => Failed(why)
    else Parsed(Leaf(e.tag, e.value), s)
  }

  /** Children up to and including the end-of-container that closes them. */
  function ParseChildren(s: seq<byte>): (r: Parsed<seq<Tree>>)
    ensures r.Parsed? ==> |r.rest| < |s|
    decreases |s|, 1
  {
    match Scan(s)
    case AtEOF => Failed(EOF)
    case Bad(error, _) => Failed(Fault(error))
    case Got(e, used) =>
      if e.ty == END_OF_CONTAINER then Parsed([], s[used..])
      else
        match ParseRest(e, s[used..])
        case Failed(why) => Failed(why)
        case Parsed(t, rest) =>
          match ParseChildren(rest)
          case Failed(why) => Failed(why)
          case Parsed(ts, rest') => Parsed([t] + ts, rest')
  }

  lemma ScanHead(t: Tree, rest: seq<byte>)
    requires Fits(t)
    ensures Canonical(Head(t)) && Head(t).ty != END_OF_CONTAINER
    ensures Scan(ElementBytes(Head(t)) + rest) == Got(Head(t), |ElementBytes(Head(t))|)
    ensures (ElementBytes(Head(t)) + rest)[|ElementBytes(Head(t))|..] == rest
  {
    hide Scan, ElementBytes;
    ElementRoundTrip(Head(t), rest);
  }

  /** What follows a tree's first element when `rest` follows the tree. */
  function Body(t: Tree, rest: seq<byte>): seq<byte> {
    match t
    case Leaf(_, _) => rest
    case Node(_, _, kids) => EncodeAll(kids) + [END_OF_CONTAINER] + rest
  }

  lemma EncodeHead(t: Tree, rest: seq<byte>)
    ensures Encode(t) + rest == ElementBytes(Head(t)) + Body(t, rest)
  {
    match t
    case Leaf(tag, v) => EncodeLeaf(tag, v);
    case Node(tag, kind, kids) => EncodeNode(tag, kind, kids);
  }

  /** Parsing an encoded tree gives the tree and stops exactly at its end. */
  lemma ParseEncode(t: Tree, rest: seq<byte>)
    requires Fits(t)
    ensures ParseTree(Encode(t) + rest) == Parsed(t, rest)
  {
    hide Scan, ElementBytes, Encode, ParseRest, Canonical, Fits;
    EncodeHead(t, rest);
    ScanHead(t, Body(t, rest));
    ParseBody(t, rest);
  }

  lemma {:induction false} ParseBody(t: Tree, rest: seq<byte>)
    requires Fits(t)
    ensures ParseRest(Head(t), Body(t, rest)) == Parsed(t, rest)
    decreases t, 0
  {
    if t.Node? { ParseEncodeAll(t.children, rest); }
  }

  lemma {:induction false} ParseEncodeAll(ts: seq<Tree>, rest: seq<byte>)
    requires FitsAll(ts)
    ensures ParseChildren(EncodeAll(ts) + [END_OF_CONTAINER] + rest) == Parsed(ts, rest)
    decreases ts, 1
  {
    if ts == [] {
      EndBytes();
      EndIsCanonical();
      hide Scan, ElementBytes, Canonical;
      ElementRoundTrip(END, rest);
      DropPrefix(ElementBytes(END), rest);
      assert EncodeAll(ts) + [END_OF_CONTAINER] + rest == ElementBytes(END) + rest;
    } else {
      hide Scan, Encode, EncodeAll, Fits, Body, Canonical, ElementBytes, Head;
      var tail := [END_OF_CONTAINER] + rest;
      var after := EncodeAll(ts[1..]) + tail;
      EncodeCons(ts[0], ts[1..]);
      assert [ts[0]] + ts[1..] == ts;
      assert EncodeAll(ts) + [END_OF_CONTAINER] + rest == Encode(ts[0]) + after;
      EncodeHead(ts[0], after);
      ScanHead(ts[0], Body(ts[0], after));
      ParseBody(ts[0], after);
      assert after == EncodeAll(ts[1..]) + [END_OF_CONTAINER] + rest;
      ParseEncodeAll(ts[1..], rest);
    }
  }

  /** Encodings are prefix-free: two of them at the front of the same bytes are the same tree. */
  lemma EncodePrefixFree(t: Tree, u: Tree, x: seq<byte>, y: seq<byte>)
    requires Fits(t) && Fits(u)
    requires Encode(t) + x == Encode(u) + y
    ensures t == u && x == y
  {
    ParseEncode(t, x);
    ParseEncode(u, y);
  }

  /** Different forests have different encodings. */
  lemma EncodeAllInjective(ts: seq<Tree>, us: seq<Tree>)
    requires FitsAll(ts) && FitsAll(us)
    requires EncodeAll(ts) == EncodeAll(us)
    ensures ts == us
  {
    ParseEncodeAll(ts, []);
    ParseEncodeAll(us, []);
  }

  // ----- inserting before the final end-of-container ---------------------------------

  /** Bytes with `inserted` put just before the last one, which is written back after it. */
  function InsertBeforeLast(s: seq<byte>, inserted: seq<byte>): seq<byte>
    requires s != []
  {
    s[..|s| - 1] + inserted + [s[|s| - 1]]
  }

  /** Encoded elements put just before a container's end become its last children. */
  lemma InsertChildren(tag: Tag, kind: byte, kids: seq<Tree>, extra: seq<Tree>)
    ensures var s := Encode(Node(tag, kind, kids));
      && s != [] && s[|s| - 1] == END_OF_CONTAINER
      && InsertBeforeLast(s, EncodeAll(extra)) == Encode(Node(tag, kind, kids + extra))
  {
    hide Encode, EncodeAll, ElementBytes;
    EncodeNode(tag, kind, kids);
    EncodeNode(tag, kind, kids + extra);
    EncodeConcat(kids, extra);
    var s := Encode(Node(tag, kind, kids));
    assert s[..|s| - 1] == ElementBytes(Element(tag, kind, Nil)) + EncodeAll(kids);
  }
}
