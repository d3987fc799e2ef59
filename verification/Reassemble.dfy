/** Undoing list chunking: one report per attribute value (internal/interaction/reassemble.go). */
module Reassemble {
  import opened Bytes
  import opened TlvElement
  import opened TlvTree

  /** `tlv.Optional`: absent, explicit null (append to the list) or an index. */
  datatype ListIndex = Absent | NullIndex | At(index: u16)

  datatype AttributePath = AttributePath(
    nodeID: Option<u64>, endpointID: Option<u16>, clusterID: Option<u32>, attributeID: Option<u32>,
    listIndex: ListIndex)

  datatype AttributeData = AttributeData(dataVersion: u32, path: AttributePath, data: seq<byte>)

  datatype StatusIB = StatusIB(status: byte, clusterStatus: Option<byte>)

  datatype AttributeStatus = AttributeStatus(path: AttributePath, status: StatusIB)

  datatype AttributeReport = AttributeReport(status: Option<AttributeStatus>, data: Option<AttributeData>)

  datatype GroupKey = GroupKey(endpoint: u16, cluster: u32, attribute: u32)

  /** `attributeReportKey`: absent for status-only reports and incomplete paths. */
  function ReportKey(r: AttributeReport): Option<GroupKey> {
    if r.data.None? then None
    else
      var p := r.data.value.path;
      if p.endpointID.None? || p.clusterID.None? || p.attributeID.None? then None
      else Some(GroupKey(p.endpointID.value, p.clusterID.value, p.attributeID.value))
  }

  predicate IsListElement(raw: seq<byte>) {
    |raw| >= 2 && raw[0] == ARRAY
  }

  function SpliceListItems(base: seq<byte>, items: seq<seq<byte>>): Option<seq<byte>> {
    if !IsListElement(base) then None
    else Some([base[0]] + base[1..|base| - 1] + Concat(items) + [END_OF_CONTAINER])
  }

  function Concat(items: seq<seq<byte>>): seq<byte> {
    if items == [] then [] else items[0] + Concat(items[1..])
  }

  function FinalizeListGroup(base: AttributeReport, appends: seq<seq<byte>>): AttributeReport {
    if appends == [] || base.data.None? then base
    else
      match SpliceListItems(base.data.value.data, appends)
      case None => base
      case Some(spliced) => base.(data := Some(base.data.value.(data := spliced)))
  }

  // ----- what a grouping is -----------------------------------------------------------

  /** An append fragment: keyed, with an explicit null list index. */
  predicate IsAppend(r: AttributeReport) {
    ReportKey(r).Some? && r.data.value.path.listIndex.NullIndex?
  }

  /** A report that appends after it may continue: keyed, not itself an append, carrying an array. */
  predicate OpensList(r: AttributeReport) {
    ReportKey(r).Some? && !r.data.value.path.listIndex.NullIndex? && IsListElement(r.data.value.data)
  }

  /** `r` is an append to the list that `base` opens. */
  predicate Continues(base: AttributeReport, r: AttributeReport) {
    OpensList(base) && IsAppend(r) && ReportKey(r) == ReportKey(base)
  }

  /** A report with the appends that belong to it. */
  predicate IsGroup(g: seq<AttributeReport>) {
    g != [] && forall i :: 0 < i < |g| ==> Continues(g[0], g[i])
  }

  /** Consecutive groups, none of which could have taken in the report after it. */
  ghost predicate IsGrouping(gs: seq<seq<AttributeReport>>) {
    && (forall i :: 0 <= i < |gs| ==> IsGroup(gs[i]))
    && (forall i, j :: 0 <= i < j < |gs| && j == i + 1 ==> Apart(gs[i], gs[j]))
  }

  /** The report after group `g` could not have joined it. */
  predicate Apart(g: seq<AttributeReport>, next: seq<AttributeReport>) {
    g != [] && next != [] && !Continues(g[0], next[0])
  }

  function Flatten(gs: seq<seq<AttributeReport>>): seq<AttributeReport> {
    if gs == [] then [] else gs[0] + Flatten(gs[1..])
  }

  function Payloads(rs: seq<AttributeReport>): (s: seq<seq<byte>>)
    requires forall i :: 0 <= i < |rs| ==> rs[i].data.Some?
    ensures |s| == |rs| && forall i :: 0 <= i < |s| ==> s[i] == rs[i].data.value.data
  {
    seq(|rs|, i requires 0 <= i < |rs| => rs[i].data.value.data)
  }

  /** The one report a group stands for. */
  function Collapse(g: seq<AttributeReport>): AttributeReport
    requires IsGroup(g)
  {
    FinalizeListGroup(g[0], Payloads(g[1..]))
  }

  function CollapseAll(gs: seq<seq<AttributeReport>>): (rs: seq<AttributeReport>)
    requires forall i :: 0 <= i < |gs| ==> IsGroup(gs[i])
    ensures |rs| == |gs| && forall i :: 0 <= i < |gs| ==> rs[i] == Collapse(gs[i])
  {
    seq(|gs|, i requires 0 <= i < |gs| => Collapse(gs[i]))
  }

  /** How many of the reports at the front of `rs` append to the list `base` opens. */
  function RunLength(base: AttributeReport, rs: seq<AttributeReport>): (n: nat)
    ensures n <= |rs|
    ensures forall i :: 0 <= i < n ==> Continues(base, rs[i])
    ensures n < |rs| ==> !Continues(base, rs[n])
  {
    if rs == [] || !Continues(base, rs[0]) then 0 else 1 + RunLength(base, rs[1..])
  }

  function Groups(rs: seq<AttributeReport>): (gs: seq<seq<AttributeReport>>)
    ensures forall i :: 0 <= i < |gs| ==> IsGroup(gs[i])
  {
    if rs == [] then []
    else
      var n := 1 + RunLength(rs[0], rs[1..]);
      [rs[..n]] + Groups(rs[n..])
  }

  /** Reassembly: every group, in order, collapsed to one report. */
  function Reassembled(rs: seq<AttributeReport>): seq<AttributeReport> {
    CollapseAll(Groups(rs))
  }

  /** The groups are a cut of the input, in order and leaving nothing out, and each is as long as it can be. */
  lemma {:induction false} GroupsArePartition(rs: seq<AttributeReport>)
    ensures Flatten(Groups(rs)) == rs && IsGrouping(Groups(rs))
    ensures rs != [] ==> Groups(rs) != [] && Groups(rs)[0][0] == rs[0]
  {
    if rs != [] {
      hide Continues, IsGroup, IsGrouping;
      var n := 1 + RunLength(rs[0], rs[1..]);
      var g, rest := rs[..n], rs[n..];
      GroupsArePartition(rest);
      assert Groups(rs) == [g] + Groups(rest) && Groups(rs)[0] == g;
      assert g + rest == rs;
      if rest != [] {
        assert rs[1..][n - 1] == rest[0];
      }
      ConsGrouping(g, Groups(rest));
    }
  }

  lemma ConsGrouping(g: seq<AttributeReport>, others: seq<seq<AttributeReport>>)
    requires IsGroup(g) && IsGrouping(others) && (others != [] ==> Apart(g, others[0]))
    ensures IsGrouping([g] + others)
  {
    hide Apart, IsGroup;
    var gs := [g] + others;
    forall i, j | 0 <= i < j < |gs| && j == i + 1
      ensures Apart(gs[i], gs[j])
    {
      if i > 0 { assert gs[i] == others[i - 1] && gs[j] == others[j - 1]; }
    }
  }

  /** ... and it is the only such cut. */
  lemma {:induction false} GroupingUnique(gs: seq<seq<AttributeReport>>)
    requires IsGrouping(gs)
    ensures Groups(Flatten(gs)) == gs
  {
    if gs != [] {
      var g, others := gs[0], gs[1..];
      var rest := Flatten(others);
      assert IsGroup(g);
      TailIsGrouping(gs);
      if others != [] {
        assert Apart(gs[0], gs[1]) && others[0] == gs[1] && rest[0] == gs[1][0];
      }
      var rs := g + rest;
      assert rs[1..] == g[1..] + rest;
      RunIs(g[0], g[1..], rest);
      assert rs[..|g|] == g && rs[|g|..] == rest;
      GroupingUnique(others);
    }
  }

  lemma TailIsGrouping(gs: seq<seq<AttributeReport>>)
    requires IsGrouping(gs) && gs != []
    ensures IsGrouping(gs[1..])
  {
    var others := gs[1..];
    forall i, j | 0 <= i < j < |others| && j == i + 1
      ensures Apart(others[i], others[j])
    {
      assert Apart(gs[i + 1], gs[j + 1]);
    }
  }

  lemma {:induction false} RunIs(base: AttributeReport, run: seq<AttributeReport>, rest: seq<AttributeReport>)
    requires forall i :: 0 <= i < |run| ==> Continues(base, run[i])
    requires rest != [] ==> !Continues(base, rest[0])
    ensures RunLength(base, run + rest) == |run|
  {
    if run != [] {
      assert (run + rest)[1..] == run[1..] + rest;
      RunIs(base, run[1..], rest);
    } else {
      assert run + rest == rest;
    }
  }

  // ----- the loop ---------------------------------------------------------------------

  /** The first group and the reassembly of what follows it. */
  lemma TakeGroup(rs: seq<AttributeReport>, n: nat)
    requires 0 < n <= |rs|
    requires forall i :: 0 < i < n ==> Continues(rs[0], rs[i])
    requires n < |rs| ==> !Continues(rs[0], rs[n])
    ensures IsGroup(rs[..n]) && Reassembled(rs) == [Collapse(rs[..n])] + Reassembled(rs[n..])
  {
    hide Continues, Collapse, FinalizeListGroup;
    var run, rest := rs[1..n], rs[n..];
    assert rs[1..] == run + rest;
    RunIs(rs[0], run, rest);
    assert Groups(rs) == [rs[..n]] + Groups(rest);
  }

  method ReassembleListChunks(reports: seq<AttributeReport>) returns (merged: seq<AttributeReport>)
    ensures merged == Reassembled(reports)
  {
    hide GroupOpen, Reassembled, IsListElement, FinalizeListGroup;
    merged := [];
    var haveOpen := false;
    var openKey := GroupKey(0, 0, 0);
    var openBase := AttributeReport(None, None);
    var isArray := false;
    var appends: seq<seq<byte>> := [];
    ghost var group: seq<AttributeReport> := [];  // the open group; everything before it is in `merged`
    assert [] + reports[0..] == reports;
    for n := 0 to |reports|
      invariant haveOpen <==> group != []
      invariant Reassembled(reports) == merged + Reassembled(group + reports[n..])
      invariant haveOpen ==> GroupOpen(group, openKey, openBase, isArray, appends)
      invariant !haveOpen ==> appends == []
    {
      var r := reports[n];
      ghost var rest := reports[n + 1..];
      assert reports[n..] == [r] + rest;
      var key := ReportKey(r);
      if haveOpen && key.Some? && r.data.value.path.listIndex.NullIndex? && isArray && key.value == openKey {
        ExtendGroup(group, openKey, openBase, isArray, appends, r);
        appends := appends + [r.data.value.data];
        assert group + ([r] + rest) == (group + [r]) + rest;
        group := group + [r];
      } else {
        if haveOpen {
          CloseGroup(group, [r] + rest, openKey, openBase, isArray, appends, merged);
          merged := merged + [FinalizeListGroup(openBase, appends)];
          haveOpen, appends, group := false, [], [];
        }
        assert [] + ([r] + rest) == [r] + rest;
        if key.None? || r.data.value.path.listIndex.NullIndex? {
          SingleGroup(r, rest, merged);
          merged := merged + [r];
          assert [] + rest == rest;
        } else {
          OpenGroup(r, key.value);
          haveOpen, openKey, openBase, group := true, key.value, r, [r];
          isArray := IsListElement(r.data.value.data);
        }
      }
    }
    assert reports[|reports|..] == [];
    NoReports(merged);
    if haveOpen {
      CloseGroup(group, [], openKey, openBase, isArray, appends, merged);
      merged := merged + [FinalizeListGroup(openBase, appends)];
      NoReports(merged);
    }
  }

  /** The loop's variables describe the group `g` that is still open. */
  ghost predicate GroupOpen(g: seq<AttributeReport>, key: GroupKey, base: AttributeReport, isArray: bool,
                            appends: seq<seq<byte>>) {
    && IsGroup(g) && g[0] == base
    && ReportKey(base) == Some(key) && !base.data.value.path.listIndex.NullIndex?
    && isArray == IsListElement(base.data.value.data)
    && Payloads(g[1..]) == appends
  }

  lemma NoReports(merged: seq<AttributeReport>)
    ensures merged + Reassembled([]) == merged
  {
    assert Reassembled([]) == [];
  }

  lemma OpenGroup(r: AttributeReport, key: GroupKey)
    requires ReportKey(r) == Some(key) && !IsAppend(r)
    ensures GroupOpen([r], key, r, IsListElement(r.data.value.data), [])
  {
  }

  lemma ExtendGroup(g: seq<AttributeReport>, key: GroupKey, base: AttributeReport, isArray: bool,
                    appends: seq<seq<byte>>, r: AttributeReport)
    requires GroupOpen(g, key, base, isArray, appends)
    requires isArray && IsAppend(r) && ReportKey(r) == Some(key)
    ensures GroupOpen(g + [r], key, base, isArray, appends + [r.data.value.data])
  {
    assert (g + [r])[1..] == g[1..] + [r];
    assert Continues(base, r);
  }

  /** An open group that the next report does not continue is finished. */
  lemma CloseGroup(g: seq<AttributeReport>, rest: seq<AttributeReport>, key: GroupKey, base: AttributeReport,
                   isArray: bool, appends: seq<seq<byte>>, merged: seq<AttributeReport>)
    requires GroupOpen(g, key, base, isArray, appends)
    requires rest != [] ==> !(isArray && IsAppend(rest[0]) && ReportKey(rest[0]) == Some(key))
    ensures merged + Reassembled(g + rest) == merged + [FinalizeListGroup(base, appends)] + Reassembled(rest)
  {
    hide FinalizeListGroup, Reassembled, IsListElement;
    var rs := g + rest;
    assert rs[..|g|] == g && rs[|g|..] == rest;
    assert forall i :: 0 < i < |g| ==> Continues(rs[0], g[i]) && rs[i] == g[i];
    TakeGroup(rs, |g|);
  }

  lemma SingleGroup(r: AttributeReport, rest: seq<AttributeReport>, merged: seq<AttributeReport>)
    requires ReportKey(r).None? || IsAppend(r)
    ensures merged + Reassembled([r] + rest) == merged + [r] + Reassembled(rest)
  {
    hide Reassembled, Collapse, Continues, IsAppend, ReportKey;
    var rs := [r] + rest;
    assert rs[..1] == [r] && rs[1..] == rest;
    TakesNoAppend(r, if rest == [] then r else rest[0]);
    CollapseAlone(r);
    TakeGroup(rs, 1);
  }

  lemma TakesNoAppend(r: AttributeReport, next: AttributeReport)
    requires ReportKey(r).None? || IsAppend(r)
    ensures !Continues(r, next)
  {
  }

  lemma CollapseAlone(r: AttributeReport)
    ensures IsGroup([r]) && Collapse([r]) == r
  {
  }

  // ----- nothing is lost, reordered or merged twice -----------------------------------

  /** The non-append reports, in order, without the values they carry. */
  function Skeleton(rs: seq<AttributeReport>): seq<AttributeReport> {
    if rs == [] then []
    else (if IsAppend(rs[0]) then [] else [Bare(rs[0])]) + Skeleton(rs[1..])
  }

  function Bare(r: AttributeReport): AttributeReport {
    if r.data.None? then r else r.(data := Some(r.data.value.(data := [])))
  }

  lemma {:induction false} SkeletonConcat(a: seq<AttributeReport>, b: seq<AttributeReport>)
    ensures Skeleton(a + b) == Skeleton(a) + Skeleton(b)
  {
    if a == [] {
      assert a + b == b;
    } else {
      assert (a + b)[1..] == a[1..] + b;
      SkeletonConcat(a[1..], b);
    }
  }

  lemma {:induction false} SkeletonOfAppends(rs: seq<AttributeReport>)
    requires forall i :: 0 <= i < |rs| ==> IsAppend(rs[i])
    ensures Skeleton(rs) == []
  {
    if rs != [] { SkeletonOfAppends(rs[1..]); }
  }

  lemma CollapseKeepsHead(g: seq<AttributeReport>)
    requires IsGroup(g)
    ensures var r := Collapse(g);
      && Bare(r) == Bare(g[0]) && ReportKey(r) == ReportKey(g[0])
      && IsAppend(r) == IsAppend(g[0]) && OpensList(r) == OpensList(g[0])
  {
  }

  /** How many reports were spliced into another one. */
  function Absorbed(gs: seq<seq<AttributeReport>>): int {
    if gs == [] then 0 else |gs[0]| - 1 + Absorbed(gs[1..])
  }

  lemma SkeletonOfGroup(g: seq<AttributeReport>)
    requires IsGroup(g)
    ensures Skeleton(g) == Skeleton([Collapse(g)])
  {
    CollapseKeepsHead(g);
    SkeletonOfAppends(g[1..]);
    assert Skeleton([]) == [];
  }

  lemma FirstGroup(rs: seq<AttributeReport>)
    requires rs != []
    ensures var n := 1 + RunLength(rs[0], rs[1..]);
      && IsGroup(rs[..n]) && rs == rs[..n] + rs[n..]
      && Reassembled(rs) == [Collapse(rs[..n])] + Reassembled(rs[n..])
  {
    hide Continues, Collapse, Reassembled, Groups;
    var n := 1 + RunLength(rs[0], rs[1..]);
    forall i | 0 < i < n
      ensures Continues(rs[0], rs[i])
    {
      assert rs[i] == rs[1..][i - 1];
    }
    assert n < |rs| ==> rs[n] == rs[1..][n - 1];
    TakeGroup(rs, n);
  }

  /**
   * On any report sequence, in or out of spec: every report that is not an append comes out once, in
   * order and unchanged but for its value, and what the output lacks in length is what was spliced in.
   */
  lemma NothingLost(rs: seq<AttributeReport>)
    ensures Skeleton(Reassembled(rs)) == Skeleton(rs)
    ensures |Reassembled(rs)| + Absorbed(Groups(rs)) == |rs|
  {
    if rs != [] {
      hide Reassembled, Collapse, Continues;
      var n := 1 + RunLength(rs[0], rs[1..]);
      var g, rest := rs[..n], rs[n..];
      FirstGroup(rs);
      NothingLost(rest);
      SkeletonOfGroup(g);
      SkeletonConcat(g, rest);
      SkeletonConcat([Collapse(g)], Reassembled(rest));
      assert Groups(rs)[1..] == Groups(rest);
    }
  }

  lemma {:induction false} FlattenSingletons(rs: seq<AttributeReport>)
    ensures Flatten(seq(|rs|, i requires 0 <= i < |rs| => [rs[i]])) == rs
  {
    if rs != [] {
      var gs := seq(|rs|, i requires 0 <= i < |rs| => [rs[i]]);
      var others := rs[1..];
      assert gs[1..] == seq(|others|, i requires 0 <= i < |others| => [others[i]]);
      FlattenSingletons(others);
    }
  }

  /** Reassembling what has been reassembled changes nothing. */
  lemma Idempotent(rs: seq<AttributeReport>)
    ensures Reassembled(Reassembled(rs)) == Reassembled(rs)
  {
    GroupsArePartition(rs);
    var gs, out := Groups(rs), Reassembled(rs);
    var singles := seq(|out|, i requires 0 <= i < |out| => [out[i]]);
    forall i, j | 0 <= i < j < |singles| && j == i + 1
      ensures Apart(singles[i], singles[j])
    {
      assert Apart(gs[i], gs[j]);
      CollapseKeepsHead(gs[i]);
      CollapseKeepsHead(gs[j]);
    }
    FlattenSingletons(out);
    GroupingUnique(singles);
    forall i | 0 <= i < |out|
      ensures Collapse(singles[i]) == out[i]
    {
    }
  }

  // ----- undoing chunking -------------------------------------------------------------

  /** The canonical bytes of an array value, as a report carries it. */
  function ArrayBytes(items: seq<Tree>): seq<byte> {
    Encode(Node(NO_TAG, ARRAY, items))
  }

  /**
   * `sent` is the array value of `r` cut after its first `k` items: a marker with those items, then an
   * append for each of the others.  The appends' other fields are unconstrained.
   */
  ghost predicate CutAt(r: AttributeReport, sent: seq<AttributeReport>, items: seq<Tree>, k: nat) {
    && HasFullPath(r) && r.data.value.data == ArrayBytes(items) && k <= |items|
    && |sent| == 1 + |items| - k
    && sent[0] == r.(data := Some(r.data.value.(data := ArrayBytes(items[..k]))))
    && forall i :: 0 < i < |sent| ==>
         && AppendsAt(sent[i], r.data.value.path)
         && sent[i].data.value.data == Encode(items[k + i - 1])
  }

  /** The report carries data for an attribute named in full; a node ID is not needed. */
  predicate HasFullPath(r: AttributeReport) {
    && r.data.Some?
    && var p := r.data.value.path;
    p.endpointID.Some? && p.clusterID.Some? && p.attributeID.Some?
  }

  /** The report appends one item to the list at `path`: the same attribute, and a list index that is null. */
  predicate AppendsAt(r: AttributeReport, path: AttributePath) {
    && r.data.Some?
    && var p := r.data.value.path;
    && p.endpointID == path.endpointID && p.clusterID == path.clusterID && p.attributeID == path.attributeID
    && p.listIndex.NullIndex?
  }

  lemma KeyWhen(r: AttributeReport)
    ensures ReportKey(r).Some? <==> HasFullPath(r)
    ensures IsAppend(r) <==> HasFullPath(r) && r.data.value.path.listIndex.NullIndex?
  {
  }

  /** When a fragment is merged into the one before it, in terms of the fields of the two. */
  lemma ContinuesWhen(base: AttributeReport, r: AttributeReport)
    ensures Continues(base, r) <==>
              && base.data.Some? && r.data.Some?
              && var (p, q) := (base.data.value.path, r.data.value.path);
              && p.endpointID.Some? && p.clusterID.Some? && p.attributeID.Some?
              && q.endpointID == p.endpointID && q.clusterID == p.clusterID && q.attributeID == p.attributeID
              && !p.listIndex.NullIndex? && q.listIndex.NullIndex?
              && |base.data.value.data| >= 2 && base.data.value.data[0] == 0x16
  {
  }

  /** One more fragment goes in just before the last byte, whatever the bytes are; nothing else changes. */
  lemma CollapseOneMore(g: seq<AttributeReport>, r: AttributeReport)
    requires IsGroup(g) && Continues(g[0], r)
    ensures IsGroup(g + [r])
    ensures var d := Collapse(g).data.value.data;
            && |d| >= 2
            && Collapse(g + [r])
            == g[0].(data := Some(g[0].data.value.(data := d[..|d| - 1] + r.data.value.data + [0x18])))
  {
    var more := g + [r];
    assert forall i :: 0 < i < |g| ==> more[i] == g[i];
    assert IsGroup(more);
    assert more[1..] == g[1..] + [r];
    var base, items := g[0].data.value.data, Payloads(g[1..]);
    assert Payloads(more[1..]) == items + [r.data.value.data];
    hide Concat, SpliceListItems;
    ConcatSnoc(items, r.data.value.data);
    NothingConcat();
    SplicedBytes(base, items);
    SplicedBytes(base, items + [r.data.value.data]);
    var head, d := base[..|base| - 1] + Concat(items), Collapse(g).data.value.data;
    assert d[..|d| - 1] == head by {
      if |g| == 1 { assert items == [] && d == base; } else { assert d == head + [0x18]; }
    }
    assert base[..|base| - 1] + (Concat(items) + r.data.value.data) == head + r.data.value.data;
  }

  lemma NothingConcat()
    ensures Concat([]) == []
  {
  }

  lemma SplicedBytes(base: seq<byte>, items: seq<seq<byte>>)
    requires IsListElement(base)
    ensures SpliceListItems(base, items) == Some(base[..|base| - 1] + Concat(items) + [0x18])
  {
    assert [base[0]] + base[1..|base| - 1] == base[..|base| - 1];
  }

  lemma {:induction false} ConcatSnoc(items: seq<seq<byte>>, last: seq<byte>)
    ensures Concat(items + [last]) == Concat(items) + last
  {
    if items == [] {
      assert Concat([last]) == last + Concat([]);
      assert items + [last] == [last];
    } else {
      assert (items + [last])[1..] == items[1..] + [last];
      ConcatSnoc(items[1..], last);
    }
  }

  /** The ways the specification lets one logical report be sent. */
  ghost predicate SentAs(r: AttributeReport, sent: seq<AttributeReport>) {
    sent == [r] || exists items, k :: CutAt(r, sent, items, k)
  }

  lemma ArrayIsList(items: seq<Tree>)
    ensures var b := ArrayBytes(items);
      IsListElement(b) && [b[0]] + b[1..|b| - 1] == b[..|b| - 1]
  {
    EncodeNode(NO_TAG, ARRAY, items);
    ControlByteIsSum(ANONYMOUS, ARRAY);
    assert ElementBytes(Element(NO_TAG, ARRAY, Nil)) == [ARRAY];
  }

  lemma {:induction false} ConcatIsEncodeAll(items: seq<Tree>, bytes: seq<seq<byte>>)
    requires |bytes| == |items| && forall i :: 0 <= i < |items| ==> bytes[i] == Encode(items[i])
    ensures Concat(bytes) == EncodeAll(items)
  {
    if items != [] {
      ConcatIsEncodeAll(items[1..], bytes[1..]);
      EncodeCons(items[0], items[1..]);
      assert [items[0]] + items[1..] == items;
    }
  }

  /** Splicing encoded items into an array value is appending them to the array. */
  lemma SpliceAppends(items: seq<Tree>, more: seq<Tree>, bytes: seq<seq<byte>>)
    requires |bytes| == |more| && forall i :: 0 <= i < |more| ==> bytes[i] == Encode(more[i])
    ensures SpliceListItems(ArrayBytes(items), bytes) == Some(ArrayBytes(items + more))
  {
    ArrayIsList(items);
    InsertChildren(NO_TAG, ARRAY, items, more);
    ConcatIsEncodeAll(more, bytes);
  }

  lemma CollapseUndoesCut(r: AttributeReport, sent: seq<AttributeReport>, items: seq<Tree>, k: nat)
    requires CutAt(r, sent, items, k) && !IsAppend(r)
    ensures IsGroup(sent) && Collapse(sent) == r
  {
    hide ArrayBytes, Encode;
    CutIsGroup(r, sent, items, k);
    if |sent| == 1 {
      assert items[..k] == items;
    } else {
      var bytes := Payloads(sent[1..]);
      assert items[..k] + items[k..] == items;
      hide SpliceListItems;
      SpliceAppends(items[..k], items[k..], bytes);
    }
  }

  lemma CutIsGroup(r: AttributeReport, sent: seq<AttributeReport>, items: seq<Tree>, k: nat)
    requires CutAt(r, sent, items, k) && !IsAppend(r)
    ensures IsGroup(sent)
  {
    hide ArrayBytes, Encode;
    ArrayIsList(items[..k]);
    assert OpensList(sent[0]);
    forall i | 0 < i < |sent|
      ensures Continues(sent[0], sent[i])
    {
      assert IsAppend(sent[i]);
    }
  }

  /**
   * Cut the array values of a report list however the specification allows, and reassembly returns
   * the list, byte for byte.
   */
  lemma UndoesChunking(rs: seq<AttributeReport>, sent: seq<seq<AttributeReport>>)
    requires |sent| == |rs|
    requires forall i :: 0 <= i < |rs| ==> SentAs(rs[i], sent[i])
    requires forall i :: 0 <= i < |rs| && HasFullPath(rs[i]) ==> !rs[i].data.value.path.listIndex.NullIndex?
    ensures Reassembled(Flatten(sent)) == rs
  {
    forall i | 0 <= i < |rs|
      ensures !IsAppend(rs[i])
    {
      KeyWhen(rs[i]);
    }
    forall i | 0 <= i < |rs|
      ensures IsGroup(sent[i]) && Collapse(sent[i]) == rs[i] && !IsAppend(sent[i][0])
    {
      if sent[i] != [rs[i]] {
        var items, k :| CutAt(rs[i], sent[i], items, k);
        CollapseUndoesCut(rs[i], sent[i], items, k);
      }
    }
    GroupingUnique(sent);
  }
}
