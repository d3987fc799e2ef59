/** Exchanges that carry report messages, and reading attributes over one (internal/interaction/client.go). */
module ReportStream {
  import opened Bytes
  import opened Reassemble

  datatype ReportData = ReportData(reports: seq<AttributeReport>, moreChunked: Option<bool>)

  datatype Subscribed = Subscribed(id: u32, maxInterval: u16)

  /** A message by opcode, with its payload as the opcode's type if it decodes as one. */
  datatype Incoming =
    | StatusResponse(status: Option<byte>)
    | Report(decoded: Option<ReportData>)
    | SubscribeResponse(accepted: Option<Subscribed>)
    | OtherOpcode(opcode: byte)

  datatype Outgoing = ReadRequest | SubscribeRequest | SuccessStatus

  const SUCCESS: byte := 0

  /** `protocol.Exchange`: what the peer and the transport will do is fixed, but arbitrary. */
  class Exchange {
    const incoming: seq<Incoming>      // what `Receive` returns before it first fails
    const sendSucceeds: nat -> bool    // the outcome of each attempt to send, in order
    var received: nat
    var sent: seq<Outgoing>            // attempts, failed ones included
    var closings: nat

    constructor (incoming: seq<Incoming>, sendSucceeds: nat -> bool)
      ensures this.incoming == incoming && this.sendSucceeds == sendSucceeds && Fresh()
    {
      this.incoming, this.sendSucceeds := incoming, sendSucceeds;
      received, sent, closings := 0, [], 0;
    }

    ghost predicate Fresh()
      reads this
    {
      received == 0 && sent == [] && closings == 0
    }

    method Receive() returns (m: Option<Incoming>)
      requires received <= |incoming|
      modifies this`received
      ensures m == if old(received) < |incoming| then Some(incoming[old(received)]) else None
      ensures received == if old(received) < |incoming| then old(received) + 1 else old(received)
    {
      if received == |incoming| { return None; }
      m := Some(incoming[received]);
      received := received + 1;
    }

    method Send(m: Outgoing) returns (ok: bool)
      modifies this`sent
      ensures sent == old(sent) + [m] && ok == sendSucceeds(|old(sent)|)
    {
      ok := sendSucceeds(|sent|);
      sent := sent + [m];
    }

    method Close()
      modifies this`closings
      ensures closings == old(closings) + 1
    {
      closings := closings + 1;
    }
  }

  // ----- what a run of report messages says ---------------------------------------------------

  predicate IsReport(m: Incoming) {
    m.Report? && m.decoded.Some?
  }

  predicate MoreToCome(d: ReportData) {
    d.moreChunked.Some? && d.moreChunked.value
  }

  /** A report that announces another one. */
  predicate IsChunk(m: Incoming) {
    IsReport(m) && MoreToCome(m.decoded.value)
  }

  predicate IsLastChunk(m: Incoming) {
    IsReport(m) && !MoreToCome(m.decoded.value)
  }

  /** How many messages at the front announce another one. */
  function Chunks(ms: seq<Incoming>): (n: nat)
    ensures n <= |ms|
    ensures forall i :: 0 <= i < n ==> IsChunk(ms[i])
    ensures n < |ms| ==> !IsChunk(ms[n])
  {
    if ms == [] || !IsChunk(ms[0]) then 0 else 1 + Chunks(ms[1..])
  }

  /** The decoded reports among the messages, in order. */
  function ReportsIn(ms: seq<Incoming>): seq<ReportData> {
    if ms == [] then []
    else
      var m := ms[|ms| - 1];
      ReportsIn(ms[..|ms| - 1]) + if IsReport(m) then [m.decoded.value] else []
  }

  function Collected(ds: seq<ReportData>): seq<AttributeReport> {
    if ds == [] then [] else Collected(ds[..|ds| - 1]) + ds[|ds| - 1].reports
  }

  lemma CollectOne(ms: seq<Incoming>, n: nat)
    requires n < |ms| && IsReport(ms[n])
    ensures Collected(ReportsIn(ms[..n + 1])) == Collected(ReportsIn(ms[..n])) + ms[n].decoded.value.reports
  {
    assert ms[..n + 1][..n] == ms[..n];
    var ds := ReportsIn(ms[..n + 1]);
    assert ds[..|ds| - 1] == ReportsIn(ms[..n]);
  }

  function Acks(n: nat): (s: seq<Outgoing>)
    ensures |s| == n && forall i :: 0 <= i < n ==> s[i] == SuccessStatus
  {
    seq(n, _ => SuccessStatus)
  }

  // ----- reading -----------------------------------------------------------------------------

  datatype ReadError =
    | SendRequestFailed
    | ReceiveFailed
    | StatusFailed(status: byte)
    | BadStatus
    | UnexpectedOpcode
    | BadReport
    | SendAckFailed

  datatype ReadResult = Ok(reports: seq<AttributeReport>) | Err(error: ReadError)

  /** `checkStatusResponse`: an error for anything but a success status. */
  function CheckStatusResponse(m: Incoming): Option<ReadError> {
    if !m.StatusResponse? then None
    else
      match m.status
      case None => Some(BadStatus)
      case Some(code) => if code == SUCCESS then None else Some(StatusFailed(code))
  }

  /** Why the message after the chunks does not complete the answer. */
  function Unanswered(m: Option<Incoming>): ReadError {
    match m
    case None => ReceiveFailed
    case Some(StatusResponse(None)) => BadStatus
    case Some(StatusResponse(Some(code))) => if code == SUCCESS then UnexpectedOpcode else StatusFailed(code)
    case Some(Report(_)) => BadReport
    case _ => UnexpectedOpcode
  }

  /** The exchange after `n` chunks have come in and all sends so far have succeeded. */
  ghost predicate Answered(e: Exchange, request: Outgoing, n: nat)
    reads e
  {
    && n <= Chunks(e.incoming) && e.received == n
    && e.sent == [request] + Acks(n)
    && forall k :: 0 <= k <= n ==> e.sendSucceeds(k)
  }

  /**
   * A read succeeds exactly when the answer is complete and everything could be sent; it then returns the
   * reports of all its messages, reassembled, having acknowledged every message but the last.
   */
  method Read(e: Exchange) returns (r: ReadResult)
    requires e.Fresh()
    modifies e
    ensures e.closings == 1
    ensures var c := Chunks(e.incoming);
            r.Ok? <==> && c < |e.incoming| && IsLastChunk(e.incoming[c])
                       && forall k :: 0 <= k <= c ==> e.sendSucceeds(k)
    ensures var c := Chunks(e.incoming);
            r.Ok? ==> && r.reports == Reassembled(Collected(ReportsIn(e.incoming[..c + 1])))
                      && e.received == c + 1 && e.sent == [ReadRequest] + Acks(c)
    ensures r.Err? ==> var c, n := Chunks(e.incoming), |e.sent| - 1;
            && 0 <= n <= c && e.sent == [ReadRequest] + Acks(n)
            && (forall k :: 0 <= k < n ==> e.sendSucceeds(k))
            && (if e.sendSucceeds(n) then
                  n == c && r.error == Unanswered(if c < |e.incoming| then Some(e.incoming[c]) else None)
                else
                  e.received == n && r.error == if n == 0 then SendRequestFailed else SendAckFailed)
  {
    hide Chunks, ReportsIn, Collected, IsChunk, IsLastChunk, IsReport, Reassembled, Acks;
    var ok := e.Send(ReadRequest);
    if !ok {
      e.Close();
      return Err(SendRequestFailed);
    }
    var allReports := [];
    NothingCollected(e.incoming);
    while true
      invariant e.closings == 0
      invariant Answered(e, ReadRequest, e.received)
      invariant allReports == Collected(ReportsIn(e.incoming[..e.received]))
      decreases |e.incoming| - e.received
    {
      ghost var n := e.received;
      var received := e.Receive();
      if received.None? {
        e.Close();
        return Err(ReceiveFailed);
      }
      var m := received.value;
      Kinds(e.incoming, n);
      var failure := CheckStatusResponse(m);
      if failure.Some? {
        e.Close();
        return Err(failure.value);
      }
      if !m.Report? {
        e.Close();
        return Err(UnexpectedOpcode);
      }
      if m.decoded.None? {
        e.Close();
        return Err(BadReport);
      }
      var report := m.decoded.value;
      CollectOne(e.incoming, n);
      allReports := allReports + report.reports;
      if report.moreChunked.None? || !report.moreChunked.value {
        break;
      }
      OneMoreAck(ReadRequest, n);
      ok := e.Send(SuccessStatus);
      if !ok {
        e.Close();
        return Err(SendAckFailed);
      }
    }
    e.Close();
    var reports := ReassembleListChunks(allReports);
    r := Ok(reports);
  }

  lemma OneMoreAck(request: Outgoing, n: nat)
    ensures [request] + Acks(n) + [SuccessStatus] == [request] + Acks(n + 1)
  {
  }

  lemma NothingCollected(ms: seq<Incoming>)
    ensures Collected(ReportsIn(ms[..0])) == []
  {
  }

  /** What kind of message comes after `n` chunks. */
  lemma Kinds(ms: seq<Incoming>, n: nat)
    requires n < |ms| && n <= Chunks(ms)
    ensures IsReport(ms[n]) <==> ms[n].Report? && ms[n].decoded.Some?
    ensures IsLastChunk(ms[n]) <==> IsReport(ms[n]) && !MoreToCome(ms[n].decoded.value)
    ensures n < Chunks(ms) <==> IsReport(ms[n]) && MoreToCome(ms[n].decoded.value)
  {
  }

  /**
   * However the lists were cut, and wherever the stream of fragments was then cut into messages - also in the
   * middle of a list - the answer of `Read` is the original reports.
   */
  lemma {:induction false} AnyCutIsRead(rs: seq<AttributeReport>, fragments: seq<seq<AttributeReport>>,
                                        answer: seq<Incoming>)
    requires |fragments| == |rs|
    requires forall i :: 0 <= i < |rs| ==> SentAs(rs[i], fragments[i])
    requires forall i :: 0 <= i < |rs| && HasFullPath(rs[i]) ==> !rs[i].data.value.path.listIndex.NullIndex?
    requires answer != [] && Chunks(answer) == |answer| - 1 && IsLastChunk(answer[|answer| - 1])
    requires Collected(ReportsIn(answer)) == Flatten(fragments)
    ensures Reassembled(Collected(ReportsIn(answer[..Chunks(answer) + 1]))) == rs
  {
    hide Reassembled, SentAs;
    UndoesChunking(rs, fragments);
    assert answer[..|answer|] == answer;
  }

  // ----- the same in terms of the messages' fields ---------------------------------------------

  lemma MessageKinds(m: Incoming)
    ensures IsReport(m) <==> m.Report? && m.decoded.Some?
    ensures IsChunk(m) <==> m.Report? && m.decoded.Some? && m.decoded.value.moreChunked.Some?
                            && m.decoded.value.moreChunked.value
    ensures IsLastChunk(m) <==> m.Report? && m.decoded.Some?
                                && (m.decoded.value.moreChunked.None? || !m.decoded.value.moreChunked.value)
  {
  }

  /** The reports of a stream are those of its messages, in order; other messages have none. */
  lemma {:induction false} ReportsOfBoth(a: seq<Incoming>, b: seq<Incoming>)
    ensures ReportsIn(a + b) == ReportsIn(a) + ReportsIn(b)
    decreases |b|
  {
    if b == [] {
      assert a + b == a;
    } else {
      assert (a + b)[..|a + b| - 1] == a + b[..|b| - 1];
      ReportsOfBoth(a, b[..|b| - 1]);
    }
  }

  lemma ReportsOfOne(m: Incoming)
    ensures ReportsIn([m]) == if m.Report? && m.decoded.Some? then [m.decoded.value] else []
  {
    assert [m][..0] == [];
  }

  /** The attribute reports are those of the messages, in order. */
  lemma {:induction false} CollectedFromBoth(a: seq<ReportData>, b: seq<ReportData>)
    ensures Collected(a + b) == Collected(a) + Collected(b)
    decreases |b|
  {
    if b == [] {
      assert a + b == a;
    } else {
      assert (a + b)[..|a + b| - 1] == a + b[..|b| - 1];
      CollectedFromBoth(a, b[..|b| - 1]);
    }
  }

  lemma CollectedFromOne(d: ReportData)
    ensures Collected([d]) == d.reports
  {
    assert [d][..0] == [];
  }

  /** Which error a message is reported as that does not complete an answer. */
  lemma ReadErrors(code: byte, opcode: byte, s: Option<Subscribed>)
    ensures Unanswered(None) == ReceiveFailed
    ensures Unanswered(Some(StatusResponse(None))) == BadStatus
    ensures Unanswered(Some(StatusResponse(Some(0)))) == UnexpectedOpcode
    ensures code != 0 ==> Unanswered(Some(StatusResponse(Some(code)))) == StatusFailed(code)
    ensures Unanswered(Some(Report(None))) == BadReport
    ensures Unanswered(Some(SubscribeResponse(s))) == UnexpectedOpcode
    ensures Unanswered(Some(OtherOpcode(opcode))) == UnexpectedOpcode
  {
  }
}
