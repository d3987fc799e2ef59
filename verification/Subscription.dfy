/** Subscribing: the priming report and the loop that follows it (internal/interaction/client.go, subscribe.go). */
module Subscription {
  import opened Bytes
  import opened Reassemble
  import opened ReportStream

  // ----- one cycle of reports -----------------------------------------------------------------

  predicate Fails(r: AttributeReport) {
    r.status.Some? && r.status.value.status.status != SUCCESS
  }

  predicate CarriesData(r: AttributeReport) {
    r.status.None? && r.data.Some?
  }

  /** The status of the first report that fails. */
  function FirstFailure(rs: seq<AttributeReport>): (f: Option<StatusIB>)
    ensures f.None? <==> forall i :: 0 <= i < |rs| ==> !Fails(rs[i])
  {
    if rs == [] then None
    else if Fails(rs[0]) then Some(rs[0].status.value.status)
    else FirstFailure(rs[1..])
  }

  function DataOf(rs: seq<AttributeReport>): (data: seq<AttributeReport>)
    ensures forall r :: r in data <==> r in rs && CarriesData(r)
  {
    if rs == [] then []
    else if CarriesData(rs[0]) then [rs[0]] + DataOf(rs[1..])
    else DataOf(rs[1..])
  }

  /** `splitAttributeReports`: a failing status anywhere outweighs the data. */
  method SplitAttributeReports(reports: seq<AttributeReport>)
    returns (data: seq<AttributeReport>, failure: Option<StatusIB>)
    ensures failure == FirstFailure(reports)
    ensures data == if FirstFailure(reports).Some? then [] else DataOf(reports)
  {
    data := [];
    assert reports[0..] == reports;
    for i := 0 to |reports|
      invariant FirstFailure(reports) == FirstFailure(reports[i..])
      invariant data + DataOf(reports[i..]) == DataOf(reports)
    {
      var r := reports[i];
      assert reports[i..][1..] == reports[i + 1..];
      if r.status.Some? {
        if r.status.value.status.status != SUCCESS {
          return [], Some(r.status.value.status);
        }
      } else if r.data.Some? {
        data := data + [r];
      }
    }
    failure := None;
  }

  // ----- the stream of reports as cycles ---------------------------------------------------------

  /** The attribute reports of the cycle that is still open after `ds`. */
  function Pending(ds: seq<ReportData>): seq<AttributeReport> {
    if ds == [] then []
    else
      var d := ds[|ds| - 1];
      if MoreToCome(d) then Pending(ds[..|ds| - 1]) + d.reports else []
  }

  /** The cycles that `ds` completes, each with all its attribute reports. */
  function Completed(ds: seq<ReportData>): seq<seq<AttributeReport>> {
    if ds == [] then []
    else
      var d, before := ds[|ds| - 1], ds[..|ds| - 1];
      if MoreToCome(d) then Completed(before) else Completed(before) + [Pending(before) + d.reports]
  }

  /** The data of each cycle that has any. */
  function Batches(cycles: seq<seq<AttributeReport>>): seq<seq<AttributeReport>> {
    if cycles == [] then []
    else
      var data := DataOf(cycles[|cycles| - 1]);
      Batches(cycles[..|cycles| - 1]) + if data != [] then [data] else []
  }

  /** Cutting into cycles loses nothing and keeps the order. */
  lemma {:induction false} CyclesCoverReports(ds: seq<ReportData>)
    ensures Joined(Completed(ds)) + Pending(ds) == Collected(ds)
  {
    if ds != [] {
      var d, before := ds[|ds| - 1], ds[..|ds| - 1];
      CyclesCoverReports(before);
      if !MoreToCome(d) {
        var cs := Completed(ds);
        assert cs[..|cs| - 1] == Completed(before);
      }
    }
  }

  function Joined(cycles: seq<seq<AttributeReport>>): seq<AttributeReport> {
    if cycles == [] then [] else Joined(cycles[..|cycles| - 1]) + cycles[|cycles| - 1]
  }

  /** Everything delivered is data, and all data of completed cycles is delivered, in order. */
  lemma {:induction false} BatchesAreTheData(cycles: seq<seq<AttributeReport>>)
    ensures Joined(Batches(cycles)) == DataOf(Joined(cycles))
  {
    if cycles != [] {
      var last, before := cycles[|cycles| - 1], cycles[..|cycles| - 1];
      BatchesAreTheData(before);
      DataOfConcat(Joined(before), last);
      if DataOf(last) != [] {
        var bs := Batches(cycles);
        assert bs[..|bs| - 1] == Batches(before);
      } else {
        assert Batches(cycles) == Batches(before);
        assert DataOf(Joined(before)) + DataOf(last) == DataOf(Joined(before));
      }
    }
  }

  lemma {:induction false} DataOfConcat(a: seq<AttributeReport>, b: seq<AttributeReport>)
    ensures DataOf(a + b) == DataOf(a) + DataOf(b)
  {
    if a == [] {
      assert a + b == b;
    } else {
      assert (a + b)[1..] == a[1..] + b && (a + b)[0] == a[0];
      DataOfConcat(a[1..], b);
    }
  }

  // ----- when the report loop goes on ------------------------------------------------------------------

  /** The outcomes of the loop's sends (from attempt `firstAck` of the exchange on) and of its deliveries. */
  datatype Fate = Fate(sendSucceeds: nat -> bool, firstAck: nat, deliverSucceeds: nat -> bool)

  predicate AckSucceeds(fate: Fate, j: nat) {
    fate.sendSucceeds(fate.firstAck + j)
  }

  /** A message that ends the stream as such: a failing status or an undecodable report. */
  predicate EndsStream(m: Incoming) {
    || (m.StatusResponse? && m.status.Some? && m.status.value != SUCCESS)
    || (m.Report? && m.decoded.None?)
  }

  /** None of the messages gives a reason to stop. */
  ghost predicate Quiet(ms: seq<Incoming>, fate: Fate) {
    var ds := ReportsIn(ms);
    && (forall i :: 0 <= i < |ms| ==> !EndsStream(ms[i]))
    && (forall j :: 0 <= j < |ds| ==> AckSucceeds(fate, j))
    && (forall c :: 0 <= c < |Completed(ds)| ==> FirstFailure(Completed(ds)[c]).None?)
    && (forall b :: 0 <= b < |Batches(Completed(ds))| ==> fate.deliverSucceeds(b))
  }

  datatype StreamError =
    | ReceiveError
    | PeerStatus(code: byte)
    | UndecodableReport
    | AckError
    | AttributeFailed(ib: StatusIB)

  /** What the loop reports for the message `m` that made it stop after the quiet messages `before`. */
  function StopError(before: seq<Incoming>, m: Incoming, fate: Fate): Option<StreamError> {
    match m
    case StatusResponse(Some(code)) => Some(PeerStatus(code))
    case Report(None) => Some(UndecodableReport)
    case Report(Some(d)) =>
      var ds := ReportsIn(before);
      if !AckSucceeds(fate, |ds|) then Some(AckError)
      else
        var failure := FirstFailure(Pending(ds) + d.reports);
        // without a failure, the stop came while delivering
        if failure.Some? then Some(AttributeFailed(failure.value)) else None
    case _ => None
  }

  // ----- one message ---------------------------------------------------------------------------------

  lemma IgnoredMessage(ms: seq<Incoming>, m: Incoming, fate: Fate)
    requires !IsReport(m)
    ensures ReportsIn(ms + [m]) == ReportsIn(ms)
    ensures Quiet(ms + [m], fate) <==> Quiet(ms, fate) && !EndsStream(m)
  {
    hide EndsStream, Completed, Batches;
    assert (ms + [m])[..|ms|] == ms && (ms + [m])[|ms|] == m;
    MessagesQuiet(ms, m);
  }

  lemma OneReport(ms: seq<Incoming>, m: Incoming)
    requires IsReport(m)
    ensures ReportsIn(ms + [m]) == ReportsIn(ms) + [m.decoded.value] && !EndsStream(m)
  {
    assert (ms + [m])[..|ms|] == ms;
  }

  lemma OneCycle(ds: seq<ReportData>, d: ReportData)
    ensures MoreToCome(d) ==> Completed(ds + [d]) == Completed(ds) && Pending(ds + [d]) == Pending(ds) + d.reports
    ensures !MoreToCome(d) ==> Completed(ds + [d]) == Completed(ds) + [Pending(ds) + d.reports]
    ensures !MoreToCome(d) ==> Pending(ds + [d]) == []
  {
    assert (ds + [d])[..|ds|] == ds;
  }

  lemma OneBatch(cs: seq<seq<AttributeReport>>, c: seq<AttributeReport>)
    ensures Batches(cs + [c]) == Batches(cs) + if DataOf(c) != [] then [DataOf(c)] else []
  {
    assert (cs + [c])[..|cs|] == cs;
  }

  /** Whether one more message keeps the stream quiet, when it is a report. */
  lemma ReportMessage(ms: seq<Incoming>, m: Incoming, fate: Fate)
    requires IsReport(m)
    ensures var ds, d := ReportsIn(ms), m.decoded.value;
            var cycle := Pending(ds) + d.reports;
            Quiet(ms + [m], fate) <==>
              && Quiet(ms, fate)
              && AckSucceeds(fate, |ds|)
              && (MoreToCome(d) || (FirstFailure(cycle).None? &&
                    (DataOf(cycle) == [] || fate.deliverSucceeds(|Batches(Completed(ds))|))))
  {
    hide EndsStream, Completed, Batches, Pending, DataOf, FirstFailure, ReportsIn, MoreToCome, IsReport;
    KindsOf(m);
    var ds, d := ReportsIn(ms), m.decoded.value;
    OneReport(ms, m);
    OneCycle(ds, d);
    OneBatch(Completed(ds), Pending(ds) + d.reports);
    MessagesQuiet(ms, m);
    AcksOf(ds, d, fate);
    if !MoreToCome(d) {
      CyclesSound(Completed(ds), Pending(ds) + d.reports);
      Deliveries(Batches(Completed(ds)), DataOf(Pending(ds) + d.reports), fate);
    }
  }

  /** The loop stops for the first reason there is: what comes later cannot make an earlier stretch loud or quiet. */
  lemma {:induction false} QuietFromTheStart(ms: seq<Incoming>, n: nat, fate: Fate)
    requires n <= |ms| && Quiet(ms, fate)
    ensures Quiet(ms[..n], fate)
    decreases |ms|
  {
    if n < |ms| {
      hide Quiet, IsReport;
      var init, m := ms[..|ms| - 1], ms[|ms| - 1];
      assert init + [m] == ms && init[..n] == ms[..n];
      if IsReport(m) { ReportMessage(init, m, fate); } else { IgnoredMessage(init, m, fate); }
      QuietFromTheStart(init, n, fate);
    } else {
      assert ms[..n] == ms;
    }
  }

  lemma MessagesQuiet(ms: seq<Incoming>, m: Incoming)
    ensures (forall i :: 0 <= i < |ms| ==> !EndsStream(ms[i])) && !EndsStream(m)
       <==> forall i :: 0 <= i < |ms + [m]| ==> !EndsStream((ms + [m])[i])
  {
    hide EndsStream;
    var all := ms + [m];
    assert all[|ms|] == m && forall i :: 0 <= i < |ms| ==> all[i] == ms[i];
  }

  lemma AcksOf(ds: seq<ReportData>, d: ReportData, fate: Fate)
    ensures (forall j :: 0 <= j < |ds| ==> AckSucceeds(fate, j)) && AckSucceeds(fate, |ds|)
       <==> forall j :: 0 <= j < |ds + [d]| ==> AckSucceeds(fate, j)
  {
  }

  lemma CyclesSound(cs: seq<seq<AttributeReport>>, c: seq<AttributeReport>)
    ensures (forall i :: 0 <= i < |cs| ==> FirstFailure(cs[i]).None?) && FirstFailure(c).None?
       <==> forall i :: 0 <= i < |cs + [c]| ==> FirstFailure((cs + [c])[i]).None?
  {
    hide FirstFailure;
    var all := cs + [c];
    assert all[|cs|] == c && forall i :: 0 <= i < |cs| ==> all[i] == cs[i];
  }

  lemma Deliveries(bs: seq<seq<AttributeReport>>, data: seq<AttributeReport>, fate: Fate)
    ensures (forall b :: 0 <= b < |bs| ==> fate.deliverSucceeds(b)) && fate.deliverSucceeds(|bs|)
       <==> forall b :: 0 <= b < |bs + [data]| ==> fate.deliverSucceeds(b)
  {
  }

  // ----- the subscription ---------------------------------------------------------------------------------

  /** `Subscription`, with its two channels as the values sent on them. */
  class Channels {
    var reports: seq<seq<AttributeReport>>
    var errs: seq<StreamError>
    var reportsClosed: nat
    var errsClosed: nat

    constructor ()
      ensures reports == [] && errs == [] && reportsClosed == 0 && errsClosed == 0
    {
      reports, errs, reportsClosed, errsClosed := [], [], 0, 0;
    }
  }

  /**
   * The report loop.  It stops at the first message after which the stream is no longer quiet, or when receiving
   * fails.  Up to there it has delivered the data of every completed cycle, in order, and nothing else; and it
   * has tried to acknowledge every decoded report once, the last one included.
   */
  method ReportLoop(e: Exchange, ch: Channels, deliverSucceeds: nat -> bool, cancelled: bool)
    returns (error: Option<StreamError>)
    requires e.received <= |e.incoming|
    modifies e`received, e`sent, ch`reports
    ensures old(e.received) <= e.received <= |e.incoming|
    ensures var ms := e.incoming[old(e.received)..e.received];
            var fate := Fate(e.sendSucceeds, |old(e.sent)|, deliverSucceeds);
            && e.sent == old(e.sent) + Acks(|ReportsIn(ms)|)
            && if Quiet(ms, fate) then
                 && e.received == |e.incoming|
                 && ch.reports == old(ch.reports) + Batches(Completed(ReportsIn(ms)))
                 && error == if cancelled then None else Some(ReceiveError)
               else
                 && ms != []
                 && var before := ms[..|ms| - 1];
                 && Quiet(before, fate)
                 && ch.reports == old(ch.reports) + Batches(Completed(ReportsIn(before)))
                 && error == StopError(before, ms[|ms| - 1], fate)
  {
    hide *;
    ghost var start, sent0, reports0 := e.received, e.sent, ch.reports;
    ghost var fate := Fate(e.sendSucceeds, |e.sent|, deliverSucceeds);
    ghost var ms: seq<Incoming> := [];
    var already := |ch.reports|;
    var accumulated := [];
    NothingYet(fate, sent0, reports0);
    while true
      invariant start <= e.received <= |e.incoming| && ms == e.incoming[start..e.received]
      invariant Quiet(ms, fate)
      invariant accumulated == Pending(ReportsIn(ms))
      invariant e.sent == sent0 + Acks(|ReportsIn(ms)|)
      invariant ch.reports == reports0 + Batches(Completed(ReportsIn(ms)))
      decreases |e.incoming| - e.received
    {
      var received := e.Receive();
      if received.None? {
        return if cancelled then None else Some(ReceiveError);
      }
      var m := received.value;
      ghost var before := ms;
      ms := ms + [m];
      assert ms[..|ms| - 1] == before && ms[|ms| - 1] == m;
      assert ms == e.incoming[start..e.received];
      KindsOf(m);
      AckOutcome(fate, |ReportsIn(before)|);
      if m.StatusResponse? {
        IgnoredMessage(before, m, fate);
        if m.status.Some? && m.status.value != SUCCESS {
          StopsAt(before, m, fate);
          return Some(PeerStatus(m.status.value));
        }
        continue;
      }
      if !m.Report? {
        IgnoredMessage(before, m, fate);
        continue;
      }
      if m.decoded.None? {
        IgnoredMessage(before, m, fate);
        StopsAt(before, m, fate);
        return Some(UndecodableReport);
      }
      var report := m.decoded.value;
      OneReport(before, m);
      ReportMessage(before, m, fate);
      OneCycle(ReportsIn(before), report);
      OneBatch(Completed(ReportsIn(before)), accumulated + report.reports);
      StopsAt(before, m, fate);
      OneAck(sent0, |ReportsIn(before)|);
      accumulated := accumulated + report.reports;
      var ok := e.Send(SuccessStatus);
      if !ok {
        return Some(AckError);
      }
      if report.moreChunked.Some? && report.moreChunked.value {
        continue;
      }
      var data, failure := SplitAttributeReports(accumulated);
      accumulated := [];
      if data != [] {
        var delivered := deliverSucceeds(|ch.reports| - already);
        if !delivered {
          return None;
        }
        ch.reports := ch.reports + [data];
      }
      if failure.Some? {
        return Some(AttributeFailed(failure.value));
      }
    }
  }

  lemma NothingYet(fate: Fate, sent: seq<Outgoing>, reports: seq<seq<AttributeReport>>)
    ensures Quiet([], fate) && Pending(ReportsIn([])) == []
    ensures sent + Acks(|ReportsIn([])|) == sent && reports + Batches(Completed(ReportsIn([]))) == reports
  {
  }

  lemma OneAck(sent: seq<Outgoing>, n: nat)
    ensures sent + Acks(n) + [SuccessStatus] == sent + Acks(n + 1) && |sent + Acks(n)| == |sent| + n
  {
  }

  lemma AckOutcome(fate: Fate, j: nat)
    ensures AckSucceeds(fate, j) == fate.sendSucceeds(fate.firstAck + j)
  {
  }

  lemma KindsOf(m: Incoming)
    ensures IsReport(m) <==> m.Report? && m.decoded.Some?
    ensures EndsStream(m) <==> || (m.StatusResponse? && m.status.Some? && m.status.value != SUCCESS)
                               || (m.Report? && m.decoded.None?)
    ensures IsReport(m) ==>
              var d := m.decoded.value; MoreToCome(d) <==> d.moreChunked.Some? && d.moreChunked.value
  {
  }

  lemma StopsAt(before: seq<Incoming>, m: Incoming, fate: Fate)
    ensures m.StatusResponse? && m.status.Some? ==> StopError(before, m, fate) == Some(PeerStatus(m.status.value))
    ensures m.Report? && m.decoded.None? ==> StopError(before, m, fate) == Some(UndecodableReport)
    ensures m.Report? && m.decoded.Some? ==>
              var ds, d := ReportsIn(before), m.decoded.value;
              StopError(before, m, fate)
              == if !AckSucceeds(fate, |ds|) then Some(AckError)
                 else if FirstFailure(Pending(ds) + d.reports).Some? then
                   Some(AttributeFailed(FirstFailure(Pending(ds) + d.reports).value))
                 else None
  {
  }

  // ----- establishing -------------------------------------------------------------------------------------

  datatype SubscribeError =
    | Failed(error: ReadError)
    | PrimingFailed(ib: StatusIB)
    | BadSubscribeResponse

  datatype SubscribeResult = Established(subscribed: Subscribed) | Rejected(reason: SubscribeError)

  /** The attribute reports of the priming answer, once it is complete. */
  function Priming(ms: seq<Incoming>): seq<AttributeReport>
    requires Chunks(ms) < |ms|
  {
    Collected(ReportsIn(ms[..Chunks(ms) + 1]))
  }

  /** A complete priming answer, all of it acknowledged. */
  ghost predicate Primed(e: Exchange) {
    var c := Chunks(e.incoming);
    && c < |e.incoming| && IsLastChunk(e.incoming[c])
    && forall k :: 0 <= k <= c + 1 ==> e.sendSucceeds(k)
  }

  /** Why establishing stopped, given what was sent and that sending did or did not succeed. */
  ghost predicate NotPrimed(e: Exchange, error: ReadError)
    reads e
  {
    var c, n := Chunks(e.incoming), |e.sent| - 1;
    && 0 <= n <= c + 1 && e.sent == [SubscribeRequest] + Acks(n)
    && (forall k :: 0 <= k < n ==> e.sendSucceeds(k))
    && (!e.sendSucceeds(n) ==> e.received == n && error == if n == 0 then SendRequestFailed else SendAckFailed)
    && (e.sendSucceeds(n) ==> n == c && error == Unanswered(if c < |e.incoming| then Some(e.incoming[c]) else None))
  }

  /** Sends the request and collects the priming answer; every message of it is acknowledged, also the last. */
  method Prime(e: Exchange) returns (reports: seq<AttributeReport>, error: Option<ReadError>)
    requires e.Fresh()
    modifies e`received, e`sent
    ensures error.None? <==> Primed(e)
    ensures error.None? ==> && e.received == Chunks(e.incoming) + 1 && reports == Priming(e.incoming)
                            && e.sent == [SubscribeRequest] + Acks(e.received)
    ensures error.Some? ==> NotPrimed(e, error.value)
  {
    hide Chunks, ReportsIn, Collected, IsChunk, IsLastChunk, IsReport, Acks;
    reports := [];
    var ok := e.Send(SubscribeRequest);
    if !ok {
      return [], Some(SendRequestFailed);
    }
    NothingCollected(e.incoming);
    while true
      invariant Answered(e, SubscribeRequest, e.received)
      invariant reports == Collected(ReportsIn(e.incoming[..e.received]))
      decreases |e.incoming| - e.received
    {
      ghost var n := e.received;
      var received := e.Receive();
      if received.None? {
        return [], Some(ReceiveFailed);
      }
      var m := received.value;
      Kinds(e.incoming, n);
      var failure := CheckStatusResponse(m);
      if failure.Some? {
        return [], failure;
      }
      if !m.Report? {
        return [], Some(UnexpectedOpcode);
      }
      if m.decoded.None? {
        return [], Some(BadReport);
      }
      var report := m.decoded.value;
      CollectOne(e.incoming, n);
      reports := reports + report.reports;
      OneMoreAck(SubscribeRequest, n);
      ok := e.Send(SuccessStatus);
      if !ok {
        return [], Some(SendAckFailed);
      }
      if report.moreChunked.None? || !report.moreChunked.value {
        break;
      }
    }
    error := None;
  }

  /** What became of a subscription whose priming answer is in. */
  ghost predicate EstablishedBy(e: Exchange, s: Subscribed) {
    var c := Chunks(e.incoming);
    && Primed(e) && FirstFailure(Priming(e.incoming)).None?
    && c + 1 < |e.incoming| && e.incoming[c + 1] == SubscribeResponse(Some(s))
  }

  /** Why a primed subscription was not established. */
  function Unestablished(failure: Option<StatusIB>, response: Option<Incoming>): SubscribeError {
    match (failure, response)
    case (Some(ib), _) => PrimingFailed(ib)
    case (None, None) => Failed(ReceiveFailed)
    case (None, Some(SubscribeResponse(_))) => BadSubscribeResponse
    case (None, Some(_)) => Failed(UnexpectedOpcode)
  }

  /** Everything up to the subscribe response.  The exchange stays open for the report loop, or else is closed. */
  method Establish(e: Exchange) returns (r: SubscribeResult, primingData: seq<AttributeReport>)
    requires e.Fresh()
    modifies e
    ensures e.closings == if r.Established? then 0 else 1
    ensures r.Established? <==> exists s :: EstablishedBy(e, s)
    ensures r.Established? ==> && EstablishedBy(e, r.subscribed) && primingData == DataOf(Priming(e.incoming))
                               && e.received == Chunks(e.incoming) + 2
                               && e.sent == [SubscribeRequest] + Acks(Chunks(e.incoming) + 1)
    ensures r.Rejected? ==> RejectedFor(e, r.reason)
  {
    hide Chunks, ReportsIn, Collected, Acks, FirstFailure, DataOf, IsLastChunk;
    var primingReports, error := Prime(e);
    if error.Some? {
      e.Close();
      return Rejected(Failed(error.value)), [];
    }
    var data, failure := SplitAttributeReports(primingReports);
    if failure.Some? {
      e.Close();
      return Rejected(PrimingFailed(failure.value)), [];
    }
    var received := e.Receive();
    if received.None? {
      e.Close();
      return Rejected(Failed(ReceiveFailed)), [];
    }
    if !received.value.SubscribeResponse? {
      e.Close();
      return Rejected(Failed(UnexpectedOpcode)), [];
    }
    if received.value.accepted.None? {
      e.Close();
      return Rejected(BadSubscribeResponse), [];
    }
    r, primingData := Established(received.value.accepted.value), data;
    assert EstablishedBy(e, r.subscribed);
  }

  /** The reason given for a rejection is what went wrong. */
  ghost predicate RejectedFor(e: Exchange, reason: SubscribeError)
    reads e
  {
    if Primed(e) then
      var c := Chunks(e.incoming);
      && e.sent == [SubscribeRequest] + Acks(c + 1)
      && reason == Unestablished(FirstFailure(Priming(e.incoming)),
                                 if c + 1 < |e.incoming| then Some(e.incoming[c + 1]) else None)
    else
      reason.Failed? && NotPrimed(e, reason.error)
  }

  /**
   * What a report loop that has received `ms` did: it delivered, after `first`, the data of each cycle completed
   * before its first reason to stop, and left at most the one error that reason calls for.
   */
  ghost predicate LoopRan(ms: seq<Incoming>, fate: Fate, drained: bool, cancelled: bool,
                          first: seq<seq<AttributeReport>>,
                          reports: seq<seq<AttributeReport>>, errs: seq<StreamError>) {
    if Quiet(ms, fate) then
      && drained
      && reports == first + Batches(Completed(ReportsIn(ms)))
      && errs == if cancelled then [] else [ReceiveError]
    else
      && ms != []
      && var before := ms[..|ms| - 1];
      && Quiet(before, fate)
      && reports == first + Batches(Completed(ReportsIn(before)))
      && var error := StopError(before, ms[|ms| - 1], fate);
      && errs == if error.Some? then [error.value] else []
  }

  /** The goroutine: the report loop, its error if any, and both channels and the exchange closed behind it. */
  method Run(e: Exchange, ch: Channels, deliverSucceeds: nat -> bool, cancelled: bool)
    requires e.received <= |e.incoming| && e.closings == 0
    requires ch.errs == [] && ch.reportsClosed == 0 && ch.errsClosed == 0
    modifies e, ch
    ensures e.closings == 1 && ch.reportsClosed == 1 && ch.errsClosed == 1
    ensures old(e.received) <= e.received <= |e.incoming|
    ensures var ms := e.incoming[old(e.received)..e.received];
            var fate := Fate(e.sendSucceeds, |old(e.sent)|, deliverSucceeds);
            && e.sent == old(e.sent) + Acks(|ReportsIn(ms)|)
            && LoopRan(ms, fate, e.received == |e.incoming|, cancelled, old(ch.reports), ch.reports, ch.errs)
  {
    hide Quiet, ReportsIn, Completed, Batches, Acks, StopError;
    var stop := ReportLoop(e, ch, deliverSucceeds, cancelled);
    if stop.Some? {
      ch.errs := ch.errs + [stop.value];
    }
    ch.errsClosed := ch.errsClosed + 1;
    ch.reportsClosed := ch.reportsClosed + 1;
    e.Close();
  }

  /**
   * A whole subscription, from the request to the end of the report loop.  Its exchange is closed exactly once
   * on every path, and so are both channels if it was established.  What is delivered is the priming data, if
   * any, and then the data of each completed cycle before the loop's first reason to stop.
   */
  method Subscribe(e: Exchange, ch: Channels, deliverSucceeds: nat -> bool, cancelled: bool)
    returns (r: SubscribeResult)
    requires e.Fresh()
    requires ch.reports == [] && ch.errs == [] && ch.reportsClosed == 0 && ch.errsClosed == 0
    modifies e, ch
    ensures e.closings == 1
    ensures r.Established? <==> exists s :: EstablishedBy(e, s)
    ensures r.Rejected? ==> RejectedFor(e, r.reason)
    ensures r.Rejected? ==> ch.reports == [] && ch.errs == [] && ch.reportsClosed == 0 && ch.errsClosed == 0
    ensures r.Established? ==> EstablishedBy(e, r.subscribed) && ch.reportsClosed == 1 && ch.errsClosed == 1
    ensures r.Established? ==>
              var c := Chunks(e.incoming);
              && c + 2 <= e.received <= |e.incoming|
              && var ms := e.incoming[c + 2..e.received];
              var fate := Fate(e.sendSucceeds, c + 2, deliverSucceeds);
              && e.sent == [SubscribeRequest] + Acks(c + 1) + Acks(|ReportsIn(ms)|)
              && LoopRan(ms, fate, e.received == |e.incoming|, cancelled,
                         Batches([Priming(e.incoming)]), ch.reports, ch.errs)
  {
    hide Quiet, Chunks, ReportsIn, Completed, Batches, Acks, DataOf, StopError, EstablishedBy, Priming, LoopRan;
    var primingData;
    r, primingData := Establish(e);
    if r.Rejected? {
      return;
    }
    Answers(e, r.subscribed);
    if primingData != [] {
      ch.reports := ch.reports + [primingData];
    }
    PrimingBatch(Priming(e.incoming));
    assert ch.reports == Batches([Priming(e.incoming)]);
    assert |e.sent| == Chunks(e.incoming) + 2;
    Run(e, ch, deliverSucceeds, cancelled);
  }

  lemma Answers(e: Exchange, s: Subscribed)
    requires EstablishedBy(e, s)
    ensures Chunks(e.incoming) + 2 <= |e.incoming|
  {
  }

  lemma PrimingBatch(priming: seq<AttributeReport>)
    ensures Batches([priming]) == if DataOf(priming) != [] then [DataOf(priming)] else []
  {
    hide DataOf;
    OneBatch([], priming);
    assert [] + [priming] == [priming];
  }

  // ----- the same in terms of the reports' fields --------------------------------------------------------

  /** One report is data, and delivered once, exactly when it has data and no status. */
  lemma DataOfOne(r: AttributeReport)
    ensures DataOf([r]) == if r.status.None? && r.data.Some? then [r] else []
  {
  }

  /** The failure is the status of the first report whose status is not success, if there is one. */
  lemma {:induction false} FirstOfFailures(rs: seq<AttributeReport>, i: nat)
    requires i < |rs| && rs[i].status.Some? && rs[i].status.value.status.status != 0
    requires forall j :: 0 <= j < i ==> rs[j].status.None? || rs[j].status.value.status.status == 0
    ensures FirstFailure(rs) == Some(rs[i].status.value.status)
  {
    if i > 0 {
      assert rs[0].status.None? || rs[0].status.value.status.status == 0;
      FirstOfFailures(rs[1..], i - 1);
    }
  }

  lemma {:induction false} NoFailure(rs: seq<AttributeReport>)
    requires forall j :: 0 <= j < |rs| ==> rs[j].status.None? || rs[j].status.value.status.status == 0
    ensures FirstFailure(rs) == None
  {
    if rs != [] {
      assert rs[0].status.None? || rs[0].status.value.status.status == 0;
      NoFailure(rs[1..]);
    }
  }

  lemma EndsWhen(m: Incoming)
    ensures EndsStream(m) <==> || (m.StatusResponse? && m.status.Some? && m.status.value != 0)
                               || (m.Report? && m.decoded.None?)
  {
  }

  /** A stream of messages goes on as long as nothing in it fails, no ack to it fails and every batch is taken. */
  lemma QuietWhen(ms: seq<Incoming>, fate: Fate)
    ensures var ds := ReportsIn(ms);
            Quiet(ms, fate) <==>
              && (forall m :: m in ms ==> !(m.StatusResponse? && m.status.Some? && m.status.value != 0))
              && (forall m :: m in ms ==> !(m.Report? && m.decoded.None?))
              && (forall k: nat :: fate.firstAck <= k < fate.firstAck + |ds| ==> fate.sendSucceeds(k))
              && (forall r :: r in Joined(Completed(ds)) ==> r.status.None? || r.status.value.status.status == 0)
              && (forall b :: 0 <= b < |Batches(Completed(ds))| ==> fate.deliverSucceeds(b))
  {
    hide Completed, Batches, Joined, ReportsIn;
    var ds := ReportsIn(ms);
    NoneFails(Completed(ds));
    if Quiet(ms, fate) {
      forall k: nat | fate.firstAck <= k < fate.firstAck + |ds|
        ensures fate.sendSucceeds(k)
      {
        assert AckSucceeds(fate, k - fate.firstAck);
      }
    }
  }

  lemma {:induction false} NoneFails(cs: seq<seq<AttributeReport>>)
    ensures (forall c :: 0 <= c < |cs| ==> FirstFailure(cs[c]).None?)
       <==> forall r :: r in Joined(cs) ==> r.status.None? || r.status.value.status.status == 0
  {
    if cs != [] {
      var before, last := cs[..|cs| - 1], cs[|cs| - 1];
      NoneFails(before);
      FailureIn(last);
      hide FirstFailure;
      assert forall c :: 0 <= c < |before| ==> before[c] == cs[c];
    }
  }

  lemma FailureIn(rs: seq<AttributeReport>)
    ensures FirstFailure(rs).None? <==> forall r :: r in rs ==> r.status.None? || r.status.value.status.status == 0
  {
    assert forall i :: 0 <= i < |rs| ==> rs[i] in rs;
  }

  /** A cycle is every report up to and including the first that announces no other. */
  lemma {:induction false} OneCompleteCycle(ds: seq<ReportData>, last: ReportData)
    requires forall i :: 0 <= i < |ds| ==> ds[i].moreChunked.Some? && ds[i].moreChunked.value
    requires last.moreChunked.None? || !last.moreChunked.value
    ensures Completed(ds + [last]) == [Collected(ds) + last.reports] && Pending(ds + [last]) == []
  {
    OpenCycle(ds);
    OneCycle(ds, last);
  }

  /** Reports that all announce another one complete nothing and wait. */
  lemma {:induction false} OpenCycle(ds: seq<ReportData>)
    requires forall i :: 0 <= i < |ds| ==> ds[i].moreChunked.Some? && ds[i].moreChunked.value
    ensures Completed(ds) == [] && Pending(ds) == Collected(ds)
  {
    if ds != [] { OpenCycle(ds[..|ds| - 1]); }
  }

  /** After a complete cycle the next one starts afresh. */
  lemma {:induction false} CyclesInTurn(a: seq<ReportData>, b: seq<ReportData>)
    requires a != [] && (a[|a| - 1].moreChunked.None? || !a[|a| - 1].moreChunked.value)
    ensures Completed(a + b) == Completed(a) + Completed(b) && Pending(a + b) == Pending(b)
    decreases |b|
  {
    hide Pending, Completed;
    if b == [] {
      assert a + b == a;
      Closed(a);
    } else {
      var d, before := b[|b| - 1], b[..|b| - 1];
      CyclesInTurn(a, before);
      assert a + b == (a + before) + [d] && b == before + [d];
      OneCycle(a + before, d);
      OneCycle(before, d);
      if !MoreToCome(d) {
        var cycle := Pending(before) + d.reports;
        assert Completed(a) + Completed(before) + [cycle] == Completed(a) + (Completed(before) + [cycle]);
      }
    }
  }

  lemma Closed(a: seq<ReportData>)
    requires a != [] && (a[|a| - 1].moreChunked.None? || !a[|a| - 1].moreChunked.value)
    ensures Pending(a) == [] && Pending([]) == [] && Completed([]) == []
  {
  }

  /** Which reason is given when a primed subscription is not established. */
  lemma RejectionReasons(ib: StatusIB, m: Option<Incoming>, code: Option<byte>, d: Option<ReportData>, opcode: byte)
    ensures Unestablished(Some(ib), m) == PrimingFailed(ib)
    ensures Unestablished(None, None) == Failed(ReceiveFailed)
    ensures Unestablished(None, Some(SubscribeResponse(None))) == BadSubscribeResponse
    ensures Unestablished(None, Some(StatusResponse(code))) == Failed(UnexpectedOpcode)
    ensures Unestablished(None, Some(Report(d))) == Failed(UnexpectedOpcode)
    ensures Unestablished(None, Some(OtherOpcode(opcode))) == Failed(UnexpectedOpcode)
  {
  }
}
