/**
 * What a legal log says about the device's answers and the order of the commands, in terms of the actions alone
 * (internal/commissioning/flow.go).
 */
module CommissioningFacts {
  import opened Bytes
  import opened CommissioningRules
  import opened CommissionWorld

  /** Place `i` of the log has the deed, answered without error. */
  predicate Done(log: Log, i: nat, d: Deed) {
    i < |log| && log[i].deed == d && log[i].outcome.Ok?
  }

  lemma DoneBefore(log: Log, k: nat, d: Deed) returns (i: nat)
    requires k <= |log| && Did(log[..k], d)
    ensures i < k && Done(log, i, d)
  {
    i := DidAt(log[..k], d);
  }

  // ----- who gets network credentials ---------------------------------------------------

  /** Credentials go only to a device that was found over BLE, if discovery found it at all. */
  lemma CredentialsOverBleOnly(p: Params, log: Log, i: nat, k: nat, kind: Network, s: nat)
    requires Legal(p, log) && i < k < |log| && log[k].deed == Send(AddNetwork(kind), s)
    requires log[i].deed == Discover && log[i].outcome.Ok?
    ensures log[i].outcome.value == BLE_ADDRESS && !p.onNetwork && (kind == WiFi || kind == Thread)
  {
    hide Legal, Announced, Healthy, Did, Recovered;
    var past := AllowedAt(p, log, k);
    assert past[i] == log[i];
  }

  /** And every such device gets them before a run completes, if there are any. */
  lemma CredentialsSent(p: Params, log: Log, k: nat) returns (s: nat)
    requires Legal(p, log) && k < |log| && Completes(log[k])
    requires !p.onNetwork && (p.network == Some(WiFi) || p.network == Some(Thread))
    requires forall i :: 0 <= i < |log| && log[i].deed == Discover && log[i].outcome.Ok? ==>
               log[i].outcome.value == BLE_ADDRESS
    ensures Sent(log, AddNetwork(p.network.value))
    ensures s < |log| && IsCase(log, s) && (Sent(log, ConnectNetwork) || Dropped(log[..s]))
  {
    hide Legal, Announced, Healthy, Did, Dropped, Again;
    var past := AllowedAt(p, log, k);
    s := log[k].deed.session;
    var before := AllowedAt(p, log, s);
    assert log[s] == past[s];
    forall i | 0 <= i < |before|
      ensures !FoundOverIP(before[i])
    {
      assert log[i] == before[i];
    }
    SentLater(before, log, AddNetwork(p.network.value));
    if Sent(before, ConnectNetwork) { SentLater(before, log, ConnectNetwork); }
  }

  lemma SentLater(before: Log, log: Log, c: Command)
    requires before <= log && Sent(before, c)
    ensures Sent(log, c)
  {
    var i :| 0 <= i < |before| && before[i].deed.Send? && before[i].deed.command == c;
    assert log[i] == before[i];
  }

  /** A Thread device is told to join only after its network ID could be taken from the dataset. */
  lemma NetworkIDFirst(p: Params, log: Log, k: nat, s: nat) returns (i: nat)
    requires Legal(p, log) && k < |log| && log[k].deed == Send(ConnectNetwork, s) && p.network == Some(Thread)
    ensures i < k && Done(log, i, ExtractNetworkID)
  {
    hide Legal, Announced, Healthy, Did, NeedsNetwork;
    var past := AllowedAt(p, log, k);
    i := DoneBefore(log, k, ExtractNetworkID);
  }

  /** Features that stop a run without credentials: Wi-Fi or Thread, and no Ethernet. */
  lemma AsksWhen(a: Action)
    ensures Asks(a) <==> && a.deed.Send? && a.deed.command == ReadFeatureMap && a.outcome.Ok?
                         && 1 <= a.outcome.value % 8 <= 3
  {
    if a.outcome.Ok? {
      var v := a.outcome.value;
      assert Bit(v, 1) == Bit(v / 2, 0) && Bit(v, 2) == Bit(v / 2, 1) == Bit(v / 2 / 2, 0);
      LowBits(v);
    }
  }

  lemma LowBits(v: nat)
    ensures v % 8 == v % 2 + 2 * (v / 2 % 2) + 4 * (v / 2 / 2 % 2)
  {
    var q := v / 8;
    assert v == 8 * q + v % 8;
    assert v / 2 == 4 * q + v % 8 / 2;
    assert v / 2 / 2 == 2 * q + v % 8 / 4;
  }

  /** Where there is a question whether the device needs credentials, it is asked before its attestation. */
  lemma FeaturesReadFirst(p: Params, log: Log, k: nat, s: nat)
    requires Legal(p, log) && k < |log| && log[k].deed == Send(RequestAttestation, s)
    requires p.network == None && !p.onNetwork
    requires forall i :: 0 <= i < k && log[i].deed == Discover && log[i].outcome.Ok? ==>
               log[i].outcome.value == BLE_ADDRESS
    ensures exists i :: 0 <= i < k && log[i].deed == Send(ReadFeatureMap, s)
  {
    hide Legal, Announced, Healthy, Did, NeedsNetwork, Asks, Again;
    var past := AllowedAt(p, log, k);
    forall i | 0 <= i < k
      ensures !FoundOverIP(past[i])
    {
      assert log[i] == past[i];
    }
    var i :| 0 <= i < |past| && past[i].deed == Send(ReadFeatureMap, s);
    assert log[i] == past[i];
  }

  // ----- the order of the commands -------------------------------------------------------------

  /** The first failsafe is the caller's or 180 s, any later one 900 s. */
  lemma FailsafeSeconds(p: Params, log: Log, k: nat, seconds: nat, s: nat)
    requires Legal(p, log) && k < |log| && log[k].deed == Send(ArmFailsafe(seconds), s)
    ensures (forall i :: 0 <= i < k ==> !log[i].deed.Send?) ==>
              seconds == if p.failsafeSeconds == 0 then 180 else p.failsafeSeconds
    ensures (exists i :: 0 <= i < k && log[i].deed.Send?) ==> seconds == 900
  {
    hide Legal, Announced, Healthy;
    var past := AllowedAt(p, log, k);
    assert forall i :: 0 <= i < k ==> past[i] == log[i];
  }

  /** Before PASE the device was discovered, and before that a setup code was parsed if one was given. */
  lemma FoundFirst(p: Params, log: Log, k: nat) returns (found: nat)
    requires Legal(p, log) && k < |log| && log[k].deed == EstablishPASE && !Tried(log[..k], EstablishPASE)
    ensures found < k && Done(log, found, Discover)
    ensures p.passcode == 0 ==> exists i: nat :: i < found && Done(log, i, ParseSetupCode)
  {
    hide Legal, Announced, Healthy, Did, NeedsNetwork;
    var past := AllowedAt(p, log, k);
    found := DoneBefore(log, k, Discover);
    var before := AllowedAt(p, log, found);
    if p.passcode == 0 {
      var i := DoneBefore(log, found, ParseSetupCode);
    }
  }

  /** What was done, in this order and on one session, before AddNOC is sent; only the first read may have failed. */
  lemma StepsInOrder(p: Params, log: Log, noc: nat, s: nat)
      returns (read: nat, info: nat, attestation: nat, dac: nat, pai: nat, csr: nat, root: nat)
    requires Legal(p, log) && noc < |log| && log[noc].deed == Send(AddNOC, s)
    ensures s < read < info < attestation < dac < pai < csr < root < noc
    ensures log[read].deed == Send(ReadConcurrentConnection, s)
    ensures Done(log, info, Send(ReadBasicInfo, s)) && Done(log, attestation, Send(RequestAttestation, s))
    ensures Done(log, dac, Send(RequestDAC, s)) && Done(log, pai, Send(RequestPAI, s))
    ensures Done(log, csr, Send(RequestCSR, s)) && Done(log, root, Send(AddTrustedRoot, s))
    ensures exists i: nat :: csr < i < root && Done(log, i, IssueNOC)
    ensures p.validatesAttestation ==>
              exists i: nat, j: nat :: i < j < csr && Done(log, i, ValidateDAC) && Done(log, j, ValidateAttestation)
  {
    hide Legal, Allowed;
    root := Previous(p, log, noc, AddNOC, AddTrustedRoot, s);
    csr := Previous(p, log, root, AddTrustedRoot, RequestCSR, s);
    pai := Previous(p, log, csr, RequestCSR, RequestPAI, s);
    dac := Previous(p, log, pai, RequestPAI, RequestDAC, s);
    attestation := Previous(p, log, dac, RequestDAC, RequestAttestation, s);
    info := Previous(p, log, attestation, RequestAttestation, ReadBasicInfo, s);
    read := FirstRead(p, log, info, s);
    hide *;
    IssuedBetween(p, log, csr, root, s);
    if p.validatesAttestation { ValidatedBefore(p, log, csr, s); }
  }

  /** The command that the rules demand before `c`. */
  lemma Previous(p: Params, log: Log, k: nat, c: Command, before: Command, s: nat) returns (i: nat)
    requires Legal(p, log) && k < |log| && log[k].deed == Send(c, s)
    requires || (c == AddNOC && before == AddTrustedRoot) || (c == AddTrustedRoot && before == RequestCSR)
             || (c == RequestCSR && before == RequestPAI) || (c == RequestPAI && before == RequestDAC)
             || (c == RequestDAC && before == RequestAttestation)
             || (c == RequestAttestation && before == ReadBasicInfo)
    ensures i < k && Done(log, i, Send(before, s))
  {
    hide Legal, Announced, Healthy, Did, NeedsNetwork, Armed, OnNetwork;
    var past := AllowedAt(p, log, k);
    i := DoneBefore(log, k, Send(before, s));
  }

  lemma FirstRead(p: Params, log: Log, info: nat, s: nat) returns (read: nat)
    requires Legal(p, log) && info < |log| && log[info].deed == Send(ReadBasicInfo, s)
    ensures s < read < info && log[read].deed == Send(ReadConcurrentConnection, s)
  {
    hide Legal, Announced, Healthy, Did, NeedsNetwork, Armed, OnNetwork;
    var past := AllowedAt(p, log, info);
    read :| 0 <= read < |past| && past[read].deed == Send(ReadConcurrentConnection, s);
    assert log[read] == past[read];
    var earlier := AllowedAt(p, log, read);
  }

  lemma IssuedBetween(p: Params, log: Log, csr: nat, root: nat, s: nat)
    requires Legal(p, log) && csr < root < |log|
    requires log[csr].deed == Send(RequestCSR, s) && log[root].deed == Send(AddTrustedRoot, s)
    ensures exists i: nat :: csr < i < root && Done(log, i, IssueNOC)
  {
    hide Legal, Announced, Healthy, Did, NeedsNetwork, Armed, OnNetwork;
    var past := AllowedAt(p, log, root);
    var i := DoneBefore(log, root, IssueNOC);
    var before := AllowedAt(p, log, i);
    var other :| Did(before, Send(RequestCSR, other));
    var j := DoneBefore(log, i, Send(RequestCSR, other));
    if j < csr { SentOnce(p, log, j, csr); } else if csr < j { SentOnce(p, log, csr, j); }
    assert csr < i < root && Done(log, i, IssueNOC);
  }

  lemma ValidatedBefore(p: Params, log: Log, csr: nat, s: nat)
    requires Legal(p, log) && csr < |log| && log[csr].deed == Send(RequestCSR, s) && p.validatesAttestation
    ensures exists i: nat, j: nat :: i < j < csr && Done(log, i, ValidateDAC) && Done(log, j, ValidateAttestation)
  {
    hide Legal, Announced, Healthy, Did, NeedsNetwork, Armed, OnNetwork;
    var past := AllowedAt(p, log, csr);
    var j := DoneBefore(log, csr, ValidateAttestation);
    var before := AllowedAt(p, log, j);
    var i := DoneBefore(log, j, ValidateDAC);
  }

  // ----- sessions -----------------------------------------------------------------------------------

  /** What goes over CASE is the completion and nothing else; the rest goes over PASE, and nothing once it is closed. */
  lemma SessionUsed(p: Params, log: Log, k: nat, c: Command, s: nat)
    requires Legal(p, log) && k < |log| && log[k].deed == Send(c, s)
    ensures s < k && log[s].deed == (if c == CommissioningComplete then EstablishCASE else EstablishPASE)
    ensures log[s].outcome.Ok? && forall i :: 0 <= i < k ==> log[i].deed != Close(s)
  {
    hide Legal, Announced, Healthy, Did, NeedsNetwork, Prepared, Again;
    CompleteOverCase(p, log, k, c, s);
    var past := AllowedAt(p, log, k);
    assert past[s] == log[s];
    forall i | 0 <= i < k
      ensures log[i].deed != Close(s)
    {
      assert past[i] == log[i];
    }
  }

  /** CASE is tried right after waiting, and after the NOC was accepted or its answer was lost. */
  lemma CaseAfterNoc(p: Params, log: Log, k: nat) returns (noc: nat)
    requires Legal(p, log) && k < |log| && log[k].deed == EstablishCASE
    ensures noc < k - 1 && log[k - 1].deed == Wait && log[k - 1].outcome.Ok?
    ensures log[noc].deed.Send? && log[noc].deed.command == AddNOC
    ensures log[noc].outcome.Failed? ==> log[noc].outcome.why != OtherFailure
    ensures forall i :: 0 <= i < k ==> !(log[i].deed == EstablishCASE && log[i].outcome.Ok?)
  {
    hide Legal, Announced, NeedsNetwork, Dropped, Again, Count, Sent;
    var past := AllowedAt(p, log, k);
    var s: nat;
    noc, s :| Credentialed(past, noc, s);
    assert past[k - 1] == log[k - 1] && past[noc] == log[noc];
    forall i | 0 <= i < k
      ensures !(log[i].deed == EstablishCASE && log[i].outcome.Ok?)
    {
      assert past[i] == log[i] && !IsCase(past, i);
    }
  }

  /** PASE is tried again only for network credentials still owed after the answer to AddNOC was lost. */
  lemma PaseAgain(p: Params, log: Log, i: nat, k: nat) returns (noc: nat)
    requires Legal(p, log) && i < k < |log| && log[i].deed == EstablishPASE && log[k].deed == EstablishPASE
    ensures !p.onNetwork && (p.network == Some(WiFi) || p.network == Some(Thread))
    ensures noc < k - 1 && log[k - 1].deed == Wait && log[k - 1].outcome.Ok?
    ensures log[noc].deed.Send? && log[noc].deed.command == AddNOC
    ensures log[noc].outcome.Failed? && log[noc].outcome.why != OtherFailure
    ensures forall j :: noc < j < k ==> !(log[j].deed == EstablishPASE && log[j].outcome.Ok?)
  {
    hide Legal, Announced, Did, Dropped, Again, Count, Sent;
    var past := AllowedAt(p, log, k);
    assert past[i] == log[i] && Tried(past, EstablishPASE);
    noc :| NocReplyLost(past, noc) && forall s: nat :: IsPase(past, s) ==> s < noc;
    assert past[k - 1] == log[k - 1] && past[noc] == log[noc];
    forall j | noc < j < k
      ensures !(log[j].deed == EstablishPASE && log[j].outcome.Ok?)
    {
      assert past[j] == log[j] && !IsPase(past, j);
    }
  }

  /** The last thing a run does but close sessions: the device accepts completion, or something fails. */
  lemma HowItEnds(p: Params, log: Log, ok: bool) returns (last: nat)
    requires EndedAs(p, log, ok)
    ensures last < |log| && forall i :: last < i < |log| ==> log[i].deed.Close?
    ensures ok ==> log[last].deed.Send? && log[last].deed.command == CommissioningComplete && log[last].outcome.Ok?
    ensures !ok ==> Fatal(log[last])
  {
    hide Fatal;
    var open := Unclosed(log);
    last := |open| - 1;
    assert log[last] == open[last];
  }

  // ----- failures ----------------------------------------------------------------------------------

  /** A session is given up at the first failure of anything but the two optional reads. */
  lemma {:induction false} SessionGivenUp(p: Params, log: Log, i: nat, k: nat, c: Command, s: nat, d: Command)
    requires Legal(p, log) && i < k < |log| && log[i].deed == Send(c, s) && log[i].outcome.Failed?
    requires c != ReadConcurrentConnection && c != ReadFeatureMap
    ensures log[k].deed != Send(d, s)
  {
    if log[k].deed == Send(d, s) { NoUseAfterFailure(p, log, i, k); }
  }

  /** What ends a run, and what does not. */
  lemma FatalWhen(a: Action)
    ensures Fatal(a) <==>
              || (a.deed.Send? && a.deed.command == ReadFeatureMap && a.outcome.Ok? && 1 <= a.outcome.value % 8 <= 3)
              || (a.outcome.Failed? &&
                  if a.deed.Send? then
                    var (c, why) := (a.deed.command, a.outcome.why);
                    && c != ReadConcurrentConnection && c != ReadFeatureMap
                    && ((c == AddNOC || c == ConnectNetwork) ==> why == OtherFailure)
                    && (c.AddNetwork? ==> why == OtherFailure || why == DeadlineExceeded)
                  else true)
  {
    AsksWhen(a);
    hide Asks;
  }

  /** After a fatal answer nothing is done but to close sessions; only sessions may be tried again. */
  lemma NothingAfterFatal(p: Params, log: Log, i: nat, k: nat)
    requires Legal(p, log) && i < k < |log| && Fatal(log[i])
    requires log[i].deed != EstablishPASE && log[i].deed != EstablishCASE
    ensures log[k].deed.Close?
  {
    hide Legal, Announced, InTurn, Fatal, Again;
    var past := AllowedAt(p, log, k);
    assert past[i] == log[i];
    assert Breaks(log[i]);
  }

  /** The transport counts as dropped when a required command has failed on every PASE session there was. */
  lemma DroppedWhen(log: Log)
    ensures Dropped(log) <==>
              forall s: nat :: s < |log| && log[s].deed == EstablishPASE && log[s].outcome.Ok? ==>
                exists i :: 0 <= i < |log| && FailedOn(log[i], s)
  {
    assert forall a: Action, s :: FailedOn(a, s) <==> Fails(a, s);
    assert forall s: nat :: IsPase(log, s) <==> s < |log| && log[s].deed == EstablishPASE && log[s].outcome.Ok?;
  }

  predicate FailedOn(a: Action, s: nat) {
    && a.deed.Send? && a.deed.session == s && a.outcome.Failed?
    && a.deed.command != ReadConcurrentConnection && a.deed.command != ReadFeatureMap
  }

  /** How often a session that could not be had was tried, when a run is given up because of it. */
  lemma AttemptsWhenGivenUp(p: Params, log: Log)
    requires GivesUp(p, log)
    ensures var d := log[|log| - 1].deed;
            && (d == EstablishCASE ==> Count(log, d) == if Dropped(log) then 1 else 3)
            && (d == EstablishPASE ==>
                  Count(log, d) == if !Sent(log, AddNOC) then 1
                                   else if p.reconnectAttempts == 0 then 7 else 1 + p.reconnectAttempts)
  {
    hide Dropped, Sent, Count;
  }

  /** The step numbers that are reported. */
  lemma CommandSteps(seconds: nat, kind: Network)
    ensures CommandStep(ArmFailsafe(seconds)) == 3
    ensures CommandStep(ReadConcurrentConnection) == 4
    ensures CommandStep(ReadBasicInfo) == 5 && CommandStep(ReadFeatureMap) == 5
    ensures CommandStep(RequestAttestation) == 6 && CommandStep(RequestDAC) == 6 && CommandStep(RequestPAI) == 6
    ensures CommandStep(RequestCSR) == 8
    ensures CommandStep(AddTrustedRoot) == 10
    ensures CommandStep(AddNOC) == 11
    ensures CommandStep(AddNetwork(kind)) == 12
    ensures CommandStep(ConnectNetwork) == 13
    ensures CommandStep(CommissioningComplete) == 15
  {
  }

  lemma DeedSteps(c: Command, s: nat)
    ensures StepOf(Send(c, s)) == Some(CommandStep(c))
    ensures StepOf(ParseSetupCode) == Some(0)
    ensures StepOf(Discover) == Some(1)
    ensures StepOf(EstablishPASE) == Some(2)
    ensures StepOf(ValidateDAC) == Some(7) && StepOf(ValidateAttestation) == Some(7)
    ensures StepOf(IssueNOC) == Some(9)
    ensures StepOf(ExtractNetworkID) == Some(13)
    ensures StepOf(EstablishCASE) == Some(14)
  {
    hide CommandStep;
  }
}
