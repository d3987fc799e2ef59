/**
 * What a commissioner may do and when (section 5.5 of the Matter Core Specification), as rules on a log of
 * everything it does.  A session is named by the place in the log where it was established.
 */
module CommissioningRules {
  import opened Bytes

  datatype Network = Ethernet | WiFi | Thread

  datatype Params = Params(
    passcode: u32, nodeID: u64, network: Option<Network>, onNetwork: bool, failsafeSeconds: u16,
    validatesAttestation: bool, reconnectAttempts: nat)

  datatype Failure = ConnClosed | DeadlineExceeded | ExchangeClosed | OtherFailure

  /** What the device, the transport or the caller's context answers. */
  datatype Outcome = Ok(value: nat) | Failed(why: Failure)

  datatype Command =
    | ArmFailsafe(seconds: nat)
    | ReadConcurrentConnection
    | ReadBasicInfo
    | ReadFeatureMap
    | RequestAttestation
    | RequestDAC
    | RequestPAI
    | RequestCSR
    | AddTrustedRoot
    | AddNOC
    | AddNetwork(kind: Network)
    | ConnectNetwork
    | CommissioningComplete

  datatype Deed =
    | Report(step: nat)
    | ParseSetupCode
    | Discover
    | ValidateDAC
    | ValidateAttestation
    | IssueNOC
    | ExtractNetworkID
    | Wait
    | EstablishPASE
    | EstablishCASE
    | Send(command: Command, session: nat)
    | Close(closed: nat)

  datatype Action = Action(deed: Deed, outcome: Outcome)

  type Log = seq<Action>

  // Progress steps, in the order of the CommissioningStep constants.
  const PARSE_SETUP_CODE := 0
  const DISCOVER := 1
  const ESTABLISH_PASE := 2
  const ARM_FAILSAFE := 3
  const READ_COMMISSIONING_INFO := 4
  const READ_BASIC_INFO := 5
  const ATTESTATION_REQUEST := 6
  const VALIDATE_ATTESTATION := 7
  const CSR_REQUEST := 8
  const GENERATE_NOC := 9
  const ADD_TRUSTED_ROOT := 10
  const ADD_NOC := 11
  const NETWORK_SETUP := 12
  const NETWORK_CONNECT := 13
  const ESTABLISH_CASE := 14
  const COMMISSIONING_COMPLETE := 15

  const BLE_ADDRESS: nat := 0
  const REARM_SECONDS: nat := 900
  const CASE_ATTEMPTS: nat := 3

  // ----- what a log says --------------------------------------------------------------

  /** The deed was done and answered without error. */
  ghost predicate Did(log: Log, d: Deed) {
    exists i :: 0 <= i < |log| && log[i].deed == d && log[i].outcome.Ok?
  }

  ghost predicate Tried(log: Log, d: Deed) {
    exists i :: 0 <= i < |log| && log[i].deed == d
  }

  ghost predicate Sent(log: Log, c: Command) {
    exists i :: 0 <= i < |log| && log[i].deed.Send? && log[i].deed.command == c
  }

  predicate IsPase(log: Log, s: nat) {
    s < |log| && log[s].deed == EstablishPASE && log[s].outcome.Ok?
  }

  predicate IsCase(log: Log, s: nat) {
    s < |log| && log[s].deed == EstablishCASE && log[s].outcome.Ok?
  }

  predicate IsSession(log: Log, s: nat) {
    IsPase(log, s) || IsCase(log, s)
  }

  /** The two reads whose failure is tolerated. */
  predicate Optional(c: Command) {
    c == ReadConcurrentConnection || c == ReadFeatureMap
  }

  /** A command sent on session `s` that failed and was not optional. */
  predicate Fails(a: Action, s: nat) {
    a.deed.Send? && a.deed.session == s && a.outcome.Failed? && !Optional(a.deed.command)
  }

  ghost predicate Healthy(log: Log, s: nat) {
    forall i :: 0 <= i < |log| ==> !Fails(log[i], s)
  }

  ghost predicate Usable(log: Log, s: nat) {
    IsSession(log, s) && !Tried(log, Close(s)) && Healthy(log, s)
  }

  /** The transport went away before an answer arrived, so the command may have taken effect. */
  predicate ReplyLost(o: Outcome) {
    o.Failed? && o.why != OtherFailure
  }

  /** AddNOC was sent on `s` at place `k` and not refused. */
  predicate Credentialed(log: Log, k: nat, s: nat) {
    k < |log| && log[k].deed == Send(AddNOC, s) && (log[k].outcome.Ok? || ReplyLost(log[k].outcome))
  }

  /** AddNOC was sent at place `k` and its reply was lost. */
  predicate NocReplyLost(log: Log, k: nat) {
    k < |log| && log[k].deed.Send? && log[k].deed.command == AddNOC && ReplyLost(log[k].outcome)
  }

  ghost predicate OnNetwork(p: Params, log: Log) {
    p.onNetwork || exists i :: 0 <= i < |log| && FoundOverIP(log[i])
  }

  predicate FoundOverIP(a: Action) {
    a.deed == Discover && a.outcome.Ok? && a.outcome.value != BLE_ADDRESS
  }

  /** Credentials are to be delivered: the device is not on the network and needs them to get there. */
  ghost predicate NeedsNetwork(p: Params, log: Log) {
    !OnNetwork(p, log) && p.network.Some? && p.network.value != Ethernet
  }

  ghost predicate Armed(log: Log, s: nat) {
    exists n :: Did(log, Send(ArmFailsafe(n), s))
  }

  /** A session established after AddNOC's reply was lost, with the failsafe re-armed at its maximum. */
  ghost predicate Recovered(log: Log, s: nat) {
    && IsPase(log, s) && Did(log, Send(ArmFailsafe(REARM_SECONDS), s))
    && exists k: nat :: k < s && NocReplyLost(log, k)
  }

  /** No PASE session is usable any more: something sent on every one of them failed. */
  ghost predicate Dropped(log: Log) {
    forall s: nat :: IsPase(log, s) ==> !Healthy(log, s)
  }

  /** The last thing done was to wait, and the caller did not cancel meanwhile. */
  predicate Waited(log: Log) {
    log != [] && log[|log| - 1].deed == Wait && log[|log| - 1].outcome.Ok?
  }

  function Count(log: Log, d: Deed): nat {
    if log == [] then 0 else Count(log[..|log| - 1], d) + if log[|log| - 1].deed == d then 1 else 0
  }

  /** Wi-Fi (bit 0) or Thread (bit 1) but no Ethernet (bit 2). */
  predicate AsksForCredentials(features: nat) {
    (Bit(features, 0) || Bit(features, 1)) && !Bit(features, 2)
  }

  /** The device said it can only join a network it needs credentials for. */
  predicate Asks(a: Action) {
    a.deed.Send? && a.deed.command == ReadFeatureMap && a.outcome.Ok? && AsksForCredentials(a.outcome.value)
  }

  /** The progress step a deed belongs to; waiting, closing and reporting belong to none. */
  function StepOf(d: Deed): Option<nat> {
    match d
    case ParseSetupCode => Some(PARSE_SETUP_CODE)
    case Discover => Some(DISCOVER)
    case EstablishPASE => Some(ESTABLISH_PASE)
    case ValidateDAC => Some(VALIDATE_ATTESTATION)
    case ValidateAttestation => Some(VALIDATE_ATTESTATION)
    case IssueNOC => Some(GENERATE_NOC)
    case ExtractNetworkID => Some(NETWORK_CONNECT)
    case EstablishCASE => Some(ESTABLISH_CASE)
    case Send(c, _) => Some(CommandStep(c))
    case _ => None
  }

  function CommandStep(c: Command): nat {
    match c
    case ArmFailsafe(_) => ARM_FAILSAFE
    case ReadConcurrentConnection => READ_COMMISSIONING_INFO
    case ReadBasicInfo => READ_BASIC_INFO
    case ReadFeatureMap => READ_BASIC_INFO
    case RequestAttestation => ATTESTATION_REQUEST
    case RequestDAC => ATTESTATION_REQUEST
    case RequestPAI => ATTESTATION_REQUEST
    case RequestCSR => CSR_REQUEST
    case AddTrustedRoot => ADD_TRUSTED_ROOT
    case AddNOC => ADD_NOC
    case AddNetwork(_) => NETWORK_SETUP
    case ConnectNetwork => NETWORK_CONNECT
    case CommissioningComplete => COMMISSIONING_COMPLETE
  }

  /** `step` is the latest progress reported. */
  ghost predicate Announced(log: Log, step: nat) {
    && (exists i :: 0 <= i < |log| && log[i].deed == Report(step))
    && forall i :: 0 <= i < |log| && log[i].deed.Report? ==> log[i].deed.step <= step
  }

  /** The deed repeats an earlier step: trying PASE again or arming the failsafe again. */
  ghost predicate Again(log: Log, d: Deed) {
    (d == EstablishPASE && Tried(log, d)) || (d.Send? && d.command.ArmFailsafe? && Sent(log, AddNOC))
  }

  /** A failure the flow goes on from: the optional reads, and replies lost once the device may have acted. */
  predicate Tolerated(a: Action) {
    && a.deed.Send? && a.outcome.Failed?
    && match a.deed.command
       case AddNOC => ReplyLost(a.outcome)
       case AddNetwork(_) => a.outcome.why == ConnClosed || a.outcome.why == ExchangeClosed
       case ConnectNetwork => ReplyLost(a.outcome)
       case c => Optional(c)
  }

  /** A reason to give up: a failure that is not tolerated, or a device that asks for credentials nobody supplied. */
  predicate Fatal(a: Action) {
    (a.outcome.Failed? && !Tolerated(a)) || Asks(a)
  }

  /** A reason to give up at once: fatal, and not a session that may be tried again. */
  predicate Breaks(a: Action) {
    Fatal(a) && a.deed != EstablishPASE && a.deed != EstablishCASE
  }

  ghost predicate Unbroken(log: Log) {
    forall i :: 0 <= i < |log| ==> !Breaks(log[i])
  }

  function FirstFailsafe(p: Params): nat {
    if p.failsafeSeconds == 0 then 180 else p.failsafeSeconds
  }

  // ----- the rules --------------------------------------------------------------------

  /** What must have been done before command `c` may be sent on session `s`. */
  ghost predicate Prepared(p: Params, log: Log, c: Command, s: nat) {
    match c
    case ArmFailsafe(n) =>
      && IsPase(log, s)
      && ((n == FirstFailsafe(p) && forall i :: 0 <= i < |log| ==> !log[i].deed.Send?)
          || (n == REARM_SECONDS && exists k: nat :: k < s && NocReplyLost(log, k)))
    case ReadConcurrentConnection => IsPase(log, s) && Armed(log, s)
    case ReadBasicInfo => Tried(log, Send(ReadConcurrentConnection, s))
    case ReadFeatureMap => Did(log, Send(ReadBasicInfo, s)) && p.network == None && !OnNetwork(p, log)
    case RequestAttestation =>
      && Did(log, Send(ReadBasicInfo, s))
      && (p.network == None && !OnNetwork(p, log) ==> Tried(log, Send(ReadFeatureMap, s)))
      && forall i :: 0 <= i < |log| ==> !Asks(log[i])
    case RequestDAC => Did(log, Send(RequestAttestation, s))
    case RequestPAI => Did(log, Send(RequestDAC, s))
    case RequestCSR =>
      && Did(log, Send(RequestPAI, s))
      && (p.validatesAttestation ==> Did(log, ValidateDAC) && Did(log, ValidateAttestation))
    case AddTrustedRoot => IsPase(log, s) && Armed(log, s) && Did(log, Send(RequestCSR, s)) && Did(log, IssueNOC)
    case AddNOC => IsPase(log, s) && Did(log, Send(AddTrustedRoot, s))
    case AddNetwork(kind) =>
      NeedsNetwork(p, log) && p.network == Some(kind) && (Did(log, Send(AddNOC, s)) || Recovered(log, s))
    case ConnectNetwork =>
      && NeedsNetwork(p, log) && Did(log, Send(AddNetwork(p.network.value), s))
      && (p.network == Some(Thread) ==> Did(log, ExtractNetworkID))
    case CommissioningComplete => IsCase(log, s)
  }

  /** The failsafe may be armed again; every other command is sent once. */
  ghost predicate Due(p: Params, log: Log, c: Command, s: nat) {
    Prepared(p, log, c, s) && (c.ArmFailsafe? || !Sent(log, c))
  }

  /** How often PASE is tried again after AddNOC's reply was lost; 0 stands for the default. */
  function ReconnectAttempts(p: Params): nat {
    if p.reconnectAttempts == 0 then 6 else p.reconnectAttempts
  }

  /** Progress is reported when a step begins; once a run is broken, only sessions are closed. */
  ghost predicate Allowed(p: Params, log: Log, d: Deed) {
    && (!d.Close? ==> Unbroken(log))
    && (StepOf(d).Some? && !Again(log, d) ==> Announced(log, StepOf(d).value))
    && InTurn(p, log, d)
  }

  ghost predicate InTurn(p: Params, log: Log, d: Deed) {
    match d
    case Report(step) => forall i :: 0 <= i < |log| && log[i].deed.Report? ==> log[i].deed.step < step
    case ParseSetupCode => p.passcode == 0 && !Tried(log, d)
    case Discover => !Tried(log, d) && (p.passcode == 0 ==> Did(log, ParseSetupCode))
    case ValidateDAC => p.validatesAttestation && exists s :: Did(log, Send(RequestPAI, s))
    case ValidateAttestation => Did(log, ValidateDAC)
    case IssueNOC => exists s :: Did(log, Send(RequestCSR, s))
    case ExtractNetworkID => p.network == Some(Thread) && exists s :: Did(log, Send(AddNetwork(Thread), s))
    case Wait => true
    case EstablishPASE =>
      if !Tried(log, d) then Did(log, Discover)
      else
        && Waited(log) && NeedsNetwork(p, log) && Count(log, d) < 1 + ReconnectAttempts(p)
        && exists k: nat :: NocReplyLost(log, k) && forall s: nat :: IsPase(log, s) ==> s < k
    case EstablishCASE =>
      && Waited(log)
      && (exists k: nat, s :: Credentialed(log, k, s))
      && (forall s: nat :: !IsCase(log, s))
      && (NeedsNetwork(p, log) ==> Sent(log, AddNetwork(p.network.value)))
      && (NeedsNetwork(p, log) ==> Sent(log, ConnectNetwork) || Dropped(log))
      && Count(log, d) < (if Dropped(log) then 1 else CASE_ATTEMPTS)
    case Send(c, s) => Usable(log, s) && Due(p, log, c, s)
    case Close(s) => IsSession(log, s)
  }

  /** Everything in the log was allowed when it was done. */
  ghost predicate Legal(p: Params, log: Log) {
    log == [] ||
    var before := log[..|log| - 1];
    Legal(p, before) && Allowed(p, before, log[|log| - 1].deed)
  }

  lemma LegalStep(p: Params, log: Log, a: Action)
    requires Legal(p, log) && Allowed(p, log, a.deed)
    ensures Legal(p, log + [a])
  {
    hide Allowed;
    assert (log + [a])[..|log|] == log;
  }

  // ----- what the rules guarantee -----------------------------------------------------

  /** The action at `k` was allowed by what came before it. */
  lemma {:induction false} AllowedAt(p: Params, log: Log, k: nat) returns (past: Log)
    requires Legal(p, log) && k < |log|
    ensures past == log[..k] && Allowed(p, past, log[k].deed)
    decreases |log|
  {
    hide Allowed;
    var before := log[..|log| - 1];
    if k < |before| {
      past := AllowedAt(p, before, k);
      assert before[..k] == log[..k];
    } else {
      past := before;
    }
  }

  lemma DidAt(log: Log, d: Deed) returns (i: nat)
    requires Did(log, d)
    ensures i < |log| && log[i] == Action(d, log[i].outcome) && log[i].outcome.Ok?
  {
    i :| 0 <= i < |log| && log[i].deed == d && log[i].outcome.Ok?;
  }

  /** The failsafe is armed, the root is added, and then the NOC, all on one PASE session. */
  lemma CredentialsInOrder(p: Params, log: Log, noc: nat, s: nat) returns (armed: nat, root: nat, seconds: nat)
    requires Legal(p, log) && noc < |log| && log[noc].deed == Send(AddNOC, s)
    ensures s < armed < root < noc && IsPase(log, s)
    ensures log[armed].deed == Send(ArmFailsafe(seconds), s) && log[armed].outcome.Ok?
    ensures log[root].deed == Send(AddTrustedRoot, s) && log[root].outcome.Ok?
  {
    hide Legal, Healthy, Tried, Sent, Did;
    var past := AllowedAt(p, log, noc);
    root := DidAt(past, Send(AddTrustedRoot, s));
    var before := AllowedAt(p, log, root);
    seconds :| Did(before, Send(ArmFailsafe(seconds), s));
    armed := DidAt(before, Send(ArmFailsafe(seconds), s));
    var first := AllowedAt(p, log, armed);
  }

  /** Every command but ArmFailsafe is sent at most once in a whole run. */
  lemma {:induction false} SentOnce(p: Params, log: Log, i: nat, j: nat)
    requires Legal(p, log) && i < j < |log|
    requires log[i].deed.Send? && log[j].deed.Send? && log[i].deed.command == log[j].deed.command
    ensures log[i].deed.command.ArmFailsafe?
  {
    var past := AllowedAt(p, log, j);
    assert past[i] == log[i];
  }

  /** CommissioningComplete goes over CASE, and nothing else does. */
  lemma CompleteOverCase(p: Params, log: Log, k: nat, c: Command, s: nat)
    requires Legal(p, log) && k < |log| && log[k].deed == Send(c, s)
    ensures c == CommissioningComplete <==> IsCase(log, s)
    decreases k
  {
    hide Legal, Announced, Again, OnNetwork, Healthy;
    var past := AllowedAt(p, log, k);
    assert log[s] == past[s];
    var earlier := match c
      case ReadBasicInfo => ReadConcurrentConnection
      case ReadFeatureMap => ReadBasicInfo
      case RequestAttestation => ReadBasicInfo
      case RequestDAC => RequestAttestation
      case RequestPAI => RequestDAC
      case RequestCSR => RequestPAI
      case AddNetwork(_) => AddNOC
      case ConnectNetwork => AddNetwork(p.network.value)
      case _ => c;
    if earlier != c && Tried(past, Send(earlier, s)) {
      var i :| 0 <= i < |past| && past[i].deed == Send(earlier, s);
      assert log[i] == past[i];
      CompleteOverCase(p, log, i, earlier, s);
    }
  }

  /** A session on which a command failed, other than the two optional reads, is never used again. */
  lemma {:induction false} NoUseAfterFailure(p: Params, log: Log, i: nat, k: nat)
    requires Legal(p, log) && i < k < |log| && log[k].deed.Send?
    ensures !Fails(log[i], log[k].deed.session)
  {
    var past := AllowedAt(p, log, k);
    assert past[i] == log[i];
  }

  /**
   * Network credentials go out after AddNOC and never to a device that is on the network already; if
   * AddNOC was not acknowledged, only on a PASE session established after it whose failsafe was re-armed
   * for 900 s.
   */
  lemma NetworkAfterCredentials(p: Params, log: Log, k: nat, kind: Network, s: nat) returns (noc: nat, rearm: nat)
    requires Legal(p, log) && k < |log| && log[k].deed == Send(AddNetwork(kind), s)
    ensures !p.onNetwork && p.network == Some(kind) && kind != Ethernet
    ensures forall i :: 0 <= i < k ==> !FoundOverIP(log[i])
    ensures noc < k && log[noc].deed.Send? && log[noc].deed.command == AddNOC
    ensures if log[noc].outcome.Ok? then log[noc].deed.session == s
            else noc < s < rearm < k && IsPase(log, s) && log[rearm].deed == Send(ArmFailsafe(REARM_SECONDS), s)
                 && log[rearm].outcome.Ok?
  {
    hide Legal, Healthy, Tried, Sent, Did;
    var past := AllowedAt(p, log, k);
    forall i | 0 <= i < k
      ensures !FoundOverIP(log[i])
    {
      assert past[i] == log[i];
    }
    rearm := 0;
    if Did(past, Send(AddNOC, s)) {
      noc := DidAt(past, Send(AddNOC, s));
    } else {
      noc :| noc < s && NocReplyLost(past, noc);
      rearm := DidAt(past, Send(ArmFailsafe(REARM_SECONDS), s));
      var before := AllowedAt(p, log, rearm);
    }
  }

  /** ConnectNetwork follows a successful network setup on the same session. */
  lemma ConnectAfterSetup(p: Params, log: Log, k: nat, s: nat) returns (setup: nat)
    requires Legal(p, log) && k < |log| && log[k].deed == Send(ConnectNetwork, s)
    ensures setup < k && log[setup].deed.Send? && log[setup].deed.command.AddNetwork?
    ensures log[setup].deed.session == s && log[setup].outcome.Ok?
  {
    hide Legal, Healthy, Tried, Sent, Did;
    var past := AllowedAt(p, log, k);
    setup := DidAt(past, Send(AddNetwork(p.network.value), s));
  }

  lemma {:induction false} Attempts(p: Params, log: Log)
    requires Legal(p, log)
    ensures Count(log, EstablishCASE) <= CASE_ATTEMPTS
    ensures Count(log, EstablishPASE) <= 1 + ReconnectAttempts(p)
    ensures CASE_ATTEMPTS == 3 && ReconnectAttempts(p) == if p.reconnectAttempts == 0 then 6 else p.reconnectAttempts
  {
    if log != [] {
      var n := |log| - 1;
      var before := log[..n];
      Attempts(p, before);
      var past := AllowedAt(p, log, n);
      if !Tried(before, EstablishPASE) { NeverTried(before, EstablishPASE); }
    }
  }

  /** Once the transport is gone there is only one CASE attempt: any later one had a session that was still sound. */
  lemma OneAttemptOnceDropped(p: Params, log: Log, i: nat, j: nat)
    requires Legal(p, log) && i < j < |log|
    requires log[i].deed == EstablishCASE && log[j].deed == EstablishCASE
    ensures !Dropped(log[..j])
  {
    hide Legal, Dropped, OnNetwork, Announced;
    var past := AllowedAt(p, log, j);
    assert past[i] == log[i];
    Counted(past, i);
  }

  lemma {:induction false} Counted(log: Log, i: nat)
    requires i < |log|
    ensures Count(log, log[i].deed) > 0
  {
    if i < |log| - 1 { Counted(log[..|log| - 1], i); }
  }

  lemma {:induction false} NeverTried(log: Log, d: Deed)
    requires !Tried(log, d)
    ensures Count(log, d) == 0
  {
    if log != [] {
      var before := log[..|log| - 1];
      assert forall i :: 0 <= i < |before| ==> log[i] == before[i];
      NeverTried(before, d);
    }
  }

  /** Progress steps are reported in strictly increasing order. */
  lemma {:induction false} ProgressIncreases(p: Params, log: Log, i: nat, j: nat)
    requires Legal(p, log) && i < j < |log| && log[i].deed.Report? && log[j].deed.Report?
    ensures log[i].deed.step < log[j].deed.step
  {
    var past := AllowedAt(p, log, j);
    assert past[i] == log[i];
  }

  /** Whatever is done was announced: its step is the last one reported before it. */
  lemma StepReported(p: Params, log: Log, k: nat) returns (i: nat)
    requires Legal(p, log) && k < |log| && StepOf(log[k].deed).Some? && !Again(log[..k], log[k].deed)
    ensures i < k && log[i].deed == Report(StepOf(log[k].deed).value)
    ensures forall j :: i < j < k ==> !log[j].deed.Report?
  {
    hide Legal, InTurn, Again, StepOf;
    var past := AllowedAt(p, log, k);
    var step := StepOf(log[k].deed).value;
    i :| 0 <= i < |past| && past[i].deed == Report(step);
    assert log[i] == past[i];
    forall j | i < j < k
      ensures !log[j].deed.Report?
    {
      assert log[j] == past[j];
      if log[j].deed.Report? { ProgressIncreases(p, log, i, j); }
    }
  }
}
