/** `Commissioner.Commission` step by step (internal/commissioning/flow.go). */
module CommissionFlow {
  import opened Bytes
  import opened CommissioningRules
  import opened CommissionWorld

  ghost predicate Running(w: World)
    reads w
  {
    w.Valid() && !w.closing
  }

  /** Nothing has happened yet that would end the run. */
  ghost predicate Sound(w: World)
    reads w
  {
    Running(w) && !w.broken
  }

  /** Something failed on every session but `s`. */
  ghost predicate OthersFailed(w: World, s: nat)
    reads w
  {
    forall i :: i in w.sessions && i != s ==> !Healthy(w.log, i)
  }

  lemma FailureStays(before: Log, after: Log, s: nat)
    requires before <= after && !Healthy(before, s)
    ensures !Healthy(after, s)
  {
    var i :| 0 <= i < |before| && Fails(before[i], s);
    assert Fails(after[i], s);
  }

  lemma FailuresStay(before: Log, after: Log)
    requires before <= after
    ensures forall s: nat :: !Healthy(before, s) ==> !Healthy(after, s)
  {
    forall s: nat | !Healthy(before, s)
      ensures !Healthy(after, s)
    {
      FailureStays(before, after, s);
    }
  }

  lemma AllFailed(w: World, s: nat)
    requires w.Valid() && OthersFailed(w, s) && !Healthy(w.log, s)
    ensures Dropped(w.log)
  {
    hide Healthy, Legal, AllSent, AllReported;
    forall i: nat | IsPase(w.log, i)
      ensures !Healthy(w.log, i)
    {
      assert IsSession(w.log, i);
    }
  }

  lemma FailedNow(log: Log, s: nat)
    requires log != [] && Fails(log[|log| - 1], s)
    ensures !Healthy(log, s)
  {
  }

  /** The run goes on over PASE session `s`. */
  ghost predicate On(w: World, s: nat)
    reads w
  {
    Sound(w) && IsPase(w.log, s) && Healthy(w.log, s)
  }

  /** The feature map was read if it matters, and did not ask for credentials. */
  ghost predicate ReadyToAttest(p: Params, log: Log, s: nat) {
    && (p.network == None && !OnNetwork(p, log) ==> Tried(log, Send(ReadFeatureMap, s)))
    && forall i :: 0 <= i < |log| ==> !Asks(log[i])
  }

  lemma StillReady(p: Params, log: Log, a: Action, s: nat)
    requires ReadyToAttest(p, log, s) && a.deed.Report?
    ensures ReadyToAttest(p, log + [a], s)
  {
    hide AsksForCredentials;
    GrownByOne(p, log, a);
    SameNetwork(p, log, a);
  }

  lemma NotAsked(log: Log, sent: int)
    requires AllSent(log, sent) && sent < Rank(ReadFeatureMap)
    ensures forall i :: 0 <= i < |log| ==> !Asks(log[i])
  {
    forall i | 0 <= i < |log|
      ensures !Asks(log[i])
    {
      assert Ranked(log[i]) <= sent;
    }
  }

  /** Steps 4 and 5: arm the failsafe, read the device, and settle which network is to be provisioned. */
  method ReadDevice(w: World, s: nat, failsafe: nat, onNetwork: bool) returns (ok: bool, network: Option<Network>)
    requires On(w, s) && w.sent == -1 && w.reported <= ESTABLISH_PASE
    requires onNetwork == OnNetwork(w.p, w.log) && failsafe == FirstFailsafe(w.p)
    modifies w
    ensures Running(w) && w.sent <= 3 && w.reported <= READ_BASIC_INFO && w.sessions == old(w.sessions)
    ensures Kept(w.p, old(w.log), w.log)
    ensures ok ==> On(w, s) && Did(w.log, Send(ReadBasicInfo, s)) && Armed(w.log, s) && ReadyToAttest(w.p, w.log, s)
    ensures ok ==> network == if onNetwork then None else w.p.network
    ensures !ok ==> GivesUp(w.p, w.log)
  {
    hide Legal, GivesUp, Unbroken, Announced, Did, Tried, Healthy, Count, AllSessions, OnNetwork;
    network := w.p.network;
    w.ReportProgress(ARM_FAILSAFE);
    NothingSent(w.log, w.sent);
    var o := w.Invoke(ArmFailsafe(failsafe), s);
    if o.Failed? {
      return false, network;
    }
    w.ReportProgress(READ_COMMISSIONING_INFO);
    assert Armed(w.log, s);
    o := w.Invoke(ReadConcurrentConnection, s);
    w.ReportProgress(READ_BASIC_INFO);
    o := w.Invoke(ReadBasicInfo, s);
    if o.Failed? {
      return false, network;
    }
    assert Did(w.log, Send(ArmFailsafe(failsafe), s));
    if onNetwork && network.Some? {
      network := None;
    }
    ghost var before := w.log;
    ok := CheckCredentials(w, s, network, onNetwork);
    KeptTwice(w.p, old(w.log), before, w.log);
  }

  lemma KeptTwice(p: Params, a: Log, b: Log, c: Log)
    requires Kept(p, a, b) && Kept(p, b, c)
    ensures Kept(p, a, c)
  {
    hide Did, Tried, OnNetwork, Count;
  }

  /** Stops early when the device can only join a network that it needs credentials for and none were given. */
  method CheckCredentials(w: World, s: nat, network: Option<Network>, onNetwork: bool) returns (ok: bool)
    requires On(w, s) && w.sent <= 2 && w.reported == READ_BASIC_INFO && Did(w.log, Send(ReadBasicInfo, s))
    requires onNetwork == OnNetwork(w.p, w.log) && network == if onNetwork then None else w.p.network
    modifies w
    ensures Running(w) && w.sent <= 3 && w.reported == READ_BASIC_INFO && w.sessions == old(w.sessions)
    ensures Kept(w.p, old(w.log), w.log)
    ensures ok ==> On(w, s) && ReadyToAttest(w.p, w.log, s)
    ensures !ok ==> GivesUp(w.p, w.log)
  {
    hide Legal, GivesUp, Unbroken, Announced, Did, Tried, Healthy, Count, AllSessions, OnNetwork;
    NotAsked(w.log, w.sent);
    KeptSame(w.p, w.log);
    if network.None? && !onNetwork {
      var o := w.Invoke(ReadFeatureMap, s);
      if o.Ok? {
        var wifi, thread, ethernet := Bit(o.value, 0), Bit(o.value, 1), Bit(o.value, 2);
        if (thread && !ethernet && !wifi) || (wifi && !ethernet && !thread) || ((thread || wifi) && !ethernet) {
          FatalNow(w.p, w.log);
          return false;
        }
      }
    }
    ok := true;
  }

  lemma KeptSame(p: Params, a: Log)
    ensures Kept(p, a, a)
  {
    hide Did, Tried, OnNetwork, Count;
  }

  lemma NothingSent(log: Log, sent: int)
    requires AllSent(log, sent) && sent == -1
    ensures forall i :: 0 <= i < |log| ==> !log[i].deed.Send?
  {
    forall i | 0 <= i < |log|
      ensures !log[i].deed.Send?
    {
      assert Ranked(log[i]) <= sent;
    }
  }

  /** Step 6: the device's attestation and certificates. */
  method RequestAttestations(w: World, s: nat) returns (ok: bool)
    requires On(w, s) && w.sent <= 3 && w.reported <= READ_BASIC_INFO
    requires Did(w.log, Send(ReadBasicInfo, s)) && ReadyToAttest(w.p, w.log, s)
    modifies w
    ensures Running(w) && w.sent <= 6 && w.reported <= ATTESTATION_REQUEST && w.sessions == old(w.sessions)
    ensures Kept(w.p, old(w.log), w.log)
    ensures ok ==> On(w, s) && Did(w.log, Send(RequestPAI, s))
    ensures !ok ==> GivesUp(w.p, w.log)
  {
    hide Legal, GivesUp, Unbroken, Announced, Did, Tried, Healthy, Count, AllSent, AllReported, AllSessions,
         NothingClosed, OnNetwork;
    w.ReportProgress(ATTESTATION_REQUEST);
    StillReady(w.p, old(w.log), w.log[|old(w.log)|], s);
    var o := w.Invoke(RequestAttestation, s);
    if o.Failed? { return false; }
    o := w.Invoke(RequestDAC, s);
    if o.Failed? { return false; }
    o := w.Invoke(RequestPAI, s);
    ok := o.Ok?;
  }

  /** Step 7: validation, if it is configured. */
  method Validate(w: World, s: nat) returns (ok: bool)
    requires On(w, s) && w.sent <= 6 && w.reported <= ATTESTATION_REQUEST && Did(w.log, Send(RequestPAI, s))
    modifies w
    ensures Running(w) && w.sent <= 6 && w.reported <= VALIDATE_ATTESTATION && w.sessions == old(w.sessions)
    ensures Kept(w.p, old(w.log), w.log)
    ensures ok ==> On(w, s) && Did(w.log, Send(RequestPAI, s))
    ensures ok && w.p.validatesAttestation ==> Did(w.log, ValidateDAC) && Did(w.log, ValidateAttestation)
    ensures !ok ==> GivesUp(w.p, w.log)
  {
    hide Legal, GivesUp, Unbroken, Announced, Did, Tried, Healthy, Count, AllSent, AllReported, AllSessions,
         NothingClosed, OnNetwork;
    w.ReportProgress(VALIDATE_ATTESTATION);
    if w.p.validatesAttestation {
      var o := w.Attempt(ValidateDAC);
      if o.Failed? { return false; }
      o := w.Attempt(ValidateAttestation);
      if o.Failed? { return false; }
    }
    ok := true;
  }

  /** Steps 8 and 9: the certificate request and the NOC. */
  method IssueCredentials(w: World, s: nat) returns (ok: bool)
    requires On(w, s) && w.sent <= 6 && w.reported <= VALIDATE_ATTESTATION && Did(w.log, Send(RequestPAI, s))
    requires w.p.validatesAttestation ==> Did(w.log, ValidateDAC) && Did(w.log, ValidateAttestation)
    modifies w
    ensures Running(w) && w.sent <= 7 && w.reported <= GENERATE_NOC && w.sessions == old(w.sessions)
    ensures Kept(w.p, old(w.log), w.log)
    ensures ok ==> On(w, s) && Did(w.log, Send(RequestCSR, s)) && Did(w.log, IssueNOC)
    ensures !ok ==> GivesUp(w.p, w.log)
  {
    hide Legal, GivesUp, Unbroken, Announced, Did, Tried, Healthy, Count, AllSent, AllReported, AllSessions,
         NothingClosed, OnNetwork;
    w.ReportProgress(CSR_REQUEST);
    var o := w.Invoke(RequestCSR, s);
    if o.Failed? { return false; }
    w.ReportProgress(GENERATE_NOC);
    o := w.Attempt(IssueNOC);
    ok := o.Ok?;
  }

  /** Steps 10 and 11.  `noc` is AddNOC's outcome when it was sent. */
  method InstallCredentials(w: World, s: nat) returns (ok: bool, dropped: bool)
    requires On(w, s) && w.sent <= 7 && w.reported <= GENERATE_NOC && Armed(w.log, s)
    requires Did(w.log, Send(RequestCSR, s)) && Did(w.log, IssueNOC)
    modifies w
    ensures Running(w) && w.sent <= 9 && w.reported <= ADD_NOC && w.sessions == old(w.sessions)
    ensures Kept(w.p, old(w.log), w.log)
    ensures ok ==> w.log != [] && Credentialed(w.log, |w.log| - 1, s)
    ensures ok && !dropped ==> On(w, s) && Did(w.log, Send(AddNOC, s))
    ensures ok && dropped ==> NocReplyLost(w.log, |w.log| - 1) && !Healthy(w.log, s)
    ensures ok ==> !w.broken
    ensures !ok ==> GivesUp(w.p, w.log)
  {
    hide Legal, GivesUp, Unbroken, Announced, Did, Tried, Healthy, Count, AllSessions, OnNetwork;
    dropped := false;
    w.ReportProgress(ADD_TRUSTED_ROOT);
    ghost var n :| Did(old(w.log), Send(ArmFailsafe(n), s));
    assert Did(w.log, Send(ArmFailsafe(n), s));
    var o := w.Invoke(AddTrustedRoot, s);
    if o.Failed? {
      return false, false;
    }
    w.ReportProgress(ADD_NOC);
    o := w.Invoke(AddNOC, s);
    if o.Failed? {
      FailedNow(w.log, s);
      if o.why == ConnClosed || o.why == DeadlineExceeded || o.why == ExchangeClosed {
        dropped := true;
      } else {
        return false, false;
      }
    }
    ok := true;
  }

  /** `reconnectPASEAfterAddNOC`: PASE again, up to the configured number of times. */
  method Reconnect(w: World, ghost k: nat) returns (ok: bool, session: nat)
    requires Sound(w) && NocReplyLost(w.log, k) && NeedsNetwork(w.p, w.log)
    requires Count(w.log, EstablishPASE) == 1 && Count(w.log, EstablishCASE) == 0
    requires forall i: nat :: IsPase(w.log, i) ==> i < k
    modifies w
    ensures Running(w) && w.sent == old(w.sent) && w.reported == old(w.reported)
    ensures Grown(w.p, old(w.log), w.log) && NeedsNetwork(w.p, w.log) && Count(w.log, EstablishCASE) == 0
    ensures NocReplyLost(w.log, k)
    ensures ok ==> On(w, session) && session > k && w.sessions == old(w.sessions) + {session}
    ensures !ok ==> GivesUp(w.p, w.log) && w.sessions == old(w.sessions)
  {
    hide Legal, GivesUp, Unbroken, Announced, Did, Tried, Healthy, AllSent, AllReported, AllSessions,
         NothingClosed, OnNetwork, Grown, Kept, Allowed;
    GrownSame(w.p, w.log);
    session := 0;
    ghost var before := w.log;
    WaitAllowed(w.p, before);
    var o := w.Attempt(Wait);
    AfterAttempt(w.p, before, w.log[|before|]);
    if o.Failed? {
      return false, session;
    }
    var maxAttempts := ReconnectAttempts(w.p);
    var attempt := 1;
    while attempt <= maxAttempts
      invariant 1 <= attempt <= maxAttempts + 1
      invariant Sound(w) && w.sent == old(w.sent) && w.reported == old(w.reported) && w.sessions == old(w.sessions)
      invariant Grown(w.p, old(w.log), w.log) && NeedsNetwork(w.p, w.log)
      invariant NocReplyLost(w.log, k) && forall i: nat :: IsPase(w.log, i) ==> i < k
      invariant Count(w.log, EstablishPASE) == attempt && Count(w.log, EstablishCASE) == 0
      invariant attempt <= maxAttempts ==> Waited(w.log)
      invariant attempt > maxAttempts ==> LastFailed(w.log, EstablishPASE)
    {
      before := w.log;
      PaseAllowed(w.p, before, k);
      o := w.Attempt(EstablishPASE);
      GrownTwice(w.p, old(w.log), before, w.log);
      AfterAttempt(w.p, before, w.log[|before|]);
      if o.Ok? {
        session := |w.log| - 1;
        FreshSession(w.p, before, w.log[|before|]);
        return true, session;
      }
      if attempt < maxAttempts {
        before := w.log;
        WaitAllowed(w.p, before);
        o := w.Attempt(Wait);
        GrownTwice(w.p, old(w.log), before, w.log);
        AfterAttempt(w.p, before, w.log[|before|]);
        if o.Failed? {
          return false, session;
        }
      }
      attempt := attempt + 1;
    }
    PaseExhausted(w.p, w.log, k);
    ok := false;
  }

  predicate LastFailed(log: Log, d: Deed) {
    log != [] && log[|log| - 1].deed == d && log[|log| - 1].outcome.Failed?
  }

  lemma LossMeansSent(log: Log, k: nat)
    requires NocReplyLost(log, k)
    ensures Sent(log, AddNOC)
  {
  }

  lemma PaseAllowed(p: Params, log: Log, k: nat)
    requires NeedsNetwork(p, log) && Count(log, EstablishPASE) < 1 + ReconnectAttempts(p)
    requires NocReplyLost(log, k) && forall i: nat :: IsPase(log, i) ==> i < k
    requires Count(log, EstablishPASE) > 0 && Waited(log) && Unbroken(log)
    ensures Allowed(p, log, EstablishPASE)
  {
    if !Tried(log, EstablishPASE) { NeverTried(log, EstablishPASE); }
  }

  lemma PaseExhausted(p: Params, log: Log, k: nat)
    requires LastFailed(log, EstablishPASE)
    requires NocReplyLost(log, k) && Count(log, EstablishPASE) == 1 + ReconnectAttempts(p)
    ensures GivesUp(p, log)
  {
    LossMeansSent(log, k);
  }

  lemma FirstPaseFailed(p: Params, log: Log)
    requires LastFailed(log, EstablishPASE)
    requires !Sent(log, AddNOC) && Count(log, EstablishPASE) == 1
    ensures GivesUp(p, log)
  {
  }

  lemma CaseExhausted(p: Params, log: Log, dropped: bool)
    requires LastFailed(log, EstablishCASE)
    requires dropped == Dropped(log) && Count(log, EstablishCASE) == if dropped then 1 else CASE_ATTEMPTS
    ensures GivesUp(p, log)
  {
  }

  lemma AfterAttempt(p: Params, log: Log, a: Action)
    ensures a.deed != Discover ==> OnNetwork(p, log + [a]) == OnNetwork(p, log)
    ensures forall d :: Count(log + [a], d) == Count(log, d) + (if a.deed == d then 1 else 0)
    ensures forall i: nat :: i < |log| ==> IsPase(log + [a], i) == IsPase(log, i)
    ensures forall i: nat :: i < |log| ==> IsCase(log + [a], i) == IsCase(log, i)
  {
    if a.deed != Discover { SameNetwork(p, log, a); }
    GrownByOne(p, log, a);
  }

  lemma FreshSession(p: Params, log: Log, a: Action)
    requires Legal(p, log) && !a.deed.Send?
    ensures Healthy(log + [a], |log|)
  {
    NewSessionHealthy(p, log, |log|);
    HealthGrows(log, a, |log|);
  }

  /** Step 12: hand over the credentials. */
  method SetupNetwork(w: World, s: nat, kind: Network) returns (ok: bool, dropped: bool)
    requires On(w, s) && w.sent <= 9 && w.reported <= ADD_NOC
    requires NeedsNetwork(w.p, w.log) && w.p.network == Some(kind)
    requires Did(w.log, Send(AddNOC, s)) || Recovered(w.log, s)
    modifies w
    ensures Running(w) && w.sent <= 10 && w.reported <= NETWORK_SETUP && w.sessions == old(w.sessions)
    ensures Kept(w.p, old(w.log), w.log)
    ensures ok ==> Sent(w.log, AddNetwork(kind)) && !w.broken
    ensures ok && !dropped ==> On(w, s) && Did(w.log, Send(AddNetwork(kind), s))
    ensures ok && dropped ==> !Healthy(w.log, s)
    ensures !ok ==> GivesUp(w.p, w.log)
  {
    hide Legal, GivesUp, Unbroken, Announced, Did, Tried, Healthy, Count, AllSessions, OnNetwork, Recovered;
    dropped := false;
    w.ReportProgress(NETWORK_SETUP);
    if Recovered(old(w.log), s) { RecoveredStays(w.p, old(w.log), w.log, s); }
    var o := w.Invoke(AddNetwork(kind), s);
    WasTried(w.log, AddNetwork(kind), s);
    if o.Failed? {
      FailedNow(w.log, s);
      if o.why == ConnClosed || o.why == ExchangeClosed {
        dropped := true;
      } else {
        return false, false;
      }
    }
    ok := true;
  }

  /** Step 13: have the device join. */
  method JoinNetwork(w: World, s: nat, kind: Network) returns (ok: bool, dropped: bool)
    requires On(w, s) && w.sent <= 10 && w.reported <= NETWORK_SETUP
    requires NeedsNetwork(w.p, w.log) && w.p.network == Some(kind) && Did(w.log, Send(AddNetwork(kind), s))
    modifies w
    ensures Running(w) && w.sent <= 11 && w.reported <= NETWORK_CONNECT && w.sessions == old(w.sessions)
    ensures Kept(w.p, old(w.log), w.log)
    ensures ok ==> Sent(w.log, ConnectNetwork) && !w.broken
    ensures ok && !dropped ==> On(w, s)
    ensures ok && dropped ==> !Healthy(w.log, s)
    ensures !ok ==> GivesUp(w.p, w.log)
  {
    hide Legal, GivesUp, Unbroken, Announced, Did, Tried, Healthy, Count, AllSessions, OnNetwork;
    dropped := false;
    w.ReportProgress(NETWORK_CONNECT);
    var o;
    if kind == Thread {
      o := w.Attempt(ExtractNetworkID);
      if o.Failed? {
        return false, false;
      }
    }
    o := w.Invoke(ConnectNetwork, s);
    WasTried(w.log, ConnectNetwork, s);
    if o.Failed? {
      FailedNow(w.log, s);
      if o.why == ConnClosed || o.why == DeadlineExceeded || o.why == ExchangeClosed {
        dropped := true;
      } else {
        return false, false;
      }
    }
    ok := true;
  }

  lemma SentKept(before: Log, after: Log, c: Command)
    requires before <= after && Sent(before, c)
    ensures Sent(after, c)
  {
    var i :| 0 <= i < |before| && before[i].deed.Send? && before[i].deed.command == c;
    assert after[i] == before[i];
  }

  lemma RecoveredStays(p: Params, before: Log, after: Log, s: nat)
    requires Grown(p, before, after) && Recovered(before, s)
    ensures Recovered(after, s)
  {
    hide Did, Tried;
    var k: nat :| k < s && NocReplyLost(before, k);
    assert NocReplyLost(after, k);
  }

  lemma CredentialedStays(before: Log, after: Log, k: nat, n: nat)
    requires before <= after && Credentialed(before, k, n)
    ensures Credentialed(after, k, n)
  {
  }

  lemma WasTried(log: Log, c: Command, s: nat)
    requires Tried(log, Send(c, s))
    ensures Sent(log, c)
  {
  }

  /** Steps 12 to 15 once AddNOC went through or was lost: network, CASE, and completion over CASE. */
  method Finish(w: World, s: nat, network: Option<Network>, lost: bool, ghost k: nat) returns (ok: bool)
    requires Sound(w) && w.sent <= 9 && w.reported <= ADD_NOC
    requires exists n: nat :: Credentialed(w.log, k, n)
    requires network == if OnNetwork(w.p, w.log) then None else w.p.network
    requires OthersFailed(w, s)
    requires lost ==> !NeedsNetwork(w.p, w.log) && !Healthy(w.log, s)
    requires !lost ==> On(w, s) && (Did(w.log, Send(AddNOC, s)) || Recovered(w.log, s))
    requires Count(w.log, EstablishCASE) == 0
    modifies w
    ensures w.Valid() && w.Ended(ok, old(w.sessions)) && old(w.log) <= w.log
  {
    hide Legal, GivesUp, Unbroken, Announced, Did, Tried, Healthy, AllSent, AllReported, AllSessions,
         NothingClosed, OnNetwork, Allowed, Recovered, Count, Sent;
    var dropped := lost;
    if network.Some? && network.value != Ethernet {
      var good;
      good, dropped := SetupNetwork(w, s, network.value);
      ghost var setup := w.log;
      if good && !dropped {
        good, dropped := JoinNetwork(w, s, network.value);
      }
      if !good {
        w.Stop();
        return false;
      }
      SentKept(setup, w.log, AddNetwork(network.value));
      FailuresStay(old(w.log), w.log);
    }
    if dropped { AllFailed(w, s); }
    ghost var provisioned := w.log;
    w.ReportProgress(ESTABLISH_CASE);
    SentStays(provisioned, w.log[|provisioned|]);
    if dropped { StillDropped(provisioned, w.log[|provisioned|]); }
    ghost var n: nat :| Credentialed(old(w.log), k, n);
    CredentialedStays(old(w.log), w.log, k, n);
    ok := OverCase(w, s, dropped, k);
  }

  /** The credentials were handed over and, if the transport lived that long, the device was told to join. */
  ghost predicate Provisioned(p: Params, log: Log) {
    p.network.Some? && Sent(log, AddNetwork(p.network.value)) && (Sent(log, ConnectNetwork) || Dropped(log))
  }

  lemma StillDropped(log: Log, a: Action)
    requires Dropped(log) && a.deed != EstablishPASE
    ensures Dropped(log + [a])
  {
    hide Healthy;
    var next := log + [a];
    forall s: nat | IsPase(next, s)
      ensures !Healthy(next, s)
    {
      assert IsPase(log, s);
      FailureStays(log, next, s);
    }
  }

  lemma StillProvisioned(p: Params, log: Log, a: Action)
    requires Provisioned(p, log) && a.deed != EstablishPASE
    ensures Provisioned(p, log + [a])
  {
    hide Sent, Dropped;
    SentStays(log, a);
    if Dropped(log) { StillDropped(log, a); }
  }

  /** Step 15: completion over the CASE session. */
  method Complete(w: World, session: nat) returns (ok: bool)
    requires Sound(w) && w.sent <= 11 && w.reported == ESTABLISH_CASE
    requires IsCase(w.log, session) && Healthy(w.log, session)
    modifies w
    ensures w.Valid() && w.Ended(ok, w.sessions) && w.sessions == old(w.sessions) && old(w.log) <= w.log
  {
    hide Legal, GivesUp, Unbroken, Announced, Did, Tried, Healthy, AllSent, AllReported, AllSessions, OnNetwork,
         Count, EndedAs;
    w.ReportProgress(COMMISSIONING_COMPLETE);
    ghost var before, sent := w.log, w.sent;
    var o := w.Invoke(CommissioningComplete, session);
    ok := o.Ok?;
    Concluded(w, before, sent, session, o);
  }

  /** Steps 14 and 15. */
  method OverCase(w: World, ghost s: nat, dropped: bool, ghost k: nat) returns (ok: bool)
    requires Sound(w) && w.sent <= 11 && w.reported == ESTABLISH_CASE
    requires exists n: nat :: Credentialed(w.log, k, n)
    requires NeedsNetwork(w.p, w.log) ==> Provisioned(w.p, w.log)
    requires if dropped then Dropped(w.log) else On(w, s)
    requires Count(w.log, EstablishCASE) == 0
    modifies w
    ensures w.Valid() && w.Ended(ok, old(w.sessions)) && old(w.log) <= w.log
  {
    hide Legal, GivesUp, Unbroken, Announced, Did, Tried, Healthy, AllSent, AllReported, AllSessions, OnNetwork,
         Sent;
    var established, session := EstablishCase(w, s, dropped, k);
    if !established {
      w.Stop();
      return false;
    }
    ok := Complete(w, session);
    w.CloseSession(session, ok, w.sessions);
    Widen(w, ok, old(w.sessions) + {session} - {session}, old(w.sessions));
  }

  /** What every CASE attempt needs, after `attempt` others. */
  ghost predicate ReadyForCase(w: World, s: nat, dropped: bool, k: nat, attempt: nat)
    reads w
  {
    && Sound(w) && w.reported == ESTABLISH_CASE && (exists n: nat :: Credentialed(w.log, k, n))
    && (NeedsNetwork(w.p, w.log) ==> Provisioned(w.p, w.log))
    && (if dropped then Dropped(w.log) else On(w, s))
    && Count(w.log, EstablishCASE) == attempt && forall i: nat :: !IsCase(w.log, i)
  }

  /** One turn of the loop: wait, then look for the device on its operational network. */
  method TryCase(w: World, ghost s: nat, dropped: bool, ghost k: nat, ghost attempt: nat)
    returns (waited: bool, o: Outcome)
    requires ReadyForCase(w, s, dropped, k, attempt) && attempt < (if dropped then 1 else CASE_ATTEMPTS)
    modifies w
    ensures Running(w) && w.sent == old(w.sent) && w.reported == old(w.reported) && old(w.log) <= w.log
    ensures o.Failed? ==> w.sessions == old(w.sessions)
    ensures waited && o.Failed? ==> ReadyForCase(w, s, dropped, k, attempt + 1) && LastFailed(w.log, EstablishCASE)
    ensures !waited ==> o.Failed? && GivesUp(w.p, w.log)
    ensures o.Ok? ==> w.log != [] && IsCase(w.log, |w.log| - 1) && Healthy(w.log, |w.log| - 1)
    ensures o.Ok? ==> w.sessions == old(w.sessions) + {|w.log| - 1} && !w.broken
  {
    hide Legal, GivesUp, Unbroken, Announced, Did, Tried, Healthy, AllSent, AllReported, AllSessions,
         NothingClosed, OnNetwork, Sent, Dropped, Provisioned, Allowed, Grown, Kept;
    ghost var before := w.log;
    ghost var n: nat :| Credentialed(before, k, n);
    WaitAllowed(w.p, before);
    o := w.Attempt(Wait);
    AfterAttempt(w.p, before, w.log[|before|]);
    CredentialedStays(before, w.log, k, n);
    if NeedsNetwork(w.p, before) { StillProvisioned(w.p, before, w.log[|before|]); }
    if dropped { StillDropped(before, w.log[|before|]); }
    if o.Failed? {
      return false, o;
    }
    before := w.log;
    if !dropped { StillConnected(before, s); }
    CaseAllowed(w.p, before, k, n, attempt, dropped);
    o := w.Attempt(EstablishCASE);
    waited := true;
    AfterAttempt(w.p, before, w.log[|before|]);
    CredentialedStays(before, w.log, k, n);
    if NeedsNetwork(w.p, before) { StillProvisioned(w.p, before, w.log[|before|]); }
    if dropped { StillDropped(before, w.log[|before|]); }
    FreshSession(w.p, before, w.log[|before|]);
  }

  /** One attempt when the transport is gone (the lookup itself waits), three otherwise. */
  method EstablishCase(w: World, ghost s: nat, dropped: bool, ghost k: nat) returns (ok: bool, session: nat)
    requires Sound(w) && w.reported == ESTABLISH_CASE
    requires exists n: nat :: Credentialed(w.log, k, n)
    requires NeedsNetwork(w.p, w.log) ==> Provisioned(w.p, w.log)
    requires if dropped then Dropped(w.log) else On(w, s)
    requires Count(w.log, EstablishCASE) == 0
    modifies w
    ensures Running(w) && w.sent == old(w.sent) && w.reported == old(w.reported) && old(w.log) <= w.log
    ensures ok ==> !w.broken && IsCase(w.log, session) && Healthy(w.log, session)
    ensures ok ==> w.sessions == old(w.sessions) + {session}
    ensures !ok ==> GivesUp(w.p, w.log) && w.sessions == old(w.sessions)
  {
    hide Legal, GivesUp, Unbroken, Announced, AllSent, AllReported, AllSessions, NothingClosed, Healthy,
         Dropped, Provisioned, NeedsNetwork, Credentialed;
    var caseRetries := CASE_ATTEMPTS;
    if dropped {
      caseRetries := 1;
    }
    session := 0;
    NeverDone(w.log, EstablishCASE);
    var attempt := 0;
    while attempt < caseRetries
      invariant 0 <= attempt <= caseRetries
      invariant ReadyForCase(w, s, dropped, k, attempt)
      invariant w.sent == old(w.sent) && w.reported == old(w.reported) && w.sessions == old(w.sessions)
      invariant old(w.log) <= w.log && (attempt > 0 ==> LastFailed(w.log, EstablishCASE))
    {
      var waited, o := TryCase(w, s, dropped, k, attempt);
      if !waited {
        return false, session;
      }
      if o.Ok? {
        return true, |w.log| - 1;
      }
      attempt := attempt + 1;
    }
    if !dropped { StillConnected(w.log, s); }
    CaseExhausted(w.p, w.log, dropped);
    ok := false;
  }

  lemma WaitAllowed(p: Params, log: Log)
    requires Unbroken(log)
    ensures Allowed(p, log, Wait)
  {
  }

  lemma CaseAllowed(p: Params, log: Log, k: nat, n: nat, attempt: nat, dropped: bool)
    requires Credentialed(log, k, n) && forall i: nat :: !IsCase(log, i)
    requires NeedsNetwork(p, log) ==> Provisioned(p, log)
    requires Count(log, EstablishCASE) == attempt < (if dropped then 1 else CASE_ATTEMPTS)
    requires !dropped ==> !Dropped(log)
    requires Announced(log, ESTABLISH_CASE) && Waited(log) && Unbroken(log)
    ensures Allowed(p, log, EstablishCASE)
  {
    hide Announced;
  }

  lemma StillConnected(log: Log, s: nat)
    requires IsPase(log, s) && Healthy(log, s)
    ensures !Dropped(log)
  {
  }

  lemma SentStays(log: Log, a: Action)
    ensures forall c :: Sent(log, c) ==> Sent(log + [a], c)
  {
    var next := log + [a];
    forall c | Sent(log, c)
      ensures Sent(next, c)
    {
      var i :| 0 <= i < |log| && log[i].deed.Send? && log[i].deed.command == c;
      assert next[i] == log[i];
    }
  }

  lemma Concluded(w: World, before: Log, sent: int, session: nat, o: Outcome)
    requires w.Valid() && w.log == before + [Action(Send(CommissioningComplete, session), o)]
    requires AllSent(before, sent) && sent < Rank(CommissioningComplete)
    requires o.Failed? ==> GivesUp(w.p, w.log)
    ensures w.Ended(o.Ok?, w.sessions)
  {
    NothingToClose(w.log);
    forall i | 0 <= i < |before|
      ensures !Completes(w.log[i])
    {
      assert w.log[i] == before[i] && Ranked(before[i]) <= sent;
    }
    assert o.Ok? ==> Completes(w.log[|before|]);
  }

  lemma Widen(w: World, ok: bool, a: set<nat>, b: set<nat>)
    requires w.Ended(ok, a) && a <= b
    ensures w.Ended(ok, b)
  {
  }

  /** Steps 4 to 9: everything up to the credentials to be installed. */
  method Prepare(w: World, s: nat, failsafe: nat, onNetwork: bool) returns (ok: bool, network: Option<Network>)
    requires On(w, s) && w.sent == -1 && w.reported <= ESTABLISH_PASE
    requires onNetwork == OnNetwork(w.p, w.log) && failsafe == FirstFailsafe(w.p)
    modifies w
    ensures Running(w) && w.sent <= 7 && w.reported <= GENERATE_NOC && w.sessions == old(w.sessions)
    ensures Kept(w.p, old(w.log), w.log)
    ensures ok ==> On(w, s) && Armed(w.log, s) && Did(w.log, Send(RequestCSR, s)) && Did(w.log, IssueNOC)
    ensures ok ==> network == if onNetwork then None else w.p.network
    ensures !ok ==> GivesUp(w.p, w.log)
  {
    hide Legal, GivesUp, Unbroken, Announced, Did, Tried, Healthy, AllSent, AllReported, AllSessions,
         NothingClosed, OnNetwork, Count;
    ok, network := ReadDevice(w, s, failsafe, onNetwork);
    if ok {
      ok := RequestAttestations(w, s);
    }
    if ok {
      ok := Validate(w, s);
    }
    if ok {
      ok := IssueCredentials(w, s);
    }
  }

  /** Everything done while the first PASE session `s` is open. */
  method OverPase(w: World, s: nat, failsafe: nat, onNetwork: bool) returns (ok: bool)
    requires On(w, s) && w.sessions == {s} && w.sent == -1 && w.reported <= ESTABLISH_PASE
    requires onNetwork == OnNetwork(w.p, w.log) && failsafe == FirstFailsafe(w.p)
    requires Count(w.log, EstablishPASE) == 1 && Count(w.log, EstablishCASE) == 0
    modifies w
    ensures w.Valid() && w.Ended(ok, {s}) && old(w.log) <= w.log
  {
    hide Legal, GivesUp, Unbroken, Announced, Did, Tried, Healthy, AllSent, AllReported, AllSessions,
         NothingClosed, OnNetwork, Allowed, Recovered, Count;
    var network;
    ok, network := Prepare(w, s, failsafe, onNetwork);
    if !ok {
      w.Stop();
      return;
    }
    var dropped;
    ok, dropped := InstallCredentials(w, s);
    if !ok {
      w.Stop();
      return;
    }
    ghost var k := |w.log| - 1;
    OnlyPase(w.log, w.sessions, s, k);
    assert Credentialed(w.log, k, s);
    var needsNetwork := network.Some? && network.value != Ethernet;
    if needsNetwork && dropped {
      ok := Redeliver(w, s, network, k);
    } else {
      ok := Finish(w, s, network, dropped, k);
    }
  }

  lemma {:induction false} NeverDone(log: Log, d: Deed)
    requires Count(log, d) == 0
    ensures forall i :: 0 <= i < |log| ==> log[i].deed != d
  {
    if log != [] {
      var before := log[..|log| - 1];
      NeverDone(before, d);
      assert forall i :: 0 <= i < |before| ==> log[i] == before[i];
    }
  }

  lemma OnlyPase(log: Log, sessions: set<nat>, s: nat, k: nat)
    requires AllSessions(log, sessions) && sessions == {s} && IsPase(log, s)
    requires k == |log| - 1 && log[k].deed.Send?
    ensures forall i: nat :: IsPase(log, i) ==> i < k
  {
    forall i: nat | IsPase(log, i)
      ensures i < k
    {
      assert IsSession(log, i);
    }
  }

  /** AddNOC's reply was lost with credentials still to deliver: a new PASE session, a new failsafe, and on. */
  method Redeliver(w: World, s: nat, network: Option<Network>, ghost k: nat) returns (ok: bool)
    requires Sound(w) && w.sessions == {s} && w.sent <= 9 && w.reported <= ADD_NOC
    requires NocReplyLost(w.log, k) && exists n: nat :: Credentialed(w.log, k, n)
    requires NeedsNetwork(w.p, w.log) && network == w.p.network && !Healthy(w.log, s)
    requires Count(w.log, EstablishPASE) == 1 && Count(w.log, EstablishCASE) == 0
    requires forall i: nat :: IsPase(w.log, i) ==> i < k
    modifies w
    ensures w.Valid() && w.Ended(ok, {s}) && old(w.log) <= w.log
  {
    hide Legal, GivesUp, Unbroken, Announced, Did, Tried, Healthy, AllSent, AllReported, AllSessions, OnNetwork,
         Count;
    var session;
    ok, session := Reconnect(w, k);
    if !ok {
      w.Stop();
      return;
    }
    LossMeansSent(w.log, k);
    var o := w.Invoke(ArmFailsafe(REARM_SECONDS), session);
    if o.Failed? {
      w.Stop();
      w.CloseSession(session, false, {s, session});
      ok := false;
    } else {
      assert NocReplyLost(w.log, k);
      assert Recovered(w.log, session);
      ghost var n: nat :| Credentialed(old(w.log), k, n);
      CredentialedStays(old(w.log), w.log, k, n);
      FailuresStay(old(w.log), w.log);
      ok := Finish(w, session, network, false, k);
    }
    w.CloseSession(session, ok, {s, session});
    Widen(w, ok, {s, session} - {session}, {s});
  }

  lemma Untried(log: Log, a: Action, d: Deed)
    requires !Tried(log, d) && a.deed != d
    ensures !Tried(log + [a], d)
  {
  }

  lemma FoundAt(p: Params, log: Log, a: Action)
    requires !Tried(log, Discover) && a.deed == Discover
    ensures OnNetwork(p, log + [a]) == (p.onNetwork || FoundOverIP(a))
  {
    var next := log + [a];
    assert next[|log|] == a;
    if exists i :: 0 <= i < |next| && FoundOverIP(next[i]) {
      var i :| 0 <= i < |next| && FoundOverIP(next[i]);
      assert i == |log|;
    }
  }

  /** Steps 2 and 3: find the device and talk to it over PASE; the session is closed on the way out. */
  method Connect(w: World, failsafe: nat) returns (ok: bool)
    requires Sound(w) && w.sent == -1 && w.reported <= PARSE_SETUP_CODE && w.sessions == {}
    requires failsafe == FirstFailsafe(w.p)
    requires !Tried(w.log, Discover) && !Tried(w.log, EstablishPASE) && !Tried(w.log, EstablishCASE)
    requires w.p.passcode == 0 ==> Did(w.log, ParseSetupCode)
    modifies w
    ensures w.Valid() && w.Ended(ok, {})
  {
    hide Legal, GivesUp, Unbroken, Announced, Did, Tried, Healthy, AllSent, AllReported, AllSessions, OnNetwork,
         Count;
    ghost var before := w.log;
    w.ReportProgress(DISCOVER);
    Untried(before, w.log[|before|], Discover);
    Untried(before, w.log[|before|], EstablishPASE);
    Untried(before, w.log[|before|], EstablishCASE);
    before := w.log;
    var found := w.Attempt(Discover);
    Untried(before, w.log[|before|], EstablishPASE);
    Untried(before, w.log[|before|], EstablishCASE);
    FoundAt(w.p, before, w.log[|before|]);
    if found.Failed? {
      w.Stop();
      return false;
    }
    var onNetwork := w.p.onNetwork;
    if !onNetwork && found.value != BLE_ADDRESS {
      onNetwork := true;
    }
    before := w.log;
    w.ReportProgress(ESTABLISH_PASE);
    Untried(before, w.log[|before|], EstablishPASE);
    Untried(before, w.log[|before|], EstablishCASE);
    NeverTried(w.log, EstablishPASE);
    NeverTried(w.log, EstablishCASE);
    before := w.log;
    var o := w.Attempt(EstablishPASE);
    AfterAttempt(w.p, before, w.log[|before|]);
    if o.Failed? {
      NotSent(w.log, w.sent, AddNOC);
      FirstPaseFailed(w.p, w.log);
      w.Stop();
      return false;
    }
    var s := |w.log| - 1;
    FreshSession(w.p, before, w.log[|before|]);
    ok := OverPase(w, s, failsafe, onNetwork);
    w.CloseSession(s, ok, {s});
    Widen(w, ok, {s} - {s}, {});
  }

  /** The whole flow.  Every session obtained is closed again, whatever happens. */
  method Commission(w: World) returns (ok: bool)
    requires w.Valid() && !w.closing && !w.broken && w.log == [] && w.sent == -1 && w.reported == -1 && w.sessions == {}
    modifies w
    ensures Legal(w.p, w.log)
    ensures ok <==> Completed(w.log)
    ensures EndedAs(w.p, w.log, ok)
    ensures forall i: nat :: IsSession(w.log, i) ==> Tried(w.log, Close(i))
  {
    hide Legal, GivesUp, Unbroken, Announced, Did, Healthy, AllSent, AllReported, AllSessions, NothingClosed,
         OnNetwork, Count, Kept, Grown;
    var failsafe := w.p.failsafeSeconds;
    if failsafe == 0 {
      failsafe := 180;
    }
    if w.p.passcode == 0 {
      w.ReportProgress(PARSE_SETUP_CODE);
      var o := w.Attempt(ParseSetupCode);
      assert w.log == [w.log[0], w.log[1]];
      if o.Failed? {
        w.Stop();
        return false;
      }
    }
    ok := Connect(w, failsafe);
  }

  // ----- what success means -----------------------------------------------------------

  /**
   * A run that completes did so over a CASE session established after AddNOC had been sent and not
   * refused, with the failsafe armed and the root added before it on one PASE session; and if the device
   * had to be given network credentials, they were sent.
   */
  lemma SuccessMeans(p: Params, log: Log) returns (complete: nat, noc: nat, pase: nat)
    requires Legal(p, log) && Completed(log)
    ensures complete < |log| && Completes(log[complete]) && IsCase(log, log[complete].deed.session)
    ensures noc < log[complete].deed.session < complete && Credentialed(log, noc, pase) && IsPase(log, pase)
    ensures NeedsNetwork(p, log[..log[complete].deed.session]) ==>
      Sent(log[..log[complete].deed.session], AddNetwork(p.network.value))
  {
    hide Legal, GivesUp, Unbroken, Announced, Healthy, Tried, Sent, Did, OnNetwork, Count;
    complete :| 0 <= complete < |log| && Completes(log[complete]);
    var past := AllowedAt(p, log, complete);
    var s := log[complete].deed.session;
    var before := AllowedAt(p, log, s);
    noc, pase :| Credentialed(before, noc, pase);
    assert log[noc] == before[noc];
    var first := AllowedAt(p, log, noc);
  }
}
