/** The commissioning flow (internal/commissioning/flow.go), run against an arbitrary sequence of outcomes. */
module CommissionWorld {
  import opened Bytes
  import opened CommissioningRules

  /** The order of the commands in a run; the re-armed failsafe counts as the first. */
  function Rank(c: Command): nat {
    match c
    case ArmFailsafe(_) => 0
    case ReadConcurrentConnection => 1
    case ReadBasicInfo => 2
    case ReadFeatureMap => 3
    case RequestAttestation => 4
    case RequestDAC => 5
    case RequestPAI => 6
    case RequestCSR => 7
    case AddTrustedRoot => 8
    case AddNOC => 9
    case AddNetwork(_) => 10
    case ConnectNetwork => 11
    case CommissioningComplete => 12
  }

  function Max(a: int, b: int): int {
    if a > b then a else b
  }

  function Ranked(a: Action): int {
    if a.deed.Send? then Rank(a.deed.command) else -1
  }

  function Stepped(a: Action): int {
    if a.deed.Report? then a.deed.step else -1
  }

  predicate Establishes(a: Action) {
    (a.deed == EstablishPASE || a.deed == EstablishCASE) && a.outcome.Ok?
  }

  ghost predicate AllSent(log: Log, sent: int) {
    forall i :: 0 <= i < |log| ==> Ranked(log[i]) <= sent
  }

  ghost predicate AllReported(log: Log, reported: int) {
    forall i :: 0 <= i < |log| ==> Stepped(log[i]) <= reported
  }

  ghost predicate AllSessions(log: Log, sessions: set<nat>) {
    forall i: nat :: IsSession(log, i) ==> i in sessions
  }

  ghost predicate NothingClosed(log: Log) {
    forall i :: 0 <= i < |log| ==> !log[i].deed.Close?
  }

  ghost predicate Completed(log: Log) {
    exists i :: 0 <= i < |log| && Completes(log[i])
  }

  predicate Completes(a: Action) {
    a.deed.Send? && a.deed.command == CommissioningComplete && a.outcome.Ok?
  }

  /** How often a session of this kind may be tried, as things stand. */
  ghost function Tries(p: Params, log: Log, d: Deed): nat {
    if d == EstablishPASE then (if Sent(log, AddNOC) then 1 + ReconnectAttempts(p) else 1)
    else if Dropped(log) then 1 else CASE_ATTEMPTS
  }

  /** The last deed is the reason to give up, and a session that could not be had was tried as often as allowed. */
  ghost predicate GivesUp(p: Params, log: Log) {
    && log != [] && Fatal(log[|log| - 1])
    && var d := log[|log| - 1].deed;
    (d == EstablishPASE || d == EstablishCASE) ==> Count(log, d) == Tries(p, log, d)
  }

  /** The log up to the closings at its end. */
  function Unclosed(log: Log): (open: Log)
    ensures open <= log && forall i :: |open| <= i < |log| ==> log[i].deed.Close?
  {
    if log != [] && log[|log| - 1].deed.Close? then Unclosed(log[..|log| - 1]) else log
  }

  /** How a run ended: completed by its last deed before the closings, or given up because of it. */
  ghost predicate EndedAs(p: Params, log: Log, ok: bool) {
    var open := Unclosed(log);
    if ok then open != [] && Completes(open[|open| - 1]) else GivesUp(p, open)
  }

  lemma FatalNow(p: Params, log: Log)
    requires log != [] && Fatal(log[|log| - 1])
    requires log[|log| - 1].deed != EstablishPASE && log[|log| - 1].deed != EstablishCASE
    ensures GivesUp(p, log)
  {
  }

  lemma NotBroken(a: Action)
    ensures Tolerated(a) ==> !Fatal(a)
  {
  }

  lemma NothingToClose(log: Log)
    requires log != [] && !log[|log| - 1].deed.Close?
    ensures Unclosed(log) == log
  {
  }

  lemma OneMoreClosed(log: Log, a: Action)
    requires a.deed.Close?
    ensures Unclosed(log + [a]) == Unclosed(log)
  {
    assert (log + [a])[..|log|] == log;
  }

  /** What later actions leave true. */
  ghost predicate Grown(p: Params, before: Log, after: Log) {
    && before <= after
    && (forall d :: Did(before, d) ==> Did(after, d))
    && (forall d :: Tried(before, d) ==> Tried(after, d))
  }

  /** What actions other than discovery and session establishment also leave true. */
  ghost predicate Kept(p: Params, before: Log, after: Log) {
    && Grown(p, before, after)
    && OnNetwork(p, after) == OnNetwork(p, before)
    && Count(after, EstablishPASE) == Count(before, EstablishPASE)
    && Count(after, EstablishCASE) == Count(before, EstablishCASE)
  }

  lemma GrownByOne(p: Params, log: Log, a: Action)
    ensures Grown(p, log, log + [a])
    ensures Tried(log + [a], a.deed) && (a.outcome.Ok? ==> Did(log + [a], a.deed))
    ensures forall d :: Count(log + [a], d) == Count(log, d) + (if a.deed == d then 1 else 0)
  {
    var next := log + [a];
    assert next[|log|] == a && next[..|log|] == log;
    assert forall i :: 0 <= i < |log| ==> next[i] == log[i];
    forall d | Did(log, d)
      ensures Did(next, d)
    {
      var i := DidAt(log, d);
      assert next[i] == log[i];
    }
  }

  lemma SameNetwork(p: Params, log: Log, a: Action)
    requires a.deed != Discover
    ensures OnNetwork(p, log + [a]) == OnNetwork(p, log)
  {
    var next := log + [a];
    assert forall i :: 0 <= i < |log| ==> next[i] == log[i];
    if OnNetwork(p, next) && !p.onNetwork {
      var i :| 0 <= i < |next| && FoundOverIP(next[i]);
      assert i < |log| && FoundOverIP(log[i]);
    }
    if OnNetwork(p, log) && !p.onNetwork {
      var i :| 0 <= i < |log| && FoundOverIP(log[i]);
      assert FoundOverIP(next[i]);
    }
  }

  lemma GrownTwice(p: Params, a: Log, b: Log, c: Log)
    requires Grown(p, a, b) && Grown(p, b, c)
    ensures Grown(p, a, c)
  {
    hide Did, Tried;
  }

  lemma GrownSame(p: Params, a: Log)
    ensures Grown(p, a, a)
  {
    hide Did, Tried;
  }

  lemma SummariesGrow(log: Log, a: Action, sent: int, reported: int, sessions: set<nat>)
    requires AllSent(log, sent) && AllReported(log, reported) && AllSessions(log, sessions)
    ensures AllSent(log + [a], Max(sent, Ranked(a))) && AllReported(log + [a], Max(reported, Stepped(a)))
    ensures AllSessions(log + [a], sessions + if Establishes(a) then {|log|} else {})
    ensures NothingClosed(log) && !a.deed.Close? ==> NothingClosed(log + [a])
  {
    var next := log + [a];
    assert forall i :: 0 <= i < |log| ==> next[i] == log[i];
    forall i: nat | IsSession(next, i)
      ensures i in sessions + if Establishes(a) then {|log|} else {}
    {
      assert i < |log| ==> IsSession(log, i);
    }
  }

  lemma AnnouncedNow(log: Log, a: Action, reported: int)
    requires AllReported(log, reported) && reported >= -1
    requires reported >= 0 ==> Announced(log, reported)
    ensures var now := Max(reported, Stepped(a)); now >= 0 ==> Announced(log + [a], now)
  {
    var next := log + [a];
    var now := Max(reported, Stepped(a));
    assert next[|log|] == a && forall i :: 0 <= i < |log| ==> next[i] == log[i];
    forall i | 0 <= i < |next| && next[i].deed.Report?
      ensures next[i].deed.step <= now
    {
      if i < |log| { assert Stepped(log[i]) <= reported; }
    }
    if now >= 0 && Stepped(a) < reported {
      var i :| 0 <= i < |log| && log[i].deed == Report(reported);
      assert next[i].deed == Report(now);
    }
  }

  lemma HealthGrows(log: Log, a: Action, s: nat)
    requires Healthy(log, s) && !Fails(a, s)
    ensures Healthy(log + [a], s)
  {
  }

  lemma NotSent(log: Log, sent: int, c: Command)
    requires AllSent(log, sent) && Rank(c) > sent
    ensures !Sent(log, c)
  {
    forall i | 0 <= i < |log| && log[i].deed.Send?
      ensures log[i].deed.command != c
    {
      assert Ranked(log[i]) <= sent;
    }
  }

  /** Commands have only ever been sent on sessions established before. */
  lemma NewSessionHealthy(p: Params, log: Log, s: nat)
    requires Legal(p, log) && s >= |log|
    ensures Healthy(log, s)
  {
    forall i | 0 <= i < |log|
      ensures !Fails(log[i], s)
    {
      var past := AllowedAt(p, log, i);
      assert log[i].deed.Send? ==> IsSession(past, log[i].deed.session);
    }
  }

  /** The device, its transport, and the log of what has been done to it. */
  class World {
    const p: Params
    const env: nat -> Outcome
    var log: Log
    // Summaries of the log: the highest command rank and progress step, the sessions, whether one was closed.
    ghost var sent: int
    ghost var reported: int
    ghost var sessions: set<nat>
    ghost var closing: bool
    ghost var broken: bool

    ghost predicate Valid()
      reads this
    {
      && Legal(p, log) && AllSent(log, sent) && AllReported(log, reported) && AllSessions(log, sessions)
      && (!closing ==> NothingClosed(log)) && sent >= -1 && reported >= -1
      && (reported >= 0 ==> Announced(log, reported)) && (!broken ==> Unbroken(log))
    }

    constructor (p: Params, env: nat -> Outcome)
      ensures Valid() && this.p == p && this.env == env && log == []
      ensures sent == -1 && reported == -1 && sessions == {} && !closing && !broken
    {
      this.p, this.env, log := p, env, [];
      sent, reported, sessions, closing, broken := -1, -1, {}, false, false;
    }

    method Append(a: Action)
      requires Valid() && Allowed(p, log, a.deed)
      modifies this
      ensures Valid() && log == old(log) + [a] && Grown(p, old(log), log)
      ensures sent == Max(old(sent), Ranked(a)) && reported == Max(old(reported), Stepped(a))
      ensures sessions == old(sessions) + (if Establishes(a) then {|old(log)|} else {})
      ensures closing == (old(closing) || a.deed.Close?) && broken == (old(broken) || Breaks(a))
      ensures Tried(log, a.deed) && (a.outcome.Ok? ==> Did(log, a.deed))
      ensures a.deed != Discover && a.deed != EstablishPASE && a.deed != EstablishCASE ==> Kept(p, old(log), log)
      ensures forall s: nat :: Healthy(old(log), s) && !Fails(a, s) ==> Healthy(log, s)
    {
      hide Legal, Did, Tried, Healthy, Count, AllSent, AllSessions, NothingClosed, OnNetwork, Grown,
           AllReported, Allowed, IsSession, Announced, Breaks;
      LegalStep(p, log, a);
      GrownByOne(p, log, a);
      SummariesGrow(log, a, sent, reported, sessions);
      AnnouncedNow(log, a, reported);
      if a.deed != Discover { SameNetwork(p, log, a); }
      forall s: nat | Healthy(log, s) && !Fails(a, s)
        ensures Healthy(log + [a], s)
      {
        HealthGrows(log, a, s);
      }
      sent, reported := Max(sent, Ranked(a)), Max(reported, Stepped(a));
      sessions := sessions + (if Establishes(a) then {|log|} else {});
      closing, broken := closing || a.deed.Close?, broken || Breaks(a);
      log := log + [a];
    }

    method ReportProgress(step: nat)
      requires Valid() && !closing && !broken && reported < step
      modifies this
      ensures Valid() && !closing && !broken && reported == step && sent == old(sent) && sessions == old(sessions)
      ensures Kept(p, old(log), log) && forall s: nat :: Healthy(old(log), s) ==> Healthy(log, s)
      ensures log == old(log) + [Action(Report(step), Ok(0))]
    {
      hide Legal, Did, Tried, Healthy, Count, AllSent, AllSessions, NothingClosed, OnNetwork, Grown, Kept,
           Announced;
      forall i | 0 <= i < |log| && log[i].deed.Report?
        ensures log[i].deed.step < step
      {
        assert Stepped(log[i]) <= reported;
      }
      Append(Action(Report(step), Ok(0)));
    }

    /** Sends a command and waits for its outcome. */
    method Invoke(c: Command, s: nat) returns (o: Outcome)
      requires Valid() && !closing && !broken && (c.ArmFailsafe? || Rank(c) > sent)
      requires IsSession(log, s) && Healthy(log, s) && Prepared(p, log, c, s)
      requires reported == CommandStep(c) || Again(log, Send(c, s))
      modifies this
      ensures Valid() && !closing && sent == Max(old(sent), Rank(c)) && reported == old(reported)
      ensures sessions == old(sessions)
      ensures log == old(log) + [Action(Send(c, s), o)] && Kept(p, old(log), log)
      ensures Tried(log, Send(c, s)) && (o.Ok? ==> Did(log, Send(c, s)))
      ensures o.Ok? || Optional(c) ==> Healthy(log, s)
      ensures o.Failed? && !Tolerated(Action(Send(c, s), o)) ==> GivesUp(p, log)
      ensures broken <==> Fatal(Action(Send(c, s), o))
      ensures (o.Ok? && c != ReadFeatureMap) || Tolerated(Action(Send(c, s), o)) ==> !broken
    {
      hide Tolerated, Legal, Did, Healthy, Count, AllSent, AllReported, AllSessions, OnNetwork, Grown, Kept, Prepared,
           Announced, Again;
      if !c.ArmFailsafe? { NotSent(log, sent, c); }
      assert !Tried(log, Close(s));
      o := env(|log|);
      NotBroken(Action(Send(c, s), o));
      Append(Action(Send(c, s), o));
    }

    /** Any other step with an outcome: discovery, validation, waiting, establishing a session. */
    method Attempt(d: Deed) returns (o: Outcome)
      requires Valid() && !closing && !broken && !d.Send? && !d.Report? && !d.Close? && Allowed(p, log, d)
      modifies this
      ensures Valid() && !closing && sent == old(sent) && reported == old(reported)
      ensures log == old(log) + [Action(d, o)] && Grown(p, old(log), log)
      ensures sessions == old(sessions) + (if Establishes(Action(d, o)) then {|old(log)|} else {})
      ensures Tried(log, d) && (o.Ok? ==> Did(log, d))
      ensures d != Discover && d != EstablishPASE && d != EstablishCASE ==> Kept(p, old(log), log)
      ensures forall s: nat :: Healthy(old(log), s) ==> Healthy(log, s)
      ensures o.Failed? && d != EstablishPASE && d != EstablishCASE ==> GivesUp(p, log)
      ensures broken <==> o.Failed? && d != EstablishPASE && d != EstablishCASE
    {
      hide Legal, Did, Tried, Healthy, Count, AllSent, AllSessions, NothingClosed, OnNetwork, Grown, Kept,
           AllReported, Allowed, Announced;
      o := env(|log|);
      Append(Action(d, o));
    }

    // ----- how a run ends -------------------------------------------------------------

    /** The run is over but for closing the sessions in `open`: it was completed or given up by its last deed. */
    ghost predicate Ended(ok: bool, open: set<nat>)
      reads this
    {
      && Legal(p, log) && ok == Completed(log) && EndedAs(p, log, ok)
      && forall i: nat :: IsSession(log, i) ==> i in open || Tried(log, Close(i))
    }

    lemma Stop()
      requires Valid() && !closing && sent < Rank(CommissioningComplete) && GivesUp(p, log)
      ensures Ended(false, sessions)
    {
      NothingToClose(log);
      forall i | 0 <= i < |log|
        ensures !Completes(log[i])
      {
        assert Ranked(log[i]) <= sent;
      }
    }

    method CloseSession(s: nat, ghost ok: bool, ghost open: set<nat>)
      requires Valid() && Ended(ok, open) && IsSession(log, s)
      modifies this
      ensures Valid() && Ended(ok, open - {s}) && log == old(log) + [Action(Close(s), Ok(0))]
    {
      hide Legal, Did, Healthy, Count, AllSent, AllReported, AllSessions, NothingClosed, OnNetwork, Kept,
           Completed, Announced, Unclosed, GivesUp;
      ghost var before := log;
      Append(Action(Close(s), Ok(0)));
      CompletedStays(before, log[|before|]);
      OneMoreClosed(before, log[|before|]);
      forall i: nat | IsSession(log, i)
        ensures i in open - {s} || Tried(log, Close(i))
      {
        assert i < |before| && IsSession(before, i);
      }
    }
  }

  lemma CompletedStays(log: Log, a: Action)
    requires !Completes(a)
    ensures Completed(log + [a]) == Completed(log)
  {
    var next := log + [a];
    assert forall i :: 0 <= i < |log| ==> next[i] == log[i];
    if Completed(log) {
      var i :| 0 <= i < |log| && Completes(log[i]);
      assert Completes(next[i]);
    }
  }
}
