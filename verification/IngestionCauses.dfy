/** Why a caller of the broker is rejected: each reason has exactly its own cause among the calls and replies
    of the run, and a fault that the bridge reports is the one that the caller is told. */
module IngestionCauses {
  import opened Wrappers
  import opened IngestionBroker
  import opened IngestionBrokerRuns
  import opened IngestionTold
  import opened IngestionEndToEnd
  import Bridge = BridgeWorker

  predicate RunsFor(x: seq<Exchange>, leaseId: string, e: nat) {
    Runs(x, leaseId) && RunningIn(x).value.execution == e
  }

  predicate SettlesCaller(c: Exchange, e: nat) {
    c.op.EndSettling? && c.op.execution == e
  }

  /** Call `j` is the first one after `i` that settles the execution's caller. */
  ghost predicate FirstSettling(x: seq<Exchange>, i: nat, j: nat, e: nat) {
    i < j < |x| && SettlesCaller(x[j], e) && forall k :: i < k < j ==> !SettlesCaller(x[k], e)
  }

  /** The call is the cause of a reason that is told at once. */
  ghost predicate IsCauseAtOnce(before: seq<Exchange>, c: Exchange, e: nat, failure: Failure) {
    match failure
    case QueueExpired => c.op == ExpireQueued(e) && e in WaitingIn(before)
    case InputUnavailable =>
      c.op.EndLease? && c.op.execution == e && c.op.inputBytes.None? && c.reply == Threw(LeaseInvalid)
    case InvalidOutput =>
      && c.op.BeginComplete? && c.op.completion == Some(Success(c.op.leaseId)) && RunsFor(before, c.op.leaseId, e)
      && c.reply == Threw(OutputMissing)
    case InfrastructureUnavailable =>
      || (c.op.Close? && e in WaitingIn(before))
      || (c.op.EndLease? && c.op.execution == e && c.op.inputBytes.Some? && c.reply == Threw(LeaseInvalid))
    case _ => false
  }

  /** The call is the cause of a reason that is told when the ending it starts is settled. */
  ghost predicate IsCauseInTime(before: seq<Exchange>, c: Exchange, e: nat, failure: Failure, readable: bool) {
    match failure
    case Reported(code) =>
      && c.op.BeginComplete? && c.op.completion == Some(Failed(c.op.leaseId, code)) && c.reply == Done
      && RunsFor(before, c.op.leaseId, e)
    case LeaseExpired => c.op.ExpireLease? && RunsFor(before, c.op.leaseId, e)
    case InvalidOutput =>
      && c.op.BeginComplete? && c.op.completion == Some(Success(c.op.leaseId)) && RunsFor(before, c.op.leaseId, e)
      && c.reply == Done && !readable
    case InfrastructureUnavailable =>
      c.op.Close? && !ShutIn(before) && RunningIn(before).Some? && RunningIn(before).value.execution == e
    case _ => false
  }

  /** Call `i` is the cause of this reason. */
  ghost predicate IsCause(x: seq<Exchange>, i: nat, e: nat, failure: Failure)
    requires i < |x|
  {
    || IsCauseAtOnce(x[..i], x[i], e, failure)
    || exists j: nat :: FirstSettling(x, i, j, e) && IsCauseInTime(x[..i], x[i], e, failure, x[j].op.readable)
  }

  // ----- Exchanges and histories ------------------------------------------------------------

  function Length(h: History): nat {
    if h.Start? then 0 else Length(h.before) + 1
  }

  function Prefix(h: History, n: nat): History
    requires n <= Length(h)
  {
    if n == Length(h) then h else Prefix(h.before, n)
  }

  lemma {:induction false} PrefixIsPrefix(h: History, n: nat, config: Config)
    requires n <= Length(h)
    ensures Extends(h, Prefix(h, n)) && Length(Prefix(h, n)) == n && |Exchanges(h, config)| == Length(h)
    ensures Exchanges(Prefix(h, n), config) == Exchanges(h, config)[..n]
    ensures Disciplined(h, config) ==> Disciplined(Prefix(h, n), config)
  {
    ExchangesCount(h, config);
    if n < Length(h) {
      PrefixIsPrefix(h.before, n, config);
      ExchangesCount(h.before, config);
      assert Exchanges(h, config)[..n] == Exchanges(h.before, config)[..n];
    } else {
      assert Exchanges(h, config)[..n] == Exchanges(h, config);
    }
  }

  lemma {:induction false} ExchangesCount(h: History, config: Config)
    ensures |Exchanges(h, config)| == Length(h)
  {
    if h.Then? {
      ExchangesCount(h.before, config);
    }
  }

  /** The call with number `n`, from the history before it. */
  lemma CallAt(h: History, n: nat, config: Config)
    requires n < Length(h)
    ensures |Exchanges(h, config)| == Length(h)
    ensures var g, x := Prefix(h, n + 1), Exchanges(h, config);
      && Length(g) == n + 1 && g.before == Prefix(h, n) && Exchanges(g.before, config) == x[..n]
      && x[n] == Exchange(g.op, Step(After(g.before, config), g.op, config).1)
      && Extends(h, g)
  {
    PrefixIsPrefix(h, n + 1, config);
    PrefixIsPrefix(h, n, config);
    var g := Prefix(h, n + 1);
    PrefixBefore(h, n);
    assert Exchanges(h, config)[..n + 1][n] == Exchanges(h, config)[n];
  }

  lemma {:induction false} PrefixBefore(h: History, n: nat)
    requires n < Length(h)
    ensures Length(Prefix(h, n + 1)) == n + 1 && Prefix(h, n + 1).before == Prefix(h, n)
  {
    if n + 1 < Length(h) {
      PrefixBefore(h.before, n);
    }
  }

  // ----- From the cause to the outcome ------------------------------------------------------

  lemma OutcomeStays(h: History, n: nat, config: Config, e: nat, o: Outcome)
    requires Disciplined(h, config) && n < Length(h) && |Exchanges(h, config)| == Length(h)
    requires OutcomeBy(Exchanges(h, config)[..n], Exchanges(h, config)[n], e) == Some(o)
    ensures Get(After(h, config).settled, e) == Some(o)
  {
    var g := Prefix(h, n + 1);
    CallAt(h, n, config);
    PrefixIsPrefix(h, n + 1, config);
    EveryRunIsTold(g, config);
    assert ExecutionTold(Exchanges(g, config), After(g, config), e);
    var x := Exchanges(g, config);
    assert x[..|x| - 1] == Exchanges(g.before, config);
    SettlesAtMostOnce(g, h, config, e);
  }

  lemma EndingStays(b: Broker, op: Op, config: Config, e: nat)
    requires Placed(b, e) && e in b.settling && !(op.EndSettling? && op.execution == e)
    ensures e in Step(b, op, config).0.settling && Step(b, op, config).0.settling[e] == b.settling[e]
  {
    assert !IsActive(b, e);
    match op
    case EndLease(x, inputBytes, leaseId, wellFormed, now) =>
      InspectionStagesNothing(b, x, inputBytes, leaseId, wellFormed, now, config);
    case BeginComplete(leaseId, completion, now) => CompletionEnds(b, leaseId, completion, now, e);
    case EndSettling(x, readable) => SettlingTells(b, x, readable, e);
    case _ =>
  }

  /** An ending that call `i` started is still under way when the caller is first settled. */
  lemma {:induction false} EndingLasts(h: History, i: nat, j: nat, config: Config, e: nat, ending: Ending)
    requires Disciplined(h, config) && i < j <= Length(h) && |Exchanges(h, config)| == Length(h)
    requires var x := Exchanges(h, config);
      EndingBy(x[..i], x[i], e) == Some(ending) && forall k :: i < k < j ==> !SettlesCaller(x[k], e)
    ensures EndingIn(Exchanges(h, config)[..j], e) == Some(ending)
  {
    var x := Exchanges(h, config);
    CallAt(h, j - 1, config);
    assert x[..j][..j - 1] == x[..j - 1] && x[..j][j - 1] == x[j - 1];
    if i < j - 1 {
      EndingLasts(h, i, j - 1, config, e, ending);
      PrefixIsPrefix(h, j, config);
      PrefixIsPrefix(h, j - 1, config);
      EndingLastsOneCall(Prefix(h, j), config, e, ending);
    }
  }

  lemma EndingLastsOneCall(g: History, config: Config, e: nat, ending: Ending)
    requires Disciplined(g, config) && g.Then?
    requires var x := Exchanges(g, config);
      x != [] && !SettlesCaller(x[|x| - 1], e) && x[..|x| - 1] == Exchanges(g.before, config)
    requires EndingIn(Exchanges(g.before, config), e) == Some(ending)
    ensures EndingIn(Exchanges(g, config), e) == Some(ending)
  {
    EveryRunIsTold(g, config);
    EveryRunIsTold(g.before, config);
    EveryRunKeepsTheInvariant(g.before, config);
    assert ExecutionTold(Exchanges(g, config), After(g, config), e);
    assert ExecutionTold(Exchanges(g.before, config), After(g.before, config), e);
    assert Placed(After(g.before, config), e);
    EndingStays(After(g.before, config), g.op, config, e);
  }

  /** What the caller is told when an ending is settled. */
  function Told(ending: Ending, readable: bool): Outcome {
    match ending
    case Failing(failure) => Rejected(failure)
    case Reading(leaseId, staged) => if readable then Resolved(leaseId, staged) else Rejected(InvalidOutput)
  }

  lemma EndingIsTold(h: History, i: nat, j: nat, config: Config, e: nat, ending: Ending)
    requires Disciplined(h, config) && |Exchanges(h, config)| == Length(h) && i < Length(h)
    requires EndingBy(Exchanges(h, config)[..i], Exchanges(h, config)[i], e) == Some(ending)
    requires FirstSettling(Exchanges(h, config), i, j, e)
    ensures Get(After(h, config).settled, e) == Some(Told(ending, Exchanges(h, config)[j].op.readable))
  {
    EndingLasts(h, i, j, config, e, ending);
    OutcomeStays(h, j, config, e, Told(ending, Exchanges(h, config)[j].op.readable));
  }

  lemma RepliedAsTold(h: History, i: nat, config: Config)
    requires i < |Exchanges(h, config)|
    ensures var x := Exchanges(h, config); x[i].reply == ReplyTold(x[..i], x[i].op, config)
  {
    ExchangesCount(h, config);
    CallAt(h, i, config);
    EachCallIsRepliedAsTold(Prefix(h, i), Exchanges(h, config)[i].op, config);
  }

  lemma CauseAtOnceTells(before: seq<Exchange>, c: Exchange, config: Config, e: nat, failure: Failure)
    requires c.reply == ReplyTold(before, c.op, config) && IsCauseAtOnce(before, c, e, failure)
    ensures OutcomeBy(before, c, e) == Some(Rejected(failure))
  {
  }

  lemma CauseInTimeTells(before: seq<Exchange>, c: Exchange, config: Config, e: nat, failure: Failure, readable: bool)
    requires c.reply == ReplyTold(before, c.op, config) && IsCauseInTime(before, c, e, failure, readable)
    ensures EndingBy(before, c, e).Some? && Told(EndingBy(before, c, e).value, readable) == Rejected(failure)
  {
  }

  lemma CauseTells(h: History, i: nat, config: Config, e: nat, failure: Failure)
    requires Disciplined(h, config) && i < |Exchanges(h, config)| && IsCause(Exchanges(h, config), i, e, failure)
    ensures Get(After(h, config).settled, e) == Some(Rejected(failure))
  {
    var x := Exchanges(h, config);
    ExchangesCount(h, config);
    RepliedAsTold(h, i, config);
    if IsCauseAtOnce(x[..i], x[i], e, failure) {
      CauseAtOnceTells(x[..i], x[i], config, e, failure);
      OutcomeStays(h, i, config, e, Rejected(failure));
    } else {
      var j: nat :| FirstSettling(x, i, j, e) && IsCauseInTime(x[..i], x[i], e, failure, x[j].op.readable);
      CauseInTimeTells(x[..i], x[i], config, e, failure, x[j].op.readable);
      EndingIsTold(h, i, j, config, e, EndingBy(x[..i], x[i], e).value);
    }
  }

  // ----- From the outcome to the cause ------------------------------------------------------

  lemma {:induction false} OutcomeHasItsCall(x: seq<Exchange>, e: nat) returns (i: nat)
    requires OutcomeIn(x, e).Some?
    ensures i < |x| && OutcomeBy(x[..i], x[i], e) == OutcomeIn(x, e)
  {
    var n := |x| - 1;
    if OutcomeBy(x[..n], x[n], e).Some? {
      i := n;
    } else {
      i := OutcomeHasItsCall(x[..n], e);
      assert x[..n][..i] == x[..i];
    }
  }

  lemma {:induction false} EndingHasItsCall(x: seq<Exchange>, e: nat) returns (i: nat)
    requires EndingIn(x, e).Some?
    ensures i < |x| && EndingBy(x[..i], x[i], e) == EndingIn(x, e)
    ensures forall k :: i < k < |x| ==> !SettlesCaller(x[k], e)
  {
    var n := |x| - 1;
    if EndingBy(x[..n], x[n], e).Some? {
      i := n;
    } else {
      i := EndingHasItsCall(x[..n], e);
      assert x[..n][..i] == x[..i];
      forall k | i < k < |x|
        ensures !SettlesCaller(x[k], e)
      {
        assert k < n ==> x[..n][k] == x[k];
      }
    }
  }

  lemma OutcomeHasItsCause(h: History, config: Config, e: nat, failure: Failure) returns (i: nat)
    requires Get(After(h, config).settled, e) == Some(Rejected(failure))
    ensures i < |Exchanges(h, config)| && IsCause(Exchanges(h, config), i, e, failure)
  {
    var x := Exchanges(h, config);
    EveryRunIsTold(h, config);
    ExchangesCount(h, config);
    assert ExecutionTold(x, After(h, config), e);
    var n := OutcomeHasItsCall(x, e);
    if x[n].op.EndSettling? {
      i := EndingHasItsCall(x[..n], e);
      assert x[..n][..i] == x[..i] && x[..n][i] == x[i];
      forall k | i < k < n
        ensures !SettlesCaller(x[k], e)
      {
        assert x[..n][k] == x[k];
      }
      assert FirstSettling(x, i, n, e);
      EndingIsCause(h, i, n, config, e, failure);
    } else {
      i := n;
      OutcomeIsCause(h, i, config, e, failure);
    }
  }

  lemma OutcomeIsCausedAtOnce(before: seq<Exchange>, c: Exchange, config: Config, e: nat, failure: Failure)
    requires c.reply == ReplyTold(before, c.op, config) && !c.op.EndSettling?
    requires OutcomeBy(before, c, e) == Some(Rejected(failure))
    ensures IsCauseAtOnce(before, c, e, failure)
  {
  }

  lemma OutcomeIsCause(h: History, i: nat, config: Config, e: nat, failure: Failure)
    requires i < |Exchanges(h, config)| && !Exchanges(h, config)[i].op.EndSettling?
    requires OutcomeBy(Exchanges(h, config)[..i], Exchanges(h, config)[i], e) == Some(Rejected(failure))
    ensures IsCause(Exchanges(h, config), i, e, failure)
  {
    var x := Exchanges(h, config);
    RepliedAsTold(h, i, config);
    OutcomeIsCausedAtOnce(x[..i], x[i], config, e, failure);
  }

  lemma EndingIsCausedInTime(before: seq<Exchange>, c: Exchange, config: Config, e: nat, failure: Failure,
                             readable: bool)
    requires c.reply == ReplyTold(before, c.op, config)
    requires EndingBy(before, c, e).Some? && Told(EndingBy(before, c, e).value, readable) == Rejected(failure)
    ensures IsCauseInTime(before, c, e, failure, readable)
  {
  }

  lemma EndingIsCause(h: History, i: nat, j: nat, config: Config, e: nat, failure: Failure)
    requires i < |Exchanges(h, config)| && FirstSettling(Exchanges(h, config), i, j, e)
    requires var ending := EndingBy(Exchanges(h, config)[..i], Exchanges(h, config)[i], e);
      ending.Some? && Told(ending.value, Exchanges(h, config)[j].op.readable) == Rejected(failure)
    ensures IsCause(Exchanges(h, config), i, e, failure)
  {
    var x := Exchanges(h, config);
    RepliedAsTold(h, i, config);
    EndingIsCausedInTime(x[..i], x[i], config, e, failure, x[j].op.readable);
  }

  /** In every run with one polling bridge a caller is told a reason if and only if its cause occurred. */
  lemma RejectedExactlyForItsCause(h: History, config: Config, e: nat, failure: Failure)
    requires Disciplined(h, config)
    ensures Get(After(h, config).settled, e) == Some(Rejected(failure)) <==>
      exists i: nat :: i < |Exchanges(h, config)| && IsCause(Exchanges(h, config), i, e, failure)
  {
    if Get(After(h, config).settled, e) == Some(Rejected(failure)) {
      var i := OutcomeHasItsCause(h, config, e, failure);
    } else if exists i: nat :: i < |Exchanges(h, config)| && IsCause(Exchanges(h, config), i, e, failure) {
      var i: nat :| i < |Exchanges(h, config)| && IsCause(Exchanges(h, config), i, e, failure);
      CauseTells(h, i, config, e, failure);
    }
  }

  // ----- The bridge's verdict reaches the caller ---------------------------------------------

  lemma {:induction false} DrivenAt(h: History, n: nat, polls: seq<Bridge.Poll>, config: Config)
    requires Driven(h, polls, config.sha256) && n < Length(h)
    ensures |Exchanges(h, config)| == Length(h) && SaidByBridge(Exchanges(h, config)[n].op, polls, config.sha256)
  {
    ExchangesCount(h, config);
    ExchangesCount(h.before, config);
    if n < Length(h.before) {
      DrivenAt(h.before, n, polls, config);
    }
  }

  /** The lease that runs is one that was issued to its execution. */
  lemma RunningIsIssued(h: History, config: Config, leaseId: string, e: nat)
    requires Disciplined(h, config) && RunsFor(Exchanges(h, config), leaseId, e)
    ensures var b := After(h, config); leaseId in b.issued && b.issued[leaseId] == e
  {
    EveryRunIsTold(h, config);
    EveryRunKeepsTheInvariant(h, config);
    assert ActiveOwns(After(h, config), config);
  }

  /** Over every run of the broker with one bridge polling it: a caller is told a reported code only if that
      is the verdict of the poll that processed the lease granted for the caller's own execution. */
  lemma ReportedIsTheBridgesVerdict(
    h: History, config: Config, polls: seq<Bridge.Poll>, namedHash: nat -> string, e: nat, code: string)
    returns (p: Bridge.Poll, g: History, lease: Lease)
    requires Disciplined(h, config) && Driven(h, polls, config.sha256)
    requires LeasesDiffer(polls) && LeasesGranted(h, config, polls, namedHash)
    requires Get(After(h, config).settled, e) == Some(Rejected(Reported(code)))
    ensures p in polls && Bridge.Processes(p) && HandedOut(h, g, config, lease, p.lease.value, namedHash)
    ensures lease.execution == e
    ensures Bridge.CompletionFor(p.lease.value, p.answers, config.sha256) == Failed(lease.leaseId, code)
  {
    var x := Exchanges(h, config);
    ExchangesCount(h, config);
    var i := OutcomeHasItsCause(h, config, e, Reported(code));
    DrivenAt(h, i, polls, config);
    var n := AnswerHasItsPoll(polls, config.sha256, x[i].op.completion.value);
    p := polls[n];
    Bridge.SuccessExactlyWhenEverythingHeld(p.lease.value, p.answers, config.sha256);
    g, lease :| HandedOut(h, g, config, lease, p.lease.value, namedHash);
    GrantIssues(After(g.before, config), g.op, config, lease);
    IssuedStays(g, h, config, lease.leaseId);
    CallAt(h, i, config);
    PrefixIsPrefix(h, i, config);
    RunningIsIssued(Prefix(h, i), config, x[i].op.leaseId, e);
    IssuedStays(Prefix(h, i), h, config, x[i].op.leaseId);
  }
}
