/** The broker driven by the bridge: in every run of the broker whose puts and completions are the ones
    that polling sends, late, repeated, lost or interleaved with anything else as they may be, a caller is
    handed only what the bridge vouched for. */
module IngestionEndToEnd {
  import opened Wrappers
  import opened IngestionBroker
  import opened IngestionBrokerRuns
  import Bridge = BridgeWorker

  /** What an operation says on behalf of the bridge, the bridge has said in one of its polls. */
  ghost predicate SaidByBridge(op: Op, polls: seq<Bridge.Poll>, sha256: seq<nat> -> string) {
    && (op.BeginComplete? && op.completion.Some? ==> op.completion.value in Bridge.AllAnswered(polls, sha256))
    && (op.BeginStage? && op.metadata.Some? ==> op.metadata.value in Bridge.AllPut(polls, sha256))
  }

  ghost predicate Driven(h: History, polls: seq<Bridge.Poll>, sha256: seq<nat> -> string) {
    h.Then? ==> Driven(h.before, polls, sha256) && SaidByBridge(h.op, polls, sha256)
  }

  /** No lease is handed out twice. */
  ghost predicate LeasesDiffer(polls: seq<Bridge.Poll>) {
    forall i, j :: 0 <= i < j < |polls| && polls[i].lease.Some? && polls[j].lease.Some? ==>
      polls[i].lease.value.leaseId != polls[j].lease.value.leaseId
  }

  /** The last call of the history granted this lease. */
  predicate GrantedAt(g: History, config: Config, lease: Lease) {
    g.Then? && Step(After(g.before, config), g.op, config).1 == Granted(lease)
  }

  /** The bridge was given the granted lease: its identifier, its times, the length found when the input
      was inspected, and the hash that the execution's caller named. */
  predicate Hands(lease: Lease, work: Bridge.WorkLease, namedHash: nat -> string) {
    && work.leaseId == lease.leaseId && work.leasedAt == lease.leasedAt && work.expiresAt == lease.expiresAt
    && work.inputBytes == lease.inputBytes && work.inputSha256 == namedHash(lease.execution)
  }

  ghost predicate HandedOut(h: History, g: History, config: Config, lease: Lease, work: Bridge.WorkLease,
                            namedHash: nat -> string)
  {
    Extends(h, g) && GrantedAt(g, config, lease) && Hands(lease, work, namedHash)
  }

  /** Whatever a poll is given to work on, the broker has granted. */
  ghost predicate LeasesGranted(h: History, config: Config, polls: seq<Bridge.Poll>, namedHash: nat -> string) {
    forall p :: p in polls && p.lease.Some? ==>
      exists g, lease :: HandedOut(h, g, config, lease, p.lease.value, namedHash)
  }

  // ----- What the broker holds, the bridge has said ----------------------------------------

  ghost predicate Declared(output: Staged, polls: seq<Bridge.Poll>, sha256: seq<nat> -> string) {
    output.metadata in Bridge.AllPut(polls, sha256)
  }

  ghost predicate Vouched(leaseId: string, output: Staged, polls: seq<Bridge.Poll>, sha256: seq<nat> -> string) {
    Declared(output, polls, sha256) && Success(leaseId) in Bridge.AllAnswered(polls, sha256)
  }

  ghost predicate StagingDeclared(b: Broker, polls: seq<Bridge.Poll>, sha256: seq<nat> -> string) {
    && (forall k :: k in b.staging ==> b.staging[k] in Bridge.AllPut(polls, sha256))
    && (b.active.Some? && b.active.value.staged.Some? ==> Declared(b.active.value.staged.value, polls, sha256))
  }

  ghost predicate AllVouched(b: Broker, polls: seq<Bridge.Poll>, sha256: seq<nat> -> string) {
    && StagingDeclared(b, polls, sha256)
    && (forall e :: e in b.settling && b.settling[e].Reading? ==>
      Vouched(b.settling[e].leaseId, b.settling[e].staged, polls, sha256))
    && (forall e :: e in b.settled && b.settled[e].Resolved? ==>
      Vouched(b.settled[e].leaseId, b.settled[e].output, polls, sha256))
  }

  lemma DeclaredAfterInspection(
    b: Broker, x: nat, inputBytes: Option<nat>, leaseId: string, wellFormed: bool, now: int, config: Config,
    polls: seq<Bridge.Poll>)
    requires StagingDeclared(b, polls, config.sha256)
    ensures StagingDeclared(FinishLease(b, x, inputBytes, leaseId, wellFormed, now, config).0, polls, config.sha256)
  {
  }

  lemma DeclaredAfterCompletion(b: Broker, leaseId: string, completion: Option<Completion>, now: int,
                                polls: seq<Bridge.Poll>, sha256: seq<nat> -> string)
    requires StagingDeclared(b, polls, sha256)
    ensures StagingDeclared(LeaveActive(b, leaseId, completion, now).0, polls, sha256)
  {
  }

  lemma DeclaredAfterOpening(b: Broker, op: Op, config: Config, polls: seq<Bridge.Poll>)
    requires op.BeginStage? && StagingDeclared(b, polls, config.sha256) && SaidByBridge(op, polls, config.sha256)
    ensures StagingDeclared(Step(b, op, config).0, polls, config.sha256)
  {
  }

  lemma DeclaredAfterReceiving(b: Broker, op: Op, config: Config, polls: seq<Bridge.Poll>)
    requires op.EndStage? && StagingDeclared(b, polls, config.sha256)
    ensures StagingDeclared(Step(b, op, config).0, polls, config.sha256)
  {
    ReceivingStages(b, op, config);
  }

  /** Receiving takes the metadata out of the staging area, and stages at most an output that fits it. */
  lemma ReceivingStages(b: Broker, op: Op, config: Config)
    requires op.EndStage?
    ensures var after := Step(b, op, config).0;
      && (forall k :: k in after.staging ==> k in b.staging && after.staging[k] == b.staging[k])
      && (after.active.Some? && after.active.value.staged.Some? && after.active != b.active ==>
            op.leaseId in b.staging && after.active.value.staged.value.metadata == b.staging[op.leaseId])
  {
  }

  lemma OthersStageNothing(b: Broker, op: Op, config: Config)
    requires !op.BeginStage? && !op.EndStage? && !op.EndLease? && !op.BeginComplete?
    ensures var after := Step(b, op, config).0;
      after.staging == b.staging && (after.active == b.active || after.active.None?)
  {
  }

  lemma DeclaredAfterStep(b: Broker, op: Op, config: Config, polls: seq<Bridge.Poll>)
    requires StagingDeclared(b, polls, config.sha256) && SaidByBridge(op, polls, config.sha256)
    ensures StagingDeclared(Step(b, op, config).0, polls, config.sha256)
  {
    match op
    case EndLease(x, inputBytes, leaseId, wellFormed, now) =>
      DeclaredAfterInspection(b, x, inputBytes, leaseId, wellFormed, now, config, polls);
    case BeginComplete(leaseId, completion, now) =>
      DeclaredAfterCompletion(b, leaseId, completion, now, polls, config.sha256);
    case BeginStage(_, _, _) => DeclaredAfterOpening(b, op, config, polls);
    case EndStage(_, _, _) => DeclaredAfterReceiving(b, op, config, polls);
    case _ => OthersStageNothing(b, op, config);
  }

  /** An execution starts to resolve only when its lease is completed with success. */
  lemma CompletionMustSucceed(b: Broker, leaseId: string, completion: Option<Completion>, now: int, e: nat)
    ensures var after := LeaveActive(b, leaseId, completion, now).0;
      e in after.settling && after.settling[e].Reading? ==>
        || (e in b.settling && b.settling[e] == after.settling[e])
        || (after.settling[e].leaseId == leaseId && completion == Some(Success(leaseId)))
  {
  }

  lemma ReadingIsVouched(b: Broker, op: Op, config: Config, polls: seq<Bridge.Poll>, e: nat)
    requires AllVouched(b, polls, config.sha256) && SaidByBridge(op, polls, config.sha256)
    requires e in Step(b, op, config).0.settling && Step(b, op, config).0.settling[e].Reading?
    ensures var ending := Step(b, op, config).0.settling[e];
      Vouched(ending.leaseId, ending.staged, polls, config.sha256)
  {
    ReadingCameFromActive(b, op, config, e);
    if op.BeginComplete? {
      CompletionMustSucceed(b, op.leaseId, op.completion, op.now, e);
    } else {
      OnlyCompletionReads(b, op, config, e);
    }
  }

  lemma OnlyCompletionReads(b: Broker, op: Op, config: Config, e: nat)
    requires !op.BeginComplete?
    requires e in Step(b, op, config).0.settling && Step(b, op, config).0.settling[e].Reading?
    ensures e in b.settling && b.settling[e] == Step(b, op, config).0.settling[e]
  {
    if op.EndSettling? {
      if op.execution in b.settling {
        SettlingMoves(b, op.execution, op.readable);
      }
    } else {
      OthersReadNothing(b, op, config, e);
    }
  }

  lemma VouchedAfterStep(b: Broker, op: Op, config: Config, polls: seq<Bridge.Poll>)
    requires AllVouched(b, polls, config.sha256) && SaidByBridge(op, polls, config.sha256)
    ensures AllVouched(Step(b, op, config).0, polls, config.sha256)
  {
    var after := Step(b, op, config).0;
    DeclaredAfterStep(b, op, config, polls);
    forall e | e in after.settling && after.settling[e].Reading?
      ensures Vouched(after.settling[e].leaseId, after.settling[e].staged, polls, config.sha256)
    {
      ReadingIsVouched(b, op, config, polls, e);
    }
    forall e | e in after.settled && after.settled[e].Resolved?
      ensures Vouched(after.settled[e].leaseId, after.settled[e].output, polls, config.sha256)
    {
      ResolvedCameFromReading(b, op, config, e);
    }
  }

  lemma {:induction false} EveryDrivenRunIsVouched(h: History, config: Config, polls: seq<Bridge.Poll>)
    requires Driven(h, polls, config.sha256)
    ensures AllVouched(After(h, config), polls, config.sha256)
  {
    if h.Then? {
      EveryDrivenRunIsVouched(h.before, config, polls);
      VouchedAfterStep(After(h.before, config), h.op, config, polls);
    }
  }

  // ----- What the bridge says, it has checked ----------------------------------------------

  lemma {:induction false} AnswerHasItsPoll(polls: seq<Bridge.Poll>, sha256: seq<nat> -> string, c: Completion)
    returns (i: nat)
    requires c in Bridge.AllAnswered(polls, sha256)
    ensures i < |polls| && Bridge.Processes(polls[i])
      && c == Bridge.CompletionFor(polls[i].lease.value, polls[i].answers, sha256)
  {
    var last := |polls| - 1;
    if c in Bridge.Answered(polls[last], sha256) {
      i := last;
    } else {
      i := AnswerHasItsPoll(polls[..last], sha256, c);
    }
  }

  lemma {:induction false} PutHasItsPoll(polls: seq<Bridge.Poll>, sha256: seq<nat> -> string, m: Metadata)
    returns (i: nat)
    requires m in Bridge.AllPut(polls, sha256)
    ensures i < |polls| && Bridge.Processes(polls[i]) && polls[i].answers.output.Some?
    ensures var output := polls[i].answers.output.value;
      m == Metadata(polls[i].lease.value.leaseId, |output|, sha256(output))
  {
    var last := |polls| - 1;
    if m in Bridge.PutBy(polls[last], sha256) {
      i := last;
    } else {
      i := PutHasItsPoll(polls[..last], sha256, m);
    }
  }

  /** The bridge processed the lease in this poll, every gate held, and the bytes have the length and the
      hash of the output that the bridge measured there. */
  ghost predicate Produced(p: Bridge.Poll, leaseId: string, bytes: seq<nat>, sha256: seq<nat> -> string) {
    && Bridge.Processes(p) && p.lease.value.leaseId == leaseId
    && Bridge.EverythingHeld(p.lease.value, p.answers, sha256)
    && |bytes| == |p.answers.output.value| && sha256(bytes) == sha256(p.answers.output.value)
  }

  lemma VouchedIsProduced(polls: seq<Bridge.Poll>, sha256: seq<nat> -> string, leaseId: string, output: Staged)
    returns (p: Bridge.Poll)
    requires LeasesDiffer(polls) && Vouched(leaseId, output, polls, sha256) && output.metadata.leaseId == leaseId
    requires |output.bytes| == output.metadata.byteLength && sha256(output.bytes) == output.metadata.outputSha256
    ensures p in polls && Produced(p, leaseId, output.bytes, sha256)
  {
    var i := AnswerHasItsPoll(polls, sha256, Success(leaseId));
    var j := PutHasItsPoll(polls, sha256, output.metadata);
    p := polls[i];
    Bridge.SuccessExactlyWhenEverythingHeld(p.lease.value, p.answers, sha256);
    assert i == j;
  }

  lemma ResolvedHasItsPoll(h: History, config: Config, polls: seq<Bridge.Poll>, e: nat) returns (p: Bridge.Poll)
    requires Disciplined(h, config) && Driven(h, polls, config.sha256) && LeasesDiffer(polls)
    requires e in After(h, config).settled && After(h, config).settled[e].Resolved?
    ensures var b := After(h, config);
      && b.settled[e].leaseId in b.issued && b.issued[b.settled[e].leaseId] == e
      && p in polls && Produced(p, b.settled[e].leaseId, b.settled[e].output.bytes, config.sha256)
  {
    var b := After(h, config);
    ResolvesOnlyWithItsOwnOutput(h, config, e);
    EveryDrivenRunIsVouched(h, config, polls);
    p := VouchedIsProduced(polls, config.sha256, b.settled[e].leaseId, b.settled[e].output);
  }

  // ----- What the bridge was given, the broker has granted ----------------------------------

  lemma GrantIssues(b: Broker, op: Op, config: Config, lease: Lease)
    requires Step(b, op, config).1 == Granted(lease)
    ensures op.EndLease? && op.inputBytes == Some(lease.inputBytes)
    ensures var after := Step(b, op, config).0;
      lease.leaseId in after.issued && after.issued[lease.leaseId] == lease.execution
  {
  }

  lemma {:induction false} IssuedStays(earlier: History, later: History, config: Config, leaseId: string)
    requires Disciplined(later, config) && Extends(later, earlier) && leaseId in After(earlier, config).issued
    ensures leaseId in After(later, config).issued
    ensures After(later, config).issued[leaseId] == After(earlier, config).issued[leaseId]
  {
    if later != earlier {
      IssuedStays(earlier, later.before, config, leaseId);
      GrantsAreKept(After(later.before, config), later.op, config, leaseId);
    }
  }

  /** Over every run of the broker with one bridge polling it: the caller of an execution is resolved only
      under a lease granted for that execution, in whose one processing, within the granted times, bytes of
      the length inspected for the grant and of the hash that this caller named arrived, the scan was fresh
      and clean, and worker and validation passed; and what the caller gets is the output of that
      processing, by length and hash. */
  lemma ResolvedOnlyIfEverythingHeld(
    h: History, config: Config, polls: seq<Bridge.Poll>, namedHash: nat -> string, e: nat)
    returns (p: Bridge.Poll, g: History, lease: Lease)
    requires Disciplined(h, config) && Driven(h, polls, config.sha256)
    requires LeasesDiffer(polls) && LeasesGranted(h, config, polls, namedHash)
    requires e in After(h, config).settled && After(h, config).settled[e].Resolved?
    ensures p in polls
    ensures var outcome := After(h, config).settled[e];
      Produced(p, outcome.leaseId, outcome.output.bytes, config.sha256)
    ensures HandedOut(h, g, config, lease, p.lease.value, namedHash) && lease.execution == e
    ensures g.op.EndLease? && g.op.inputBytes == Some(|Flatten(p.answers.chunks)|)
    ensures config.sha256(Flatten(p.answers.chunks)) == namedHash(e)
  {
    p := ResolvedHasItsPoll(h, config, polls, e);
    g, lease :| HandedOut(h, g, config, lease, p.lease.value, namedHash);
    GrantIssues(After(g.before, config), g.op, config, lease);
    IssuedStays(g, h, config, lease.leaseId);
  }

  // ----- Such runs do resolve their callers ------------------------------------------------

  /** A poll that is given lease "a" for one byte, in which everything holds and the output is that byte. */
  function GoodPoll(config: Config, now: int): Bridge.Poll {
    var answers := Bridge.Answers(
      None, false, [[7]], None, now, None, Some(true), None, true, None, None, now, Some([7]), None, false, now, false);
    var lease := Bridge.WorkLease("a", now, now + config.leaseDurationMs, 1, config.sha256([7]), "image");
    Bridge.Poll(false, false, false, "image", Some(lease), now, answers)
  }

  lemma OneByte()
    ensures Flatten([[7]]) == [7]
  {
    var chunks: seq<seq<nat>> := [[7]];
    assert chunks[..0] == [] && Flatten([]) == [];
  }

  lemma GoodPollSucceeds(config: Config, now: int)
    requires config.leaseDurationMs > 0
    ensures Success("a") in Bridge.AllAnswered([GoodPoll(config, now)], config.sha256)
    ensures Metadata("a", 1, config.sha256([7])) in Bridge.AllPut([GoodPoll(config, now)], config.sha256)
  {
    var p := GoodPoll(config, now);
    OneByte();
    Bridge.SuccessExactlyWhenEverythingHeld(p.lease.value, p.answers, config.sha256);
    assert [p][..0] == [];
    assert Bridge.Answered(p, config.sha256) == [Success("a")];
    assert Bridge.PutBy(p, config.sha256) == [Metadata("a", 1, config.sha256([7]))];
  }

  function FirstLease(config: Config, now: int): Lease {
    Lease(0, "a", now, now + config.leaseDurationMs, 1, None)
  }

  /** The first four calls: the caller's execution is leased as "a". */
  lemma AGrantedLease(config: Config, now: int) returns (h: History)
    ensures Disciplined(h, config) && forall polls :: Driven(h, polls, config.sha256)
    ensures After(h, config).active == Some(FirstLease(config, now)) && After(h, config).staging == map[]
    ensures GrantedAt(h, config, FirstLease(config, now))
  {
    var beaten := Then(Start, Heartbeat(true, now));
    var one := Then(beaten, Execute(true, now));
    var shifted := Then(one, BeginLease(now));
    h := Then(shifted, EndLease(0, Some(1), "a", true, now));
    assert After(beaten, config) == EMPTY.(heartbeatAt := Some(now)) by {
      assert After(Start, config) == EMPTY;
    }
    assert Disciplined(Start, config) && Disciplined(beaten, config);
    assert After(one, config).queue == [0];
    assert After(shifted, config).leasing == {0} && Disciplined(shifted, config);
    forall polls
      ensures Driven(h, polls, config.sha256)
    {
      assert Driven(Start, polls, config.sha256) && Driven(beaten, polls, config.sha256);
      assert Driven(one, polls, config.sha256) && Driven(shifted, polls, config.sha256);
    }
  }

  /** Put, both its halves, completion, and the caller is told. */
  function Completing(h: History, metadata: Metadata, now: int): History {
    Then(Then(Then(Then(h, BeginStage("a", Some(metadata), now)), EndStage("a", [[7]], false)),
              BeginComplete("a", Some(Success("a")), now)), EndSettling(0, true))
  }

  lemma CompletingResolves(h: History, config: Config, now: int)
    requires After(h, config).active == Some(FirstLease(config, now))
    requires After(h, config).staging == map[] && config.leaseDurationMs > 0
    ensures var after := After(Completing(h, Metadata("a", 1, config.sha256([7])), now), config);
      0 in after.settled && after.settled[0].Resolved?
  {
    var last := Completing(h, Metadata("a", 1, config.sha256([7])), now);
    var left := last.before;
    var put := left.before;
    var opening := put.before;
    OneByte();
    Bridge.AcceptedOutputReachesTheCaller(After(h, config), config, [7], [[7]], now, now);
    assert After(opening, config) == Step(After(h, config), opening.op, config).0;
    assert After(put, config) == Step(After(opening, config), put.op, config).0;
    assert After(left, config) == Step(After(put, config), left.op, config).0;
  }

  lemma CompletingIsDriven(h: History, config: Config, polls: seq<Bridge.Poll>, metadata: Metadata, now: int)
    requires Disciplined(h, config) && Driven(h, polls, config.sha256)
    requires Success("a") in Bridge.AllAnswered(polls, config.sha256) && metadata in Bridge.AllPut(polls, config.sha256)
    ensures var last := Completing(h, metadata, now);
      Disciplined(last, config) && Driven(last, polls, config.sha256) && Extends(last, h)
  {
    var left := Completing(h, metadata, now).before;
    var put := left.before;
    var opening := put.before;
    assert Disciplined(opening, config) && Disciplined(put, config) && Disciplined(left, config);
    assert Driven(opening, polls, config.sha256) && Driven(put, polls, config.sha256);
    assert Driven(left, polls, config.sha256);
    assert Extends(opening, h) && Extends(put, h) && Extends(left, h);
  }

  /** And four more tell the caller. */
  lemma ADrivenRunResolvesItsCaller(config: Config, now: int) returns (h: History, polls: seq<Bridge.Poll>)
    requires config.leaseDurationMs > 0
    ensures Disciplined(h, config) && Driven(h, polls, config.sha256)
    ensures LeasesDiffer(polls) && LeasesGranted(h, config, polls, _ => config.sha256([7]))
    ensures 0 in After(h, config).settled && After(h, config).settled[0].Resolved?
  {
    var granted := AGrantedLease(config, now);
    var metadata := Metadata("a", 1, config.sha256([7]));
    polls := [GoodPoll(config, now)];
    h := Completing(granted, metadata, now);
    GoodPollSucceeds(config, now);
    CompletingResolves(granted, config, now);
    CompletingIsDriven(granted, config, polls, metadata, now);
    assert HandedOut(h, granted, config, FirstLease(config, now), polls[0].lease.value, _ => config.sha256([7]));
  }
}
