/** What every run of the broker keeps, whichever way the bridge's calls, the callers' requests and
    the two kinds of timer interleave. */
module IngestionBrokerRuns {
  import opened Wrappers
  import opened IngestionBroker

  datatype History = Start | Then(before: History, op: Op)

  function After(h: History, config: Config): Broker {
    match h
    case Start => EMPTY
    case Then(before, op) => Step(After(before, config), op, config).0
  }

  /** One polling bridge: no `lease` call starts while another is inspecting an input file, and
      lease identifiers, being random, do not repeat. */
  ghost predicate Disciplined(h: History, config: Config) {
    h.Then? ==>
      && Disciplined(h.before, config)
      && (h.op.BeginLease? ==> After(h.before, config).leasing == {})
      && (h.op.EndLease? ==> h.op.leaseId !in After(h.before, config).issued)
  }

  ghost predicate Extends(later: History, earlier: History) {
    later == earlier || (later.Then? && Extends(later.before, earlier))
  }

  // ----- Exactly one place ----------------------------------------------------------------

  predicate IsActive(b: Broker, e: nat) {
    b.active.Some? && b.active.value.execution == e
  }

  /** In how many of the broker's places the execution is. */
  function Places(b: Broker, e: nat): nat {
    (if e in b.queue then 1 else 0) + (if e in b.leasing then 1 else 0) + (if IsActive(b, e) then 1 else 0)
    + (if e in b.settling then 1 else 0) + (if e in b.settled then 1 else 0)
  }

  ghost predicate Placed(b: Broker, e: nat) {
    Places(b, e) == if e < b.accepted then 1 else 0
  }

  /** The inspected file has an allowed size and the lease made for it is well formed. */
  predicate Leasable(op: Op)
    requires op.EndLease?
  {
    op.inputBytes.Some? && 1 <= op.inputBytes.value <= MAX_INPUT_BYTES && op.wellFormed
  }

  /** The operation grants a lease while another one is active. */
  predicate GrantsOverActive(b: Broker, op: Op) {
    op.EndLease? && op.execution in b.leasing && Leasable(op) && b.active.Some?
  }

  ghost predicate EachInOnePlace(b: Broker) {
    forall e: nat :: Placed(b, e)
  }

  ghost predicate Ordered(q: seq<nat>) {
    forall i, j :: 0 <= i < j < |q| ==> q[i] < q[j]
  }

  /** Whatever still waits was accepted after whatever was taken. */
  ghost predicate Served(b: Broker) {
    && Ordered(b.queue) && Ordered(b.taken)
    && (forall t, w :: t in b.taken && w in b.queue ==> t < w)
    && (forall t :: t in b.taken ==> t < b.accepted)
  }

  ghost predicate OneLeaseAtATime(b: Broker) {
    && (forall x, y :: x in b.leasing && y in b.leasing ==> x == y)
    && (b.leasing != {} ==> b.active.None?)
  }

  /** The output was declared for this lease, the lease was granted to this execution, and the bytes
      are the declared ones. */
  predicate OwnOutput(b: Broker, e: nat, leaseId: string, output: Staged, config: Config) {
    && leaseId in b.issued && b.issued[leaseId] == e
    && output.metadata.leaseId == leaseId && Matches(output, config)
  }

  ghost predicate ActiveOwns(b: Broker, config: Config) {
    b.active.Some? ==>
      var lease := b.active.value;
      && lease.leaseId in b.issued && b.issued[lease.leaseId] == lease.execution
      && (lease.staged.Some? ==> OwnOutput(b, lease.execution, lease.leaseId, lease.staged.value, config))
  }

  ghost predicate OutputsOwned(b: Broker, config: Config) {
    && ActiveOwns(b, config)
    && (forall k :: k in b.staging ==> b.staging[k].leaseId == k)
    && (forall e :: e in b.settling && b.settling[e].Reading? ==>
      OwnOutput(b, e, b.settling[e].leaseId, b.settling[e].staged, config))
    && (forall e :: e in b.settled && b.settled[e].Resolved? ==>
      OwnOutput(b, e, b.settled[e].leaseId, b.settled[e].output, config))
  }

  ghost predicate Invariant(b: Broker, config: Config) {
    && EachInOnePlace(b) && Served(b) && OneLeaseAtATime(b) && OutputsOwned(b, config)
    && (b.closed ==> b.queue == [])
  }

  ghost predicate Allowed(b: Broker, op: Op) {
    (op.BeginLease? ==> b.leasing == {}) && (op.EndLease? ==> op.leaseId !in b.issued)
  }

  // ----- One step -------------------------------------------------------------------------

  lemma {:induction false} WithoutIndexRemoves(q: seq<nat>, e: nat)
    requires Ordered(q)
    ensures Ordered(WithoutIndex(q, e))
    ensures forall x :: x in WithoutIndex(q, e) <==> x in q && x != e
  {
    if q != [] {
      HeadLeaves(q);
      assert q == [q[0]] + q[1..];
      if q[0] != e {
        WithoutIndexRemoves(q[1..], e);
        PrependKeepsOrder(q[0], WithoutIndex(q[1..], e));
      }
    }
  }

  lemma PrependKeepsOrder(first: nat, q: seq<nat>)
    requires Ordered(q) && forall x :: x in q ==> first < x
    ensures Ordered([first] + q)
  {
    var longer := [first] + q;
    forall i, j | 0 <= i < j < |longer|
      ensures longer[i] < longer[j]
    {
      assert q[j - 1] in q;
    }
  }

  lemma HeadLeaves(q: seq<nat>)
    requires Ordered(q) && q != []
    ensures Ordered(q[1..])
    ensures forall x :: x in q[1..] <==> x in q && x != q[0]
    ensures forall x :: x in q[1..] ==> q[0] < x
  {
    assert q == [q[0]] + q[1..];
  }

  lemma AppendKeepsOrder(q: seq<nat>, last: nat)
    requires Ordered(q) && forall x :: x in q ==> x < last
    ensures Ordered(q + [last])
  {
    var longer := q + [last];
    forall i, j | 0 <= i < j < |longer|
      ensures longer[i] < longer[j]
    {
      assert q[i] in q;
    }
  }

  lemma QueueIsAccepted(b: Broker)
    requires EachInOnePlace(b)
    ensures forall w :: w in b.queue ==> w < b.accepted
  {
    forall w | w in b.queue
      ensures w < b.accepted
    {
      assert Placed(b, w);
    }
  }

  lemma PlaceAfterExecute(b: Broker, op: Op, config: Config, e: nat)
    requires op.Execute? && Placed(b, e)
    ensures Placed(Step(b, op, config).0, e)
  {
    var after := Step(b, op, config).0;
    if after != b {
      assert e in after.queue <==> e in b.queue || e == b.accepted;
      assert e == b.accepted ==> Places(b, e) == 0;
    }
  }

  lemma PlaceAfterShift(b: Broker, op: Op, config: Config, e: nat)
    requires op.BeginLease? && Placed(b, e) && Ordered(b.queue)
    ensures Placed(Step(b, op, config).0, e)
  {
    var after := Step(b, op, config).0;
    if after != b {
      HeadLeaves(b.queue);
      assert e in after.queue <==> e in b.queue && e != b.queue[0];
      assert e in after.leasing <==> e in b.leasing || e == b.queue[0];
      assert e == b.queue[0] ==> e in b.queue;
    }
  }

  lemma PlaceAfterGrant(b: Broker, op: Op, config: Config, e: nat)
    requires op.EndLease? && Placed(b, e) && !GrantsOverActive(b, op)
    ensures Placed(Step(b, op, config).0, e)
  {
    if op.execution in b.leasing {
      PlaceAfterInspection(b, op.execution, op.inputBytes, op.leaseId, op.wellFormed, op.now, config, e);
    }
  }

  lemma PlaceAfterInspection(
    b: Broker, x: nat, inputBytes: Option<nat>, leaseId: string, wellFormed: bool, now: int, config: Config, e: nat)
    requires x in b.leasing && Placed(b, e)
    requires b.active.None? || !FinishLease(b, x, inputBytes, leaseId, wellFormed, now, config).1.Granted?
    ensures Placed(FinishLease(b, x, inputBytes, leaseId, wellFormed, now, config).0, e)
  {
    if e == x {
      assert e !in b.queue && e !in b.settling && e !in b.settled;
    }
  }

  lemma PlaceAfterCompletion(b: Broker, leaseId: string, completion: Option<Completion>, now: int, e: nat)
    requires Placed(b, e)
    ensures Placed(LeaveActive(b, leaseId, completion, now).0, e)
  {
    if IsActive(b, e) {
      assert e !in b.settling && e !in b.settled;
    }
  }

  lemma PlaceAfterLeaseExpiry(b: Broker, op: Op, config: Config, e: nat)
    requires op.ExpireLease? && Placed(b, e)
    ensures Placed(Step(b, op, config).0, e)
  {
    if IsActive(b, e) {
      assert e !in b.settling && e !in b.settled;
    }
  }

  lemma PlaceAfterSettling(b: Broker, x: nat, readable: bool, e: nat)
    requires Placed(b, e)
    ensures Placed(FinishSettling(b, x, readable).0, e)
  {
    var after := FinishSettling(b, x, readable).0;
    if x in b.settling {
      SettlingMoves(b, x, readable);
      assert after.queue == b.queue && after.leasing == b.leasing && after.active == b.active;
    }
  }

  lemma SettlingMoves(b: Broker, x: nat, readable: bool)
    requires x in b.settling
    ensures var after := FinishSettling(b, x, readable).0;
      && after.settling == b.settling - {x}
      && (forall e :: e in after.settled <==> e in b.settled || e == x)
      && after == b.(settling := after.settling, settled := after.settled)
  {
  }

  lemma PlaceAfterAdmissionExpiry(b: Broker, op: Op, config: Config, e: nat)
    requires op.ExpireQueued? && Placed(b, e) && Ordered(b.queue)
    ensures Placed(Step(b, op, config).0, e)
  {
    WithoutIndexRemoves(b.queue, op.execution);
    if e in b.queue {
      assert e !in b.settled;
    }
  }

  lemma PlaceAfterClose(b: Broker, config: Config, e: nat)
    requires Placed(b, e)
    ensures Placed(Step(b, Close, config).0, e)
  {
    if e in b.queue {
      assert e !in b.settled && !IsActive(b, e) && e !in b.settling;
    } else if IsActive(b, e) {
      assert e !in b.settled && e !in b.settling;
    }
  }

  /** An operation that does not grant over an active lease leaves each execution in one place. */
  lemma OnePlaceAfterStep(b: Broker, op: Op, config: Config, e: nat)
    requires Placed(b, e) && Ordered(b.queue) && !GrantsOverActive(b, op)
    ensures Placed(Step(b, op, config).0, e)
  {
    match op
    case Execute(_, _) => PlaceAfterExecute(b, op, config, e);
    case BeginLease(_) => PlaceAfterShift(b, op, config, e);
    case EndLease(_, _, _, _, _) => PlaceAfterGrant(b, op, config, e);
    case BeginComplete(leaseId, completion, now) => PlaceAfterCompletion(b, leaseId, completion, now, e);
    case ExpireLease(_) => PlaceAfterLeaseExpiry(b, op, config, e);
    case EndSettling(x, readable) => PlaceAfterSettling(b, x, readable, e);
    case ExpireQueued(_) => PlaceAfterAdmissionExpiry(b, op, config, e);
    case Close => PlaceAfterClose(b, config, e);
    case _ => PlaceAfterOthers(b, op, config, e);
  }

  lemma PlaceAfterOthers(b: Broker, op: Op, config: Config, e: nat)
    requires op.Heartbeat? || op.BeginStage? || op.EndStage?
    requires Placed(b, e)
    ensures Placed(Step(b, op, config).0, e)
  {
    OthersMoveNothing(b, op, config, e);
  }

  lemma OthersMoveNothing(b: Broker, op: Op, config: Config, e: nat)
    requires op.Heartbeat? || op.BeginStage? || op.EndStage?
    ensures var after := Step(b, op, config).0;
      && after.accepted == b.accepted && after.queue == b.queue && after.leasing == b.leasing
      && after.settling == b.settling && after.settled == b.settled && IsActive(after, e) == IsActive(b, e)
  {
  }

  lemma ServedAfterExecute(b: Broker, op: Op, config: Config)
    requires op.Execute? && Served(b) && EachInOnePlace(b)
    ensures Served(Step(b, op, config).0)
  {
    QueueIsAccepted(b);
    AppendKeepsOrder(b.queue, b.accepted);
  }

  lemma ServedAfterShift(b: Broker, op: Op, config: Config)
    requires op.BeginLease? && Served(b) && EachInOnePlace(b)
    ensures Served(Step(b, op, config).0)
  {
    if b.queue != [] {
      var head := b.queue[0];
      assert head in b.queue;
      QueueIsAccepted(b);
      HeadLeaves(b.queue);
      AppendKeepsOrder(b.taken, head);
      assert forall t :: t in b.taken + [head] <==> t in b.taken || t == head;
    }
  }

  lemma ServedAfterAdmissionExpiry(b: Broker, op: Op, config: Config)
    requires op.ExpireQueued? && Served(b)
    ensures Served(Step(b, op, config).0)
  {
    WithoutIndexRemoves(b.queue, op.execution);
  }

  ghost predicate KeepsOrder(b: Broker, after: Broker) {
    after.accepted == b.accepted && after.taken == b.taken && (after.queue == b.queue || after.queue == [])
  }

  lemma InspectionKeepsOrder(
    b: Broker, x: nat, inputBytes: Option<nat>, leaseId: string, wellFormed: bool, now: int, config: Config)
    ensures KeepsOrder(b, FinishLease(b, x, inputBytes, leaseId, wellFormed, now, config).0)
  {
  }

  lemma CompletionKeepsOrder(b: Broker, leaseId: string, completion: Option<Completion>, now: int)
    ensures KeepsOrder(b, LeaveActive(b, leaseId, completion, now).0)
  {
  }

  lemma OnlyThreeTouchTheQueue(b: Broker, op: Op, config: Config)
    requires !op.Execute? && !op.BeginLease? && !op.ExpireQueued?
    ensures KeepsOrder(b, Step(b, op, config).0)
  {
    match op
    case EndLease(x, inputBytes, leaseId, wellFormed, now) =>
      InspectionKeepsOrder(b, x, inputBytes, leaseId, wellFormed, now, config);
    case BeginComplete(leaseId, completion, now) => CompletionKeepsOrder(b, leaseId, completion, now);
    case EndSettling(x, readable) =>
      if x in b.settling {
        SettlingMoves(b, x, readable);
      }
    case _ =>
  }

  lemma ServedAfterStep(b: Broker, op: Op, config: Config)
    requires Served(b) && EachInOnePlace(b)
    ensures Served(Step(b, op, config).0)
  {
    match op
    case Execute(_, _) => ServedAfterExecute(b, op, config);
    case BeginLease(_) => ServedAfterShift(b, op, config);
    case ExpireQueued(_) => ServedAfterAdmissionExpiry(b, op, config);
    case _ => OnlyThreeTouchTheQueue(b, op, config);
  }

  lemma OneLeaseAfterStep(b: Broker, op: Op, config: Config)
    requires OneLeaseAtATime(b) && Allowed(b, op)
    ensures OneLeaseAtATime(Step(b, op, config).0)
  {
  }

  lemma ClosedAfterStep(b: Broker, op: Op, config: Config)
    requires b.closed ==> b.queue == []
    ensures Step(b, op, config).0.closed ==> Step(b, op, config).0.queue == []
  {
  }

  /** Ownership survives because a fresh lease identifier overwrites no earlier grant. */
  lemma GrantsAreKept(b: Broker, op: Op, config: Config, leaseId: string)
    requires Allowed(b, op) && leaseId in b.issued
    ensures leaseId in Step(b, op, config).0.issued && Step(b, op, config).0.issued[leaseId] == b.issued[leaseId]
  {
  }

  lemma OwnOutputIsKept(b: Broker, op: Op, config: Config, e: nat, leaseId: string, output: Staged)
    requires Allowed(b, op) && OwnOutput(b, e, leaseId, output, config)
    ensures OwnOutput(Step(b, op, config).0, e, leaseId, output, config)
  {
    GrantsAreKept(b, op, config, leaseId);
  }

  lemma ActiveOwnsAfterInspection(
    b: Broker, x: nat, inputBytes: Option<nat>, leaseId: string, wellFormed: bool, now: int, config: Config)
    requires ActiveOwns(b, config) && leaseId !in b.issued
    ensures ActiveOwns(FinishLease(b, x, inputBytes, leaseId, wellFormed, now, config).0, config)
  {
  }

  lemma ActiveOwnsAfterStaging(b: Broker, op: Op, config: Config)
    requires op.EndStage? && ActiveOwns(b, config)
    requires op.leaseId in b.staging ==> b.staging[op.leaseId].leaseId == op.leaseId
    ensures ActiveOwns(Step(b, op, config).0, config)
  {
  }

  /** Every other operation grants nothing and leaves the active lease as it is, or ends it. */
  lemma OthersEndTheActive(b: Broker, op: Op, config: Config)
    requires !op.EndLease? && !op.EndStage? && !op.BeginComplete?
    ensures var after := Step(b, op, config).0;
      after.issued == b.issued && (after.active == b.active || after.active.None?)
  {
  }

  lemma CompletionEndsTheActive(b: Broker, leaseId: string, completion: Option<Completion>, now: int)
    ensures var after := LeaveActive(b, leaseId, completion, now).0;
      after.issued == b.issued && (after.active == b.active || after.active.None?)
  {
  }

  lemma ActiveOwnsAfterStep(b: Broker, op: Op, config: Config)
    requires ActiveOwns(b, config) && Allowed(b, op)
    requires forall k :: k in b.staging ==> b.staging[k].leaseId == k
    ensures ActiveOwns(Step(b, op, config).0, config)
  {
    match op
    case EndLease(x, inputBytes, leaseId, wellFormed, now) =>
      ActiveOwnsAfterInspection(b, x, inputBytes, leaseId, wellFormed, now, config);
    case EndStage(_, _, _) => ActiveOwnsAfterStaging(b, op, config);
    case BeginComplete(leaseId, completion, now) => CompletionEndsTheActive(b, leaseId, completion, now);
    case _ => OthersEndTheActive(b, op, config);
  }

  lemma StagingAfterStep(b: Broker, op: Op, config: Config, k: string)
    requires k in b.staging ==> b.staging[k].leaseId == k
    ensures var after := Step(b, op, config).0; k in after.staging ==> after.staging[k].leaseId == k
  {
  }

  lemma CompletionReadsTheActive(b: Broker, leaseId: string, completion: Option<Completion>, now: int, e: nat)
    ensures var after := LeaveActive(b, leaseId, completion, now).0;
      e in after.settling && after.settling[e].Reading? ==>
        || (e in b.settling && b.settling[e] == after.settling[e])
        || (IsActive(b, e) && b.active.value.leaseId == after.settling[e].leaseId
            && b.active.value.staged == Some(after.settling[e].staged))
  {
  }

  lemma OthersReadNothing(b: Broker, op: Op, config: Config, e: nat)
    requires !op.BeginComplete? && !op.EndSettling?
    ensures var after := Step(b, op, config).0;
      e in after.settling && after.settling[e].Reading? ==> e in b.settling && b.settling[e] == after.settling[e]
  {
  }

  /** An execution about to resolve was about to before, or just left `active` with its output. */
  lemma ReadingCameFromActive(b: Broker, op: Op, config: Config, e: nat)
    requires e in Step(b, op, config).0.settling && Step(b, op, config).0.settling[e].Reading?
    ensures var ending := Step(b, op, config).0.settling[e];
      || (e in b.settling && b.settling[e] == ending)
      || (IsActive(b, e) && b.active.value.leaseId == ending.leaseId && b.active.value.staged == Some(ending.staged))
  {
    match op
    case BeginComplete(leaseId, completion, now) => CompletionReadsTheActive(b, leaseId, completion, now, e);
    case EndSettling(x, readable) =>
      if x in b.settling {
        SettlingMoves(b, x, readable);
      }
    case _ => OthersReadNothing(b, op, config, e);
  }

  lemma ReadingAfterStep(b: Broker, op: Op, config: Config, e: nat)
    requires ActiveOwns(b, config) && Allowed(b, op)
    requires e in b.settling && b.settling[e].Reading? ==>
      OwnOutput(b, e, b.settling[e].leaseId, b.settling[e].staged, config)
    requires e in Step(b, op, config).0.settling && Step(b, op, config).0.settling[e].Reading?
    ensures var after := Step(b, op, config).0;
      OwnOutput(after, e, after.settling[e].leaseId, after.settling[e].staged, config)
  {
    var ending := Step(b, op, config).0.settling[e];
    ReadingCameFromActive(b, op, config, e);
    OwnOutputIsKept(b, op, config, e, ending.leaseId, ending.staged);
  }

  lemma ResolvedCameFromReading(b: Broker, op: Op, config: Config, e: nat)
    requires e in Step(b, op, config).0.settled && Step(b, op, config).0.settled[e].Resolved?
    ensures var outcome := Step(b, op, config).0.settled[e];
      || (e in b.settled && b.settled[e] == outcome)
      || (e in b.settling && b.settling[e] == Reading(outcome.leaseId, outcome.output))
  {
    if !op.EndSettling? {
      OnlySettlingResolves(b, op, config, e);
    }
  }

  lemma OnlySettlingResolves(b: Broker, op: Op, config: Config, e: nat)
    requires !op.EndSettling?
    requires e in Step(b, op, config).0.settled && Step(b, op, config).0.settled[e].Resolved?
    ensures e in b.settled && b.settled[e] == Step(b, op, config).0.settled[e]
  {
    match op
    case EndLease(x, inputBytes, leaseId, wellFormed, now) =>
      InspectionResolvesNothing(b, x, inputBytes, leaseId, wellFormed, now, config, e);
    case BeginComplete(leaseId, completion, now) => CompletionResolvesNothing(b, leaseId, completion, now, e);
    case _ => RefusingResolvesNothing(b, op, config, e);
  }

  lemma InspectionResolvesNothing(
    b: Broker, x: nat, inputBytes: Option<nat>, leaseId: string, wellFormed: bool, now: int, config: Config, e: nat)
    ensures var after := FinishLease(b, x, inputBytes, leaseId, wellFormed, now, config).0;
      e in after.settled && after.settled[e].Resolved? ==> e in b.settled && b.settled[e] == after.settled[e]
  {
  }

  lemma CompletionResolvesNothing(b: Broker, leaseId: string, completion: Option<Completion>, now: int, e: nat)
    ensures var after := LeaveActive(b, leaseId, completion, now).0;
      e in after.settled && after.settled[e].Resolved? ==> e in b.settled && b.settled[e] == after.settled[e]
  {
  }

  lemma RefusingResolvesNothing(b: Broker, op: Op, config: Config, e: nat)
    requires !op.EndSettling? && !op.EndLease? && !op.BeginComplete?
    ensures var after := Step(b, op, config).0;
      e in after.settled && after.settled[e].Resolved? ==> e in b.settled && b.settled[e] == after.settled[e]
  {
  }

  lemma ResolvedAfterStep(b: Broker, op: Op, config: Config, e: nat)
    requires OutputsOwned(b, config) && Allowed(b, op)
    requires e in Step(b, op, config).0.settled && Step(b, op, config).0.settled[e].Resolved?
    ensures var after := Step(b, op, config).0;
      OwnOutput(after, e, after.settled[e].leaseId, after.settled[e].output, config)
  {
    var outcome := Step(b, op, config).0.settled[e];
    ResolvedCameFromReading(b, op, config, e);
    OwnOutputIsKept(b, op, config, e, outcome.leaseId, outcome.output);
  }

  lemma OutputsOwnedAfterStep(b: Broker, op: Op, config: Config)
    requires OutputsOwned(b, config) && Allowed(b, op)
    ensures OutputsOwned(Step(b, op, config).0, config)
  {
    var after := Step(b, op, config).0;
    ActiveOwnsAfterStep(b, op, config);
    forall k | k in after.staging
      ensures after.staging[k].leaseId == k
    {
      StagingAfterStep(b, op, config, k);
    }
    forall e | e in after.settling && after.settling[e].Reading?
      ensures OwnOutput(after, e, after.settling[e].leaseId, after.settling[e].staged, config)
    {
      ReadingAfterStep(b, op, config, e);
    }
    forall e | e in after.settled && after.settled[e].Resolved?
      ensures OwnOutput(after, e, after.settled[e].leaseId, after.settled[e].output, config)
    {
      ResolvedAfterStep(b, op, config, e);
    }
  }

  lemma InvariantAfterStep(b: Broker, op: Op, config: Config)
    requires Invariant(b, config) && Allowed(b, op)
    ensures Invariant(Step(b, op, config).0, config)
  {
    assert !GrantsOverActive(b, op);
    forall e: nat
      ensures Placed(Step(b, op, config).0, e)
    {
      assert Placed(b, e);
      OnePlaceAfterStep(b, op, config, e);
    }
    ServedAfterStep(b, op, config);
    OneLeaseAfterStep(b, op, config);
    OutputsOwnedAfterStep(b, op, config);
    ClosedAfterStep(b, op, config);
  }

  /** What a settled execution was told is never replaced. */
  lemma SettledIsKept(b: Broker, op: Op, config: Config, e: nat)
    requires Placed(b, e) && OneLeaseAtATime(b) && e in b.settled
    ensures e in Step(b, op, config).0.settled && Step(b, op, config).0.settled[e] == b.settled[e]
  {
    assert e !in b.queue && e !in b.leasing && !IsActive(b, e) && e !in b.settling;
    match op
    case EndLease(x, inputBytes, leaseId, wellFormed, now) =>
      InspectionKeepsSettled(b, x, inputBytes, leaseId, wellFormed, now, config, e);
    case BeginComplete(leaseId, completion, now) => CompletionKeepsSettled(b, leaseId, completion, now, e);
    case _ => OthersKeepSettled(b, op, config, e);
  }

  ghost predicate SameOutcome(b: Broker, after: Broker, e: nat) {
    e in b.settled && e in after.settled && after.settled[e] == b.settled[e]
  }

  lemma InspectionKeepsSettled(
    b: Broker, x: nat, inputBytes: Option<nat>, leaseId: string, wellFormed: bool, now: int, config: Config, e: nat)
    requires e in b.settled && e !in b.leasing
    ensures SameOutcome(b, FinishLease(b, x, inputBytes, leaseId, wellFormed, now, config).0, e)
  {
  }

  lemma CompletionKeepsSettled(b: Broker, leaseId: string, completion: Option<Completion>, now: int, e: nat)
    requires e in b.settled && !IsActive(b, e)
    ensures SameOutcome(b, LeaveActive(b, leaseId, completion, now).0, e)
  {
  }

  lemma OthersKeepSettled(b: Broker, op: Op, config: Config, e: nat)
    requires !op.EndLease? && !op.BeginComplete?
    requires e in b.settled && e !in b.queue && e !in b.settling
    ensures SameOutcome(b, Step(b, op, config).0, e)
  {
  }

  // ----- Whole runs -----------------------------------------------------------------------

  lemma {:induction false} EveryRunKeepsTheInvariant(h: History, config: Config)
    requires Disciplined(h, config)
    ensures Invariant(After(h, config), config)
  {
    if h.Then? {
      EveryRunKeepsTheInvariant(h.before, config);
      InvariantAfterStep(After(h.before, config), h.op, config);
    }
  }

  /** Every execution the broker accepted is in exactly one of its places; nothing else is in any. */
  lemma EachExecutionIsInExactlyOnePlace(h: History, config: Config, e: nat)
    requires Disciplined(h, config)
    ensures var b := After(h, config); Places(b, e) == if e < b.accepted then 1 else 0
  {
    EveryRunKeepsTheInvariant(h, config);
    assert Placed(After(h, config), e);
  }

  lemma {:induction false} SettlesAtMostOnce(earlier: History, later: History, config: Config, e: nat)
    requires Disciplined(later, config) && Extends(later, earlier)
    requires e in After(earlier, config).settled
    ensures e in After(later, config).settled
    ensures After(later, config).settled[e] == After(earlier, config).settled[e]
  {
    if later != earlier {
      SettlesAtMostOnce(earlier, later.before, config, e);
      EveryRunKeepsTheInvariant(later.before, config);
      assert Placed(After(later.before, config), e);
      SettledIsKept(After(later.before, config), later.op, config, e);
    }
  }

  /** Executions are shifted off the queue in the order in which they were accepted; one that was
      overtaken was not skipped but had been rejected while it waited. */
  lemma LeasedInOrderOfAcceptance(h: History, config: Config, first: nat, second: nat)
    requires Disciplined(h, config)
    requires first < second < |After(h, config).taken|
    ensures var b := After(h, config); b.taken[first] < b.taken[second]
  {
    EveryRunKeepsTheInvariant(h, config);
  }

  lemma {:induction false} EveryPlaceBeyondTheQueueWasTaken(h: History, config: Config, e: nat)
    requires Disciplined(h, config)
    requires var b := After(h, config); e in b.leasing || IsActive(b, e) || e in b.settling
    ensures e in After(h, config).taken
  {
    if h.Then? {
      var b := After(h.before, config);
      EveryRunKeepsTheInvariant(h.before, config);
      if e in b.leasing || IsActive(b, e) || e in b.settling {
        EveryPlaceBeyondTheQueueWasTaken(h.before, config, e);
      }
      TakenAfterStep(b, h.op, config, e);
    }
  }

  lemma TakenAfterStep(b: Broker, op: Op, config: Config, e: nat)
    requires var after := Step(b, op, config).0; e in after.leasing || IsActive(after, e) || e in after.settling
    requires e in b.leasing || IsActive(b, e) || e in b.settling ==> e in b.taken
    ensures e in Step(b, op, config).0.taken
  {
    if op.BeginLease? {
      TakenAfterShift(b, op, config, e);
    } else {
      OnlyShiftingTakes(b, op, config, e);
    }
  }

  lemma TakenAfterShift(b: Broker, op: Op, config: Config, e: nat)
    requires op.BeginLease?
    requires var after := Step(b, op, config).0; e in after.leasing || IsActive(after, e) || e in after.settling
    requires e in b.leasing || IsActive(b, e) || e in b.settling ==> e in b.taken
    ensures e in Step(b, op, config).0.taken
  {
  }

  lemma OnlyShiftingTakes(b: Broker, op: Op, config: Config, e: nat)
    requires !op.BeginLease?
    requires var after := Step(b, op, config).0; e in after.leasing || IsActive(after, e) || e in after.settling
    ensures e in b.leasing || IsActive(b, e) || e in b.settling
    ensures Step(b, op, config).0.taken == b.taken
  {
    var after := Step(b, op, config).0;
    if e in after.leasing {
      LeasingShrinks(b, op, config, e);
    } else if IsActive(after, e) {
      ActiveCameFromLeasing(b, op, config, e);
    } else {
      SettlingCameFromActive(b, op, config, e);
    }
  }

  lemma LeasingShrinks(b: Broker, op: Op, config: Config, e: nat)
    requires !op.BeginLease? && e in Step(b, op, config).0.leasing
    ensures e in b.leasing && Step(b, op, config).0.taken == b.taken
  {
    match op
    case EndLease(x, inputBytes, leaseId, wellFormed, now) =>
      InspectionEndsLeasing(b, x, inputBytes, leaseId, wellFormed, now, config);
    case BeginComplete(leaseId, completion, now) => CompletionKeepsLeasing(b, leaseId, completion, now);
    case _ => OthersKeepLeasing(b, op, config);
  }

  lemma InspectionEndsLeasing(
    b: Broker, x: nat, inputBytes: Option<nat>, leaseId: string, wellFormed: bool, now: int, config: Config)
    ensures var after := FinishLease(b, x, inputBytes, leaseId, wellFormed, now, config).0;
      after.leasing <= b.leasing && after.taken == b.taken
  {
  }

  lemma CompletionKeepsLeasing(b: Broker, leaseId: string, completion: Option<Completion>, now: int)
    ensures var after := LeaveActive(b, leaseId, completion, now).0;
      after.leasing == b.leasing && after.taken == b.taken
  {
  }

  lemma OthersKeepLeasing(b: Broker, op: Op, config: Config)
    requires !op.BeginLease? && !op.EndLease? && !op.BeginComplete?
    ensures var after := Step(b, op, config).0; after.leasing == b.leasing && after.taken == b.taken
  {
  }

  lemma InspectionActivatesTheLeasing(
    b: Broker, x: nat, inputBytes: Option<nat>, leaseId: string, wellFormed: bool, now: int, config: Config, e: nat)
    ensures var after := FinishLease(b, x, inputBytes, leaseId, wellFormed, now, config).0;
      (IsActive(after, e) ==> e in b.leasing || IsActive(b, e)) && after.taken == b.taken
  {
  }

  lemma OthersActivateNothing(b: Broker, op: Op, config: Config, e: nat)
    requires !op.BeginLease? && !op.EndLease?
    ensures var after := Step(b, op, config).0; (IsActive(after, e) ==> IsActive(b, e)) && after.taken == b.taken
  {
    if op.BeginComplete? {
      CompletionEndsTheActive(b, op.leaseId, op.completion, op.now);
      CompletionKeepsOrder(b, op.leaseId, op.completion, op.now);
    }
  }

  lemma ActiveCameFromLeasing(b: Broker, op: Op, config: Config, e: nat)
    requires !op.BeginLease? && IsActive(Step(b, op, config).0, e)
    ensures (e in b.leasing || IsActive(b, e)) && Step(b, op, config).0.taken == b.taken
  {
    if op.EndLease? {
      InspectionActivatesTheLeasing(b, op.execution, op.inputBytes, op.leaseId, op.wellFormed, op.now, config, e);
    } else {
      OthersActivateNothing(b, op, config, e);
    }
  }

  lemma SettlingCameFromActive(b: Broker, op: Op, config: Config, e: nat)
    requires !op.BeginLease? && e in Step(b, op, config).0.settling
    ensures (IsActive(b, e) || e in b.settling) && Step(b, op, config).0.taken == b.taken
  {
    match op
    case BeginComplete(leaseId, completion, now) => CompletionSettlesTheActive(b, leaseId, completion, now, e);
    case EndSettling(x, readable) => SettlingEnds(b, x, readable, e);
    case _ => ExpirySettlesTheActive(b, op, config, e);
  }

  lemma CompletionSettlesTheActive(b: Broker, leaseId: string, completion: Option<Completion>, now: int, e: nat)
    ensures var after := LeaveActive(b, leaseId, completion, now).0;
      (e in after.settling ==> IsActive(b, e) || e in b.settling) && after.taken == b.taken
  {
  }

  lemma SettlingEnds(b: Broker, x: nat, readable: bool, e: nat)
    ensures var after := FinishSettling(b, x, readable).0;
      (e in after.settling ==> e in b.settling) && after.taken == b.taken
  {
    if x in b.settling {
      SettlingMoves(b, x, readable);
    }
  }

  lemma ExpirySettlesTheActive(b: Broker, op: Op, config: Config, e: nat)
    requires !op.BeginLease? && !op.BeginComplete? && !op.EndSettling?
    ensures var after := Step(b, op, config).0;
      (e in after.settling ==> IsActive(b, e) || e in b.settling) && after.taken == b.taken
  {
  }

  lemma AnOvertakenExecutionIsSettled(h: History, config: Config, e: nat, t: nat)
    requires Disciplined(h, config)
    requires t in After(h, config).taken && e < t && e !in After(h, config).taken
    ensures e in After(h, config).settled
  {
    var b := After(h, config);
    EveryRunKeepsTheInvariant(h, config);
    assert Placed(b, e) && e !in b.queue;
    if e !in b.settled {
      EveryPlaceBeyondTheQueueWasTaken(h, config, e);
    }
  }

  /** A caller is handed a result only if it was staged under a lease granted for that caller's own
      execution, with the length and the hash declared for it. */
  lemma ResolvesOnlyWithItsOwnOutput(h: History, config: Config, e: nat)
    requires Disciplined(h, config)
    requires e in After(h, config).settled && After(h, config).settled[e].Resolved?
    ensures var b := After(h, config);
      && b.settled[e].leaseId in b.issued && b.issued[b.settled[e].leaseId] == e
      && b.settled[e].output.metadata.leaseId == b.settled[e].leaseId
      && |b.settled[e].output.bytes| == b.settled[e].output.metadata.byteLength <= MAX_OUTPUT_BYTES
      && config.sha256(b.settled[e].output.bytes) == b.settled[e].output.metadata.outputSha256
  {
    EveryRunKeepsTheInvariant(h, config);
  }

  // ----- What the discipline is for -------------------------------------------------------

  /** With several input files being inspected at once, finishing one keeps every execution in one
      place exactly when it cannot be leased or none is leased: granting overwrites `active`. */
  lemma GrantKeepsPlacesExactlyWhenIdle(b: Broker, op: Op, config: Config)
    requires EachInOnePlace(b) && op.EndLease? && op.execution in b.leasing
    ensures EachInOnePlace(Step(b, op, config).0) <==> b.active.None? || !Leasable(op)
  {
    if GrantsOverActive(b, op) {
      var lost := OverwrittenIsLost(b, op, config);
      assert !Placed(Step(b, op, config).0, lost);
    } else {
      PlacesAfterStep(b, op, config);
    }
  }

  lemma PlacesAfterStep(b: Broker, op: Op, config: Config)
    requires EachInOnePlace(b) && !GrantsOverActive(b, op) && (op.EndLease? || Ordered(b.queue))
    ensures EachInOnePlace(Step(b, op, config).0)
  {
    forall e: nat
      ensures Placed(Step(b, op, config).0, e)
    {
      assert Placed(b, e);
      if op.EndLease? {
        PlaceAfterGrant(b, op, config, e);
      } else {
        OnePlaceAfterStep(b, op, config, e);
      }
    }
  }

  // ----- Lost executions, over every history ----------------------------------------------

  /** The execution was accepted and is in no place. */
  predicate Lost(b: Broker, e: nat) {
    e < b.accepted && Places(b, e) == 0
  }

  lemma OverwrittenIsLost(b: Broker, op: Op, config: Config) returns (lost: nat)
    requires EachInOnePlace(b) && GrantsOverActive(b, op)
    ensures Lost(Step(b, op, config).0, lost)
  {
    lost := b.active.value.execution;
    assert Placed(b, lost) && Placed(b, op.execution);
  }

  /** Every grant of the history found no active lease. */
  predicate NeverOverlaps(h: History, config: Config) {
    h.Then? ==> NeverOverlaps(h.before, config) && !GrantsOverActive(After(h.before, config), h.op)
  }

  /** Nothing that waits was accepted late or twice; this needs no discipline. */
  ghost predicate QueueOk(b: Broker) {
    Ordered(b.queue) && forall w :: w in b.queue ==> w < b.accepted
  }

  lemma QueueOkAfterStep(b: Broker, op: Op, config: Config)
    requires QueueOk(b)
    ensures QueueOk(Step(b, op, config).0)
  {
    match op
    case Execute(_, _) => AppendKeepsOrder(b.queue, b.accepted);
    case BeginLease(_) =>
      if b.queue != [] {
        HeadLeaves(b.queue);
      }
    case ExpireQueued(e) => WithoutIndexRemoves(b.queue, e);
    case _ => OnlyThreeTouchTheQueue(b, op, config);
  }

  lemma {:induction false} QueueIsAlwaysOk(h: History, config: Config)
    ensures QueueOk(After(h, config))
  {
    if h.Then? {
      QueueIsAlwaysOk(h.before, config);
      QueueOkAfterStep(After(h.before, config), h.op, config);
    }
  }

  lemma LostAfterInspection(b: Broker, x: nat, inputBytes: Option<nat>, leaseId: string, wellFormed: bool, now: int,
                            config: Config, e: nat)
    requires Lost(b, e)
    ensures Lost(FinishLease(b, x, inputBytes, leaseId, wellFormed, now, config).0, e)
  {
  }

  lemma LostAfterCompletion(b: Broker, leaseId: string, completion: Option<Completion>, now: int, e: nat)
    requires Lost(b, e)
    ensures Lost(LeaveActive(b, leaseId, completion, now).0, e)
  {
  }

  lemma LostAfterSettling(b: Broker, x: nat, readable: bool, e: nat)
    requires Lost(b, e)
    ensures Lost(FinishSettling(b, x, readable).0, e)
  {
    if x in b.settling {
      SettlingMoves(b, x, readable);
    }
  }

  lemma LostAfterQueueing(b: Broker, op: Op, config: Config, e: nat)
    requires op.Execute? || op.BeginLease? || op.ExpireQueued?
    requires Lost(b, e) && QueueOk(b)
    ensures Lost(Step(b, op, config).0, e)
  {
    if op.BeginLease? && b.queue != [] {
      HeadLeaves(b.queue);
      assert b.queue[0] in b.queue;
    } else if op.ExpireQueued? {
      WithoutIndexRemoves(b.queue, op.execution);
    }
  }

  lemma LostAfterOthers(b: Broker, op: Op, config: Config, e: nat)
    requires op.Heartbeat? || op.BeginStage? || op.EndStage? || op.ExpireLease? || op.Close?
    requires Lost(b, e)
    ensures Lost(Step(b, op, config).0, e)
  {
  }

  lemma LostAfterStep(b: Broker, op: Op, config: Config, e: nat)
    requires Lost(b, e) && QueueOk(b)
    ensures Lost(Step(b, op, config).0, e)
  {
    match op
    case EndLease(x, inputBytes, leaseId, wellFormed, now) =>
      LostAfterInspection(b, x, inputBytes, leaseId, wellFormed, now, config, e);
    case BeginComplete(leaseId, completion, now) => LostAfterCompletion(b, leaseId, completion, now, e);
    case EndSettling(x, readable) => LostAfterSettling(b, x, readable, e);
    case Execute(_, _) => LostAfterQueueing(b, op, config, e);
    case BeginLease(_) => LostAfterQueueing(b, op, config, e);
    case ExpireQueued(_) => LostAfterQueueing(b, op, config, e);
    case _ => LostAfterOthers(b, op, config, e);
  }

  /** What is lost stays lost, so its caller is never told anything. */
  lemma {:induction false} LostForGood(earlier: History, later: History, config: Config, e: nat)
    requires Extends(later, earlier) && Lost(After(earlier, config), e)
    ensures Lost(After(later, config), e) && e !in After(later, config).settled
  {
    if later != earlier {
      LostForGood(earlier, later.before, config, e);
      QueueIsAlwaysOk(later.before, config);
      LostAfterStep(After(later.before, config), later.op, config, e);
    }
  }

  lemma {:induction false} OverlapLoses(h: History, config: Config) returns (lost: nat)
    requires !NeverOverlaps(h, config)
    ensures Lost(After(h, config), lost)
  {
    var b := After(h.before, config);
    if NeverOverlaps(h.before, config) {
      NoOverlapKeepsPlaces(h.before, config);
      lost := OverwrittenIsLost(b, h.op, config);
    } else {
      lost := OverlapLoses(h.before, config);
      QueueIsAlwaysOk(h.before, config);
      LostAfterStep(b, h.op, config, lost);
    }
  }

  lemma {:induction false} NoOverlapKeepsPlaces(h: History, config: Config)
    requires NeverOverlaps(h, config)
    ensures EachInOnePlace(After(h, config))
  {
    if h.Then? {
      NoOverlapKeepsPlaces(h.before, config);
      QueueIsAlwaysOk(h.before, config);
      PlacesAfterStep(After(h.before, config), h.op, config);
    }
  }

  /** Over every history, whoever calls what and when: each accepted execution is in exactly one place,
      and none is lost, if and only if every grant found no active lease. */
  lemma InOnePlaceExactlyWithoutOverlap(h: History, config: Config)
    ensures EachInOnePlace(After(h, config)) <==> NeverOverlaps(h, config)
    ensures (exists e :: Lost(After(h, config), e)) <==> !NeverOverlaps(h, config)
  {
    if NeverOverlaps(h, config) {
      NoOverlapKeepsPlaces(h, config);
      forall e
        ensures !Lost(After(h, config), e)
      {
        assert Placed(After(h, config), e);
      }
    } else {
      var lost := OverlapLoses(h, config);
      assert !Placed(After(h, config), lost);
    }
  }

  /** Two `lease` calls that overlap are enough: the first execution is then in no place at all, and in
      no continuation is its caller ever told anything. */
  lemma OverlappingLeasesLoseAnExecution(config: Config, now: int) returns (h: History)
    ensures !Disciplined(h, config) && forall later :: Extends(later, h) ==> 0 !in After(later, config).settled
    ensures After(h, config).accepted == 2 && Places(After(h, config), 0) == 0 && IsActive(After(h, config), 1)
  {
    var beaten := Then(Start, Heartbeat(true, now));
    var one := Then(beaten, Execute(true, now));
    var two := Then(one, Execute(true, now));
    var shifted := Then(two, BeginLease(now));
    var overlapping := Then(shifted, BeginLease(now));
    var granted := Then(overlapping, EndLease(0, Some(1), "a", true, now));
    h := Then(granted, EndLease(1, Some(1), "b", true, now));
    assert After(beaten, config) == EMPTY.(heartbeatAt := Some(now)) by {
      assert After(Start, config) == EMPTY;
    }
    assert After(two, config).queue == [0, 1];
    assert After(shifted, config).leasing == {0};
    assert !Disciplined(overlapping, config);
    assert !Disciplined(granted, config);
    assert After(overlapping, config).leasing == {0, 1} && After(overlapping, config).queue == [];
    assert IsActive(After(granted, config), 0) && After(granted, config).leasing == {1};
    forall later | Extends(later, h)
      ensures 0 !in After(later, config).settled
    {
      LostForGood(h, later, config, 0);
    }
  }

  // ----- A closed broker ------------------------------------------------------------------

  ghost predicate ClosedForGood(b: Broker) {
    b.closed && b.active.None? && b.leasing == {}
  }

  lemma ClosedForGoodAfterStep(b: Broker, op: Op, config: Config)
    requires ClosedForGood(b)
    ensures ClosedForGood(Step(b, op, config).0)
  {
  }

  lemma {:induction false} StaysClosedForGood(earlier: History, later: History, config: Config)
    requires Extends(later, earlier) && ClosedForGood(After(earlier, config))
    ensures ClosedForGood(After(later, config))
  {
    if later != earlier {
      StaysClosedForGood(earlier, later.before, config);
      ClosedForGoodAfterStep(After(later.before, config), later.op, config);
    }
  }

  lemma {:induction false} LongerThanAll(keys: set<string>) returns (n: nat)
    ensures forall k :: k in keys ==> |k| < n
  {
    n := 0;
    if keys != {} {
      var x :| x in keys;
      n := LongerThanAll(keys - {x});
      n := if |x| < n then n else |x| + 1;
    }
  }

  lemma UnissuedLease(issued: map<string, nat>) returns (leaseId: string)
    ensures leaseId !in issued
  {
    var n := LongerThanAll(issued.Keys);
    leaseId := seq(n, i => 'a');
    assert |leaseId| == n;
  }

  ghost predicate Reactivates(h: History, later: History, config: Config) {
    Extends(later, h) && Disciplined(later, config) && After(later, config).active.Some?
  }

  /** From a closed broker without an active lease some later state has an active lease again if and
      only if a `lease` was still inspecting its input file when the broker closed. */
  lemma InspectionOutlivesClose(h: History, config: Config)
    requires Disciplined(h, config) && After(h, config).closed && After(h, config).active.None?
    ensures (exists later :: Reactivates(h, later, config)) <==> After(h, config).leasing != {}
  {
    var b := After(h, config);
    if b.leasing == {} {
      forall later
        ensures !Reactivates(h, later, config)
      {
        if Extends(later, h) {
          StaysClosedForGood(h, later, config);
        }
      }
    } else {
      var e :| e in b.leasing;
      var leaseId := UnissuedLease(b.issued);
      var later := Then(h, EndLease(e, Some(1), leaseId, true, 0));
      assert Extends(later.before, h);
      assert Reactivates(h, later, config);
    }
  }

  /** Five calls reach a closed broker with an active lease. */
  lemma AClosedBrokerWithAnActiveLeaseIsReachable(config: Config, now: int) returns (h: History)
    ensures Disciplined(h, config)
    ensures After(h, config).closed && IsActive(After(h, config), 0)
  {
    var beaten := Then(Start, Heartbeat(true, now));
    var one := Then(beaten, Execute(true, now));
    var shifted := Then(one, BeginLease(now));
    var shut := Then(shifted, Close);
    h := Then(shut, EndLease(0, Some(1), "a", true, now));
    assert After(beaten, config) == EMPTY.(heartbeatAt := Some(now)) by {
      assert After(Start, config) == EMPTY;
    }
    assert Disciplined(Start, config) && Disciplined(beaten, config);
    assert After(one, config).queue == [0];
    assert After(shifted, config).leasing == {0} && Disciplined(shifted, config);
    assert After(shut, config).closed && After(shut, config).leasing == {0} && After(shut, config).issued == map[];
    assert Disciplined(shut, config);
  }

  // ----- Admission ------------------------------------------------------------------------

  /** When the last valid heartbeat of the run was received by the open broker. */
  function LastHeartbeat(h: History): Option<int> {
    match h
    case Start => None
    case Then(before, op) =>
      if op.Heartbeat? && op.valid && !ClosedIn(before) then Some(op.now) else LastHeartbeat(before)
  }

  predicate ClosedIn(h: History) {
    h.Then? && (h.op.Close? || ClosedIn(h.before))
  }

  ghost predicate SameAliveness(b: Broker, after: Broker) {
    after.heartbeatAt == b.heartbeatAt && after.closed == b.closed
  }

  lemma InspectionKeepsAliveness(
    b: Broker, x: nat, inputBytes: Option<nat>, leaseId: string, wellFormed: bool, now: int, config: Config)
    ensures SameAliveness(b, FinishLease(b, x, inputBytes, leaseId, wellFormed, now, config).0)
  {
  }

  lemma CompletionKeepsAliveness(b: Broker, leaseId: string, completion: Option<Completion>, now: int)
    ensures SameAliveness(b, LeaveActive(b, leaseId, completion, now).0)
  {
  }

  lemma OthersKeepAliveness(b: Broker, op: Op, config: Config)
    requires !op.Heartbeat? && !op.Close? && !op.EndLease? && !op.BeginComplete?
    ensures SameAliveness(b, Step(b, op, config).0)
  {
  }

  lemma OnlyHeartbeatsBeat(b: Broker, op: Op, config: Config)
    ensures var after := Step(b, op, config).0;
      && after.heartbeatAt == (if op.Heartbeat? && op.valid && !b.closed then Some(op.now) else b.heartbeatAt)
      && after.closed == (b.closed || op.Close?)
  {
    match op
    case EndLease(x, inputBytes, leaseId, wellFormed, now) =>
      InspectionKeepsAliveness(b, x, inputBytes, leaseId, wellFormed, now, config);
    case BeginComplete(leaseId, completion, now) => CompletionKeepsAliveness(b, leaseId, completion, now);
    case Heartbeat(_, _) =>
    case Close =>
    case _ => OthersKeepAliveness(b, op, config);
  }

  lemma {:induction false} HeartbeatAndClosing(h: History, config: Config)
    ensures After(h, config).heartbeatAt == LastHeartbeat(h) && After(h, config).closed == ClosedIn(h)
  {
    if h.Then? {
      HeartbeatAndClosing(h.before, config);
      OnlyHeartbeatsBeat(After(h.before, config), h.op, config);
    }
  }

  /** In every run a valid request is accepted, and then waits last, if and only if the broker was never
      closed and the last valid heartbeat is no older than its lifetime; otherwise nothing changes. */
  lemma AcceptedExactlyWithinTheLastHeartbeat(h: History, config: Config, now: int)
    ensures var (after, reply) := Step(After(h, config), Execute(true, now), config);
      var alive := !ClosedIn(h) && LastHeartbeat(h).Some? && now - LastHeartbeat(h).value <= config.heartbeatTtlMs;
      && (reply.Accepted? <==> alive)
      && (alive ==> after.queue == After(h, config).queue + [After(h, config).accepted])
      && (!alive ==> after == After(h, config))
  {
    HeartbeatAndClosing(h, config);
  }
}
