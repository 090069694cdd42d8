/** What the broker replies to each call and what it tells each caller, from the calls and replies before it
    alone, and exactly which of them is the cause of a rejection. */
module IngestionTold {
  import opened Wrappers
  import opened IngestionBroker
  import opened IngestionBrokerRuns

  datatype Exchange = Exchange(op: Op, reply: Reply)

  function Exchanges(h: History, config: Config): seq<Exchange> {
    match h
    case Start => []
    case Then(before, op) => Exchanges(before, config) + [Exchange(op, Step(After(before, config), op, config).1)]
  }

  // ----- What the exchanges so far say ------------------------------------------------------

  function AcceptedIn(x: seq<Exchange>): nat {
    if x == [] then 0 else AcceptedIn(x[..|x| - 1]) + if x[|x| - 1].reply.Accepted? then 1 else 0
  }

  function ShutIn(x: seq<Exchange>): bool {
    x != [] && (x[|x| - 1].op.Close? || ShutIn(x[..|x| - 1]))
  }

  /** When the broker last accepted a heartbeat. */
  function HeartbeatIn(x: seq<Exchange>): Option<int> {
    if x == [] then None else
    var c := x[|x| - 1];
    if c.op.Heartbeat? && c.reply == Done then Some(c.op.now) else HeartbeatIn(x[..|x| - 1])
  }

  predicate AliveIn(x: seq<Exchange>, config: Config, now: int) {
    !ShutIn(x) && HeartbeatIn(x).Some? && now - HeartbeatIn(x).value <= config.heartbeatTtlMs
  }

  /** The accepted executions that nobody has taken, that have not expired, and that no close has refused. */
  function WaitingIn(x: seq<Exchange>): seq<nat> {
    if x == [] then [] else
    var before, c := WaitingIn(x[..|x| - 1]), x[|x| - 1];
    match c.op
    case Execute(_, _) => if c.reply.Accepted? then before + [c.reply.execution] else before
    case BeginLease(_) => if c.reply.Shifted? && before != [] then before[1..] else before
    case ExpireQueued(e) => WithoutIndex(before, e)
    case Close => []
    case _ => before
  }

  /** Taken for a lease, and its input not inspected yet. */
  function InspectingIn(x: seq<Exchange>): set<nat> {
    if x == [] then {} else
    var before, c := InspectingIn(x[..|x| - 1]), x[|x| - 1];
    match c.op
    case BeginLease(_) => if c.reply.Shifted? then before + {c.reply.execution} else before
    case EndLease(e, _, _, _, _) => before - {e}
    case _ => before
  }

  /** The call ends this lease: a completion under it that was taken in, its timer, or the first close. */
  predicate EndsLease(before: seq<Exchange>, c: Exchange, leaseId: string) {
    || (c.op.BeginComplete? && c.op.leaseId == leaseId && (c.reply == Done || c.reply == Threw(OutputMissing)))
    || (c.op.ExpireLease? && c.op.leaseId == leaseId)
    || (c.op.Close? && !ShutIn(before))
  }

  /** The lease granted last, unless it has ended. What it is told to have staged is always nothing. */
  function RunningIn(x: seq<Exchange>): (r: Option<Lease>) {
    if x == [] then None else
    var before, c := x[..|x| - 1], x[|x| - 1];
    if c.reply.Granted? then Some(c.reply.lease)
    else if RunningIn(before).Some? && EndsLease(before, c, RunningIn(before).value.leaseId) then None
    else RunningIn(before)
  }

  /** What is being received for a lease. */
  function ReceivingIn(x: seq<Exchange>, leaseId: string): Option<Metadata> {
    if x == [] then None else
    var before, c := ReceivingIn(x[..|x| - 1], leaseId), x[|x| - 1];
    match c.op
    case BeginStage(l, metadata, _) => if l == leaseId && c.reply == Done then metadata else before
    case EndStage(l, _, _) => if l == leaseId then None else before
    case _ => before
  }

  predicate Runs(x: seq<Exchange>, leaseId: string) {
    RunningIn(x).Some? && RunningIn(x).value.leaseId == leaseId
  }

  /** The output received under the running lease. */
  function StagedIn(x: seq<Exchange>): Option<Staged> {
    if x == [] then None else
    var before, c := x[..|x| - 1], x[|x| - 1];
    if c.reply.Granted? then None
    else if c.op.EndStage? && c.reply == Done && Runs(before, c.op.leaseId) && ReceivingIn(before, c.op.leaseId).Some?
    then Some(Staged(ReceivingIn(before, c.op.leaseId).value, Flatten(c.op.chunks)))
    else StagedIn(before)
  }

  /** How the call starts the end of this execution, if it does. */
  function EndingBy(before: seq<Exchange>, c: Exchange, e: nat): Option<Ending> {
    var lease := RunningIn(before);
    if lease.None? || lease.value.execution != e then None
    else
      match c.op
      case BeginComplete(leaseId, completion, _) =>
        if leaseId != lease.value.leaseId || c.reply != Done || completion.None? then None
        else if completion.value.Failed? then Some(Failing(Reported(completion.value.code)))
        else if StagedIn(before).Some? then Some(Reading(leaseId, StagedIn(before).value))
        else None
      case ExpireLease(leaseId) => if leaseId == lease.value.leaseId then Some(Failing(LeaseExpired)) else None
      case Close => if ShutIn(before) then None else Some(Failing(InfrastructureUnavailable))
      case _ => None
  }

  function EndingIn(x: seq<Exchange>, e: nat): Option<Ending> {
    if x == [] then None else
    var before, c := x[..|x| - 1], x[|x| - 1];
    if EndingBy(before, c, e).Some? then EndingBy(before, c, e)
    else if c.op.EndSettling? && c.op.execution == e then None
    else EndingIn(before, e)
  }

  /** What the call tells the caller of this execution, if it does. */
  function OutcomeBy(before: seq<Exchange>, c: Exchange, e: nat): Option<Outcome> {
    match c.op
    case ExpireQueued(w) => if w == e && e in WaitingIn(before) then Some(Rejected(QueueExpired)) else None
    case Close => if e in WaitingIn(before) then Some(Rejected(InfrastructureUnavailable)) else None
    case EndLease(t, inputBytes, _, _, _) =>
      if t == e && c.reply == Threw(LeaseInvalid)
      then Some(Rejected(if inputBytes.None? then InputUnavailable else InfrastructureUnavailable)) else None
    case BeginComplete(leaseId, _, _) =>
      if c.reply == Threw(OutputMissing) && Runs(before, leaseId) && RunningIn(before).value.execution == e
      then Some(Rejected(InvalidOutput)) else None
    case EndSettling(t, readable) =>
      if t != e then None
      else
        (match EndingIn(before, e)
         case None => None
         case Some(Failing(failure)) => Some(Rejected(failure))
         case Some(Reading(leaseId, staged)) =>
           Some(if readable then Resolved(leaseId, staged) else Rejected(InvalidOutput)))
    case _ => None
  }

  function OutcomeIn(x: seq<Exchange>, e: nat): Option<Outcome> {
    if x == [] then None else
    var before, c := x[..|x| - 1], x[|x| - 1];
    if OutcomeBy(before, c, e).Some? then OutcomeBy(before, c, e) else OutcomeIn(before, e)
  }

  // ----- What each call is replied ----------------------------------------------------------

  predicate CurrentIn(x: seq<Exchange>, leaseId: string, now: int) {
    && Runs(x, leaseId)
    && RunningIn(x).value.leasedAt - 300_000 <= now < RunningIn(x).value.expiresAt
  }

  function ReplyTold(x: seq<Exchange>, op: Op, config: Config): Reply {
    match op
    case Execute(valid, now) =>
      if !valid then Threw(RequestInvalid)
      else if AliveIn(x, config, now) then Accepted(AcceptedIn(x))
      else Refused(if ShutIn(x) then InfrastructureUnavailable else HeartbeatUnavailable)
    case Heartbeat(valid, now) =>
      if ShutIn(x) then Threw(BridgeClosed) else if valid then Done else Threw(HeartbeatInvalid)
    case BeginLease(now) =>
      if ShutIn(x) then Threw(BridgeClosed)
      else if !AliveIn(x, config, now) then Threw(HeartbeatStale)
      else if RunningIn(x).Some? || WaitingIn(x) == [] then NoWork
      else Shifted(WaitingIn(x)[0])
    case EndLease(e, inputBytes, leaseId, wellFormed, now) =>
      if e !in InspectingIn(x) then Done
      else if inputBytes.Some? && 1 <= inputBytes.value <= 52_428_800 && wellFormed
      then Granted(Lease(e, leaseId, now, now + config.leaseDurationMs, inputBytes.value, None))
      else Threw(LeaseInvalid)
    case BeginStage(leaseId, metadata, now) =>
      if !CurrentIn(x, leaseId, now) then Threw(LeaseNotCurrent)
      else if metadata.None? || metadata.value.leaseId != leaseId || StagedIn(x).Some? then Threw(OutputInvalid)
      else if ReceivingIn(x, leaseId).Some? then Threw(OutputFileExists)
      else Done
    case EndStage(leaseId, chunks, broken) =>
      var metadata, bytes := ReceivingIn(x, leaseId), Flatten(chunks);
      if metadata.None? then Done
      else if !broken && |bytes| == metadata.value.byteLength <= 536_870_912
              && config.sha256(bytes) == metadata.value.outputSha256
      then Done else Threw(OutputInvalid)
    case BeginComplete(leaseId, completion, now) =>
      if !CurrentIn(x, leaseId, now) then Threw(LeaseNotCurrent)
      else if completion.None? then Threw(OutputInvalid)
      else if completion.value.leaseId != leaseId then Threw(LeaseNotCurrent)
      else if completion.value.Success? && StagedIn(x).None? then Threw(OutputMissing)
      else Done
    case EndSettling(e, readable) =>
      if EndingIn(x, e).Some? && EndingIn(x, e).value.Reading? && !readable then Threw(OutputInvalid) else Done
    case _ => Done
  }

  // ----- What the broker holds is what the exchanges say ------------------------------------

  function Get<K, V>(m: map<K, V>, k: K): Option<V> {
    if k in m then Some(m[k]) else None
  }

  function Unstaged(lease: Option<Lease>): Option<Lease> {
    if lease.None? then None else Some(lease.value.(staged := None))
  }

  ghost predicate PlacesTold(x: seq<Exchange>, b: Broker) {
    && b.accepted == AcceptedIn(x) && b.closed == ShutIn(x) && b.heartbeatAt == HeartbeatIn(x)
    && b.queue == WaitingIn(x) && b.leasing == InspectingIn(x) && (b.closed ==> b.queue == [])
  }

  ghost predicate LeaseTold(x: seq<Exchange>, b: Broker) {
    && Unstaged(b.active) == RunningIn(x)
    && (b.active.Some? ==> b.active.value.staged == StagedIn(x))
  }

  ghost predicate ReceivingTold(x: seq<Exchange>, b: Broker, leaseId: string) {
    Get(b.staging, leaseId) == ReceivingIn(x, leaseId)
  }

  ghost predicate ExecutionTold(x: seq<Exchange>, b: Broker, e: nat) {
    Get(b.settling, e) == EndingIn(x, e) && Get(b.settled, e) == OutcomeIn(x, e)
  }

  ghost predicate Told(x: seq<Exchange>, b: Broker) {
    && PlacesTold(x, b) && LeaseTold(x, b)
    && (forall l :: ReceivingTold(x, b, l))
    && (forall e :: ExecutionTold(x, b, e))
  }

  /** Each call is replied as the exchanges before it call for. */
  lemma ReplyIsAsTold(x: seq<Exchange>, b: Broker, op: Op, config: Config)
    requires Told(x, b)
    ensures Step(b, op, config).1 == ReplyTold(x, op, config)
  {
    match op
    case EndSettling(e, _) => assert ExecutionTold(x, b, e);
    case BeginStage(leaseId, _, _) => assert ReceivingTold(x, b, leaseId);
    case EndStage(leaseId, _, _) => assert ReceivingTold(x, b, leaseId);
    case _ =>
  }

  // ----- One more exchange ------------------------------------------------------------------

  function With(x: seq<Exchange>, b: Broker, op: Op, config: Config): seq<Exchange> {
    x + [Exchange(op, Step(b, op, config).1)]
  }

  lemma OneMoreExchange(x: seq<Exchange>, b: Broker, op: Op, config: Config)
    ensures var longer := With(x, b, op, config);
      longer[..|longer| - 1] == x && longer[|longer| - 1] == Exchange(op, Step(b, op, config).1)
  {
  }

  lemma AlivenessToldAfterStep(x: seq<Exchange>, b: Broker, op: Op, config: Config)
    requires PlacesTold(x, b)
    ensures var after, longer := Step(b, op, config).0, With(x, b, op, config);
      && after.closed == ShutIn(longer) && after.heartbeatAt == HeartbeatIn(longer)
      && (after.closed ==> after.queue == [])
  {
    OneMoreExchange(x, b, op, config);
    OnlyHeartbeatsBeat(b, op, config);
    ClosedAfterStep(b, op, config);
  }

  lemma QueueToldAfterInspection(x: seq<Exchange>, b: Broker, op: Op, config: Config)
    requires PlacesTold(x, b) && op.EndLease?
    ensures var after, longer := Step(b, op, config).0, With(x, b, op, config);
      && after.accepted == AcceptedIn(longer) && after.queue == WaitingIn(longer)
      && after.leasing == InspectingIn(longer)
  {
    OneMoreExchange(x, b, op, config);
    InspectionLeavesPlaces(b, op.execution, op.inputBytes, op.leaseId, op.wellFormed, op.now, config);
  }

  lemma InspectionLeavesPlaces(
    b: Broker, x: nat, inputBytes: Option<nat>, leaseId: string, wellFormed: bool, now: int, config: Config)
    ensures var (after, reply) := FinishLease(b, x, inputBytes, leaseId, wellFormed, now, config);
      && after.accepted == b.accepted && after.queue == b.queue && after.leasing == b.leasing - {x}
      && !reply.Accepted? && !reply.Shifted?
  {
  }

  lemma CompletionLeavesPlaces(b: Broker, leaseId: string, completion: Option<Completion>, now: int)
    ensures var (after, reply) := LeaveActive(b, leaseId, completion, now);
      && after.accepted == b.accepted && after.queue == b.queue && after.leasing == b.leasing
      && !reply.Accepted? && !reply.Shifted? && !reply.Granted?
  {
  }

  lemma SettlingLeavesPlaces(b: Broker, e: nat, readable: bool)
    ensures var (after, reply) := FinishSettling(b, e, readable);
      && after.accepted == b.accepted && after.queue == b.queue && after.leasing == b.leasing
      && after.active == b.active && after.staging == b.staging
      && !reply.Accepted? && !reply.Shifted? && !reply.Granted?
  {
    if e in b.settling {
      SettlingMoves(b, e, readable);
    }
  }

  lemma QueueToldAfterStep(x: seq<Exchange>, b: Broker, op: Op, config: Config)
    requires PlacesTold(x, b)
    ensures var after, longer := Step(b, op, config).0, With(x, b, op, config);
      && after.accepted == AcceptedIn(longer) && after.queue == WaitingIn(longer)
      && after.leasing == InspectingIn(longer)
  {
    OneMoreExchange(x, b, op, config);
    match op
    case EndLease(_, _, _, _, _) => QueueToldAfterInspection(x, b, op, config);
    case BeginComplete(leaseId, completion, now) => CompletionLeavesPlaces(b, leaseId, completion, now);
    case EndSettling(e, readable) => SettlingLeavesPlaces(b, e, readable);
    case ExpireQueued(e) => AbsentIndex(b.queue, e);
    case _ =>
  }

  lemma {:induction false} AbsentIndex(q: seq<nat>, e: nat)
    ensures e !in q ==> WithoutIndex(q, e) == q
  {
    if q != [] {
      AbsentIndex(q[1..], e);
      assert q == [q[0]] + q[1..];
    }
  }

  lemma RunningAfterInspection(
    b: Broker, x: nat, inputBytes: Option<nat>, leaseId: string, wellFormed: bool, now: int, config: Config)
    ensures var (after, reply) := FinishLease(b, x, inputBytes, leaseId, wellFormed, now, config);
      after.active == if reply.Granted? then Some(reply.lease) else b.active
    ensures var reply := FinishLease(b, x, inputBytes, leaseId, wellFormed, now, config).1;
      reply.Granted? ==> reply.lease.staged.None?
  {
  }

  lemma RunningAfterCompletion(b: Broker, leaseId: string, completion: Option<Completion>, now: int)
    ensures var (after, reply) := LeaveActive(b, leaseId, completion, now);
      after.active
      == if b.active.Some? && b.active.value.leaseId == leaseId && (reply == Done || reply == Threw(OutputMissing))
                      then None else b.active
  {
  }

  lemma RunningToldAfterStep(x: seq<Exchange>, b: Broker, op: Op, config: Config)
    requires PlacesTold(x, b) && LeaseTold(x, b)
    ensures Unstaged(Step(b, op, config).0.active) == RunningIn(With(x, b, op, config))
  {
    OneMoreExchange(x, b, op, config);
    match op
    case EndLease(e, inputBytes, leaseId, wellFormed, now) =>
      RunningAfterInspection(b, e, inputBytes, leaseId, wellFormed, now, config);
    case BeginComplete(leaseId, completion, now) =>
      CompletionLeavesPlaces(b, leaseId, completion, now);
      RunningAfterCompletion(b, leaseId, completion, now);
    case EndSettling(e, readable) => SettlingLeavesPlaces(b, e, readable);
    case _ =>
  }

  lemma StagedToldAfterStep(x: seq<Exchange>, b: Broker, op: Op, config: Config)
    requires LeaseTold(x, b) && (op.EndStage? ==> ReceivingTold(x, b, op.leaseId))
    ensures var after := Step(b, op, config).0;
      after.active.Some? ==> after.active.value.staged == StagedIn(With(x, b, op, config))
  {
    OneMoreExchange(x, b, op, config);
    match op
    case EndLease(e, inputBytes, leaseId, wellFormed, now) =>
      RunningAfterInspection(b, e, inputBytes, leaseId, wellFormed, now, config);
    case BeginComplete(leaseId, completion, now) =>
      CompletionLeavesPlaces(b, leaseId, completion, now);
      RunningAfterCompletion(b, leaseId, completion, now);
    case EndSettling(e, readable) => SettlingLeavesPlaces(b, e, readable);
    case _ =>
  }

  lemma ReceivingToldAfterStep(x: seq<Exchange>, b: Broker, op: Op, config: Config, l: string)
    requires ReceivingTold(x, b, l)
    ensures ReceivingTold(With(x, b, op, config), Step(b, op, config).0, l)
  {
    OneMoreExchange(x, b, op, config);
    match op
    case EndLease(e, inputBytes, leaseId, wellFormed, now) =>
      InspectionStagesNothing(b, e, inputBytes, leaseId, wellFormed, now, config);
    case BeginComplete(leaseId, completion, now) => CompletionStagesNothing(b, leaseId, completion, now);
    case EndSettling(e, readable) => SettlingLeavesPlaces(b, e, readable);
    case _ =>
  }

  lemma InspectionStagesNothing(
    b: Broker, x: nat, inputBytes: Option<nat>, leaseId: string, wellFormed: bool, now: int, config: Config)
    ensures var after := FinishLease(b, x, inputBytes, leaseId, wellFormed, now, config).0;
      after.staging == b.staging && after.settling == b.settling
  {
  }

  lemma CompletionStagesNothing(b: Broker, leaseId: string, completion: Option<Completion>, now: int)
    ensures LeaveActive(b, leaseId, completion, now).0.staging == b.staging
  {
  }

  // ----- Endings and outcomes ---------------------------------------------------------------

  lemma ExecutionToldAfterInspection(x: seq<Exchange>, b: Broker, op: Op, config: Config, e: nat)
    requires op.EndLease? && PlacesTold(x, b) && ExecutionTold(x, b, e)
    ensures ExecutionTold(With(x, b, op, config), Step(b, op, config).0, e)
  {
    OneMoreExchange(x, b, op, config);
    InspectionStagesNothing(b, op.execution, op.inputBytes, op.leaseId, op.wellFormed, op.now, config);
    InspectionTells(b, op.execution, op.inputBytes, op.leaseId, op.wellFormed, op.now, config, e);
  }

  lemma InspectionTells(
    b: Broker, x: nat, inputBytes: Option<nat>, leaseId: string, wellFormed: bool, now: int, config: Config, e: nat)
    ensures var (after, reply) := FinishLease(b, x, inputBytes, leaseId, wellFormed, now, config);
      Get(after.settled, e) ==
        if x == e && reply == Threw(LeaseInvalid)
        then Some(Rejected(if inputBytes.None? then InputUnavailable else InfrastructureUnavailable))
        else Get(b.settled, e)
  {
  }

  lemma ExecutionToldAfterCompletion(x: seq<Exchange>, b: Broker, op: Op, config: Config, e: nat)
    requires op.BeginComplete? && LeaseTold(x, b) && ExecutionTold(x, b, e)
    ensures ExecutionTold(With(x, b, op, config), Step(b, op, config).0, e)
  {
    OneMoreExchange(x, b, op, config);
    CompletionTells(b, op.leaseId, op.completion, op.now, e);
    CompletionEnds(b, op.leaseId, op.completion, op.now, e);
  }

  lemma CompletionTells(b: Broker, leaseId: string, completion: Option<Completion>, now: int, e: nat)
    ensures var (after, reply) := LeaveActive(b, leaseId, completion, now);
      Get(after.settled, e) ==
        if reply == Threw(OutputMissing) && IsActive(b, e) then Some(Rejected(InvalidOutput)) else Get(b.settled, e)
    ensures LeaveActive(b, leaseId, completion, now).1 == Threw(OutputMissing) ==> b.active.value.leaseId == leaseId
  {
  }

  lemma CompletionEnds(b: Broker, leaseId: string, completion: Option<Completion>, now: int, e: nat)
    ensures var (after, reply) := LeaveActive(b, leaseId, completion, now);
      Get(after.settling, e) ==
        if reply == Done && IsActive(b, e) then
          if completion.value.Failed? then Some(Failing(Reported(completion.value.code)))
          else Some(Reading(leaseId, b.active.value.staged.value))
        else Get(b.settling, e)
    ensures LeaveActive(b, leaseId, completion, now).1 == Done ==>
      b.active.value.leaseId == leaseId && (completion.value.Failed? || b.active.value.staged.Some?)
  {
  }

  lemma ExecutionToldAfterSettling(x: seq<Exchange>, b: Broker, op: Op, config: Config, e: nat)
    requires op.EndSettling? && ExecutionTold(x, b, e)
    ensures ExecutionTold(With(x, b, op, config), Step(b, op, config).0, e)
  {
    OneMoreExchange(x, b, op, config);
    SettlingTells(b, op.execution, op.readable, e);
  }

  lemma SettlingTells(b: Broker, x: nat, readable: bool, e: nat)
    ensures var after := FinishSettling(b, x, readable).0;
      && Get(after.settling, e) == (if x == e then None else Get(b.settling, e))
      && Get(after.settled, e) ==
           if x == e && e in b.settling then
             match b.settling[e]
             case Failing(failure) => Some(Rejected(failure))
             case Reading(leaseId, staged) =>
               Some(if readable then Resolved(leaseId, staged) else Rejected(InvalidOutput))
           else Get(b.settled, e)
  {
  }

  lemma ExecutionToldAfterClose(x: seq<Exchange>, b: Broker, config: Config, e: nat)
    requires PlacesTold(x, b) && LeaseTold(x, b) && ExecutionTold(x, b, e)
    ensures ExecutionTold(With(x, b, Close, config), Step(b, Close, config).0, e)
  {
    OneMoreExchange(x, b, Close, config);
  }

  lemma ExecutionToldAfterOthers(x: seq<Exchange>, b: Broker, op: Op, config: Config, e: nat)
    requires !op.EndLease? && !op.BeginComplete? && !op.EndSettling? && !op.Close?
    requires PlacesTold(x, b) && LeaseTold(x, b) && ExecutionTold(x, b, e)
    ensures ExecutionTold(With(x, b, op, config), Step(b, op, config).0, e)
  {
    OneMoreExchange(x, b, op, config);
  }

  lemma ExecutionToldAfterStep(x: seq<Exchange>, b: Broker, op: Op, config: Config, e: nat)
    requires PlacesTold(x, b) && LeaseTold(x, b) && ExecutionTold(x, b, e)
    ensures ExecutionTold(With(x, b, op, config), Step(b, op, config).0, e)
  {
    match op
    case EndLease(_, _, _, _, _) => ExecutionToldAfterInspection(x, b, op, config, e);
    case BeginComplete(_, _, _) => ExecutionToldAfterCompletion(x, b, op, config, e);
    case EndSettling(_, _) => ExecutionToldAfterSettling(x, b, op, config, e);
    case Close => ExecutionToldAfterClose(x, b, config, e);
    case _ => ExecutionToldAfterOthers(x, b, op, config, e);
  }

  lemma ToldAfterStep(x: seq<Exchange>, b: Broker, op: Op, config: Config)
    requires Told(x, b)
    ensures Told(With(x, b, op, config), Step(b, op, config).0)
  {
    var after, longer := Step(b, op, config).0, With(x, b, op, config);
    AlivenessToldAfterStep(x, b, op, config);
    QueueToldAfterStep(x, b, op, config);
    RunningToldAfterStep(x, b, op, config);
    if op.EndStage? {
      assert ReceivingTold(x, b, op.leaseId);
    }
    StagedToldAfterStep(x, b, op, config);
    forall l
      ensures ReceivingTold(longer, after, l)
    {
      assert ReceivingTold(x, b, l);
      ReceivingToldAfterStep(x, b, op, config, l);
    }
    forall e
      ensures ExecutionTold(longer, after, e)
    {
      assert ExecutionTold(x, b, e);
      ExecutionToldAfterStep(x, b, op, config, e);
    }
  }

  /** In every run, disciplined or not, the broker holds exactly what its calls and replies say. */
  lemma {:induction false} EveryRunIsTold(h: History, config: Config)
    ensures Told(Exchanges(h, config), After(h, config))
  {
    if h.Then? {
      EveryRunIsTold(h.before, config);
      ToldAfterStep(Exchanges(h.before, config), After(h.before, config), h.op, config);
    }
  }

  lemma EachCallIsRepliedAsTold(h: History, op: Op, config: Config)
    ensures Step(After(h, config), op, config).1 == ReplyTold(Exchanges(h, config), op, config)
  {
    EveryRunIsTold(h, config);
    ReplyIsAsTold(Exchanges(h, config), After(h, config), op, config);
  }
}
