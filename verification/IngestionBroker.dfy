/** The broker between callers that want a document processed and the one host bridge that polls
    for work. Each function below is one stretch of code between two awaits; an execution is
    numbered in the order in which the broker accepted it. */
module IngestionBroker {
  import opened Wrappers

  datatype Error =
    | BridgeClosed
    | HeartbeatInvalid
    | HeartbeatStale
    | LeaseInvalid
    | LeaseNotCurrent
    | OutputInvalid
    | OutputMissing
    | OutputFileExists
    | RequestInvalid

  datatype Failure =
    | InfrastructureUnavailable
    | HeartbeatUnavailable
    | InputUnavailable
    | QueueExpired
    | LeaseExpired
    | InvalidOutput
    | Reported(code: string)

  const MAX_CLOCK_SKEW_MS := 5 * 60_000
  const MAX_INPUT_BYTES := 50 * 1_024 * 1_024
  const MAX_OUTPUT_BYTES := 512 * 1_024 * 1_024

  datatype Metadata = Metadata(leaseId: string, byteLength: nat, outputSha256: string)

  datatype Staged = Staged(metadata: Metadata, bytes: seq<nat>)

  datatype Lease = Lease(
    execution: nat, leaseId: string, leasedAt: int, expiresAt: int, inputBytes: nat, staged: Option<Staged>)

  datatype Completion = Success(leaseId: string) | Failed(leaseId: string, code: string)

  /** Out of `active`, and waiting for a file operation before the caller hears about it. */
  datatype Ending = Failing(failure: Failure) | Reading(leaseId: string, staged: Staged)

  datatype Outcome = Resolved(leaseId: string, output: Staged) | Rejected(failure: Failure)

  datatype Config = Config(heartbeatTtlMs: nat, leaseDurationMs: nat, sha256: seq<nat> -> string)

  datatype Broker = Broker(
    accepted: nat,
    queue: seq<nat>,
    leasing: set<nat>,            // shifted off the queue, the input file is being inspected
    active: Option<Lease>,
    settling: map<nat, Ending>,
    settled: map<nat, Outcome>,
    staging: map<string, Metadata>, // output files being received, by lease
    closed: bool,
    heartbeatAt: Option<int>,
    issued: map<string, nat>,     // every lease ever granted, with its execution
    taken: seq<nat>)              // every execution ever shifted off the queue, in order

  const EMPTY := Broker(0, [], {}, None, map[], map[], map[], false, None, map[], [])

  datatype Op =
    | Execute(valid: bool, now: int)
    | Heartbeat(valid: bool, now: int)
    | BeginLease(now: int)
    | EndLease(execution: nat, inputBytes: Option<nat>, leaseId: string, wellFormed: bool, now: int)
    | BeginStage(leaseId: string, metadata: Option<Metadata>, now: int)
    | EndStage(leaseId: string, chunks: seq<seq<nat>>, broken: bool)
    | BeginComplete(leaseId: string, completion: Option<Completion>, now: int)
    | EndSettling(execution: nat, readable: bool)
    | ExpireLease(leaseId: string)
    | ExpireQueued(execution: nat)
    | Close

  datatype Reply =
    | Accepted(execution: nat)
    | Refused(failure: Failure)
    | Threw(error: Error)
    | NoWork
    | Shifted(execution: nat)
    | Granted(lease: Lease)
    | Done

  predicate Available(b: Broker, config: Config, now: int) {
    !b.closed && b.heartbeatAt.Some? && now - b.heartbeatAt.value <= config.heartbeatTtlMs
  }

  predicate Current(active: Option<Lease>, leaseId: string, now: int) {
    && active.Some? && active.value.leaseId == leaseId
    && active.value.leasedAt <= now + MAX_CLOCK_SKEW_MS && now < active.value.expiresAt
  }

  function Flatten(chunks: seq<seq<nat>>): seq<nat> {
    if chunks == [] then [] else Flatten(chunks[..|chunks| - 1]) + chunks[|chunks| - 1]
  }

  predicate Matches(output: Staged, config: Config) {
    && |output.bytes| == output.metadata.byteLength <= MAX_OUTPUT_BYTES
    && config.sha256(output.bytes) == output.metadata.outputSha256
  }

  function Settle(b: Broker, e: nat, outcome: Outcome): Broker {
    b.(settled := b.settled[e := outcome])
  }

  function WithoutIndex(q: seq<nat>, e: nat): seq<nat> {
    if q == [] then [] else if q[0] == e then q[1..] else [q[0]] + WithoutIndex(q[1..], e)
  }

  /** Everything that waited is told that the broker is gone. */
  function RefuseAll(settled: map<nat, Outcome>, q: seq<nat>): (r: map<nat, Outcome>)
    ensures forall e :: e in r <==> e in settled || e in q
    ensures forall e :: e in r ==> r[e] == if e in q then Rejected(InfrastructureUnavailable) else settled[e]
  {
    if q == [] then settled
    else RefuseAll(settled, q[..|q| - 1])[q[|q| - 1] := Rejected(InfrastructureUnavailable)]
  }

  function Step(b: Broker, op: Op, config: Config): (Broker, Reply) {
    match op
    case Execute(valid, now) =>
      if !valid then (b, Threw(RequestInvalid))
      else if b.closed then (b, Refused(InfrastructureUnavailable))
      else if !Available(b, config, now) then (b, Refused(HeartbeatUnavailable))
      else (b.(accepted := b.accepted + 1, queue := b.queue + [b.accepted]), Accepted(b.accepted))
    case Heartbeat(valid, now) =>
      if b.closed then (b, Threw(BridgeClosed))
      else if !valid then (b, Threw(HeartbeatInvalid))
      else (b.(heartbeatAt := Some(now)), Done)
    case BeginLease(now) =>
      if b.closed then (b, Threw(BridgeClosed))
      else if !Available(b, config, now) then (b, Threw(HeartbeatStale))
      else if b.active.Some? || b.queue == [] then (b, NoWork)
      else (b.(queue := b.queue[1..], leasing := b.leasing + {b.queue[0]}, taken := b.taken + [b.queue[0]]),
            Shifted(b.queue[0]))
    case EndLease(e, inputBytes, leaseId, wellFormed, now) =>
      FinishLease(b, e, inputBytes, leaseId, wellFormed, now, config)
    case BeginStage(leaseId, metadata, now) =>
      if !Current(b.active, leaseId, now) then (b, Threw(LeaseNotCurrent))
      else if metadata.None? || b.active.value.staged.Some? || metadata.value.leaseId != leaseId
      then (b, Threw(OutputInvalid))
      else if leaseId in b.staging then (b, Threw(OutputFileExists))
      else (b.(staging := b.staging[leaseId := metadata.value]), Done)
    case EndStage(leaseId, chunks, broken) =>
      if leaseId !in b.staging then (b, Done) else
      var output := Staged(b.staging[leaseId], Flatten(chunks));
      var rest := b.(staging := b.staging - {leaseId});
      if broken || !Matches(output, config) then (rest, Threw(OutputInvalid))
      else if b.active.Some? && b.active.value.leaseId == leaseId then
        (rest.(active := Some(b.active.value.(staged := Some(output)))), Done)
      else (rest, Done)
    case BeginComplete(leaseId, completion, now) => LeaveActive(b, leaseId, completion, now)
    case EndSettling(e, readable) => FinishSettling(b, e, readable)
    case ExpireLease(leaseId) =>
      if b.active.None? || b.active.value.leaseId != leaseId then (b, Done)
      else (b.(active := None, settling := b.settling[b.active.value.execution := Failing(LeaseExpired)]), Done)
    case ExpireQueued(e) =>
      if e !in b.queue then (b, Done)
      else (Settle(b.(queue := WithoutIndex(b.queue, e)), e, Rejected(QueueExpired)), Done)
    case Close =>
      if b.closed then (b, Done) else
      var shut := b.(closed := true, queue := [], settled := RefuseAll(b.settled, b.queue));
      (if b.active.None? then shut
       else shut.(active := None,
                  settling := b.settling[b.active.value.execution := Failing(InfrastructureUnavailable)]),
       Done)
  }

  /** `lease` after the input file has been inspected. */
  function FinishLease(b: Broker, e: nat, inputBytes: Option<nat>, leaseId: string, wellFormed: bool, now: int,
      config: Config)
    : (Broker, Reply)
  {
    if e !in b.leasing then (b, Done) else
    var rest := b.(leasing := b.leasing - {e});
    if inputBytes.None? then (Settle(rest, e, Rejected(InputUnavailable)), Threw(LeaseInvalid))
    else if inputBytes.value < 1 || inputBytes.value > MAX_INPUT_BYTES || !wellFormed then
      (Settle(rest, e, Rejected(InfrastructureUnavailable)), Threw(LeaseInvalid))
    else
      var lease := Lease(e, leaseId, now, now + config.leaseDurationMs, inputBytes.value, None);
      (rest.(active := Some(lease), issued := b.issued[leaseId := e]), Granted(lease))
  }

  /** `complete` up to its first await. */
  function LeaveActive(b: Broker, leaseId: string, completion: Option<Completion>, now: int): (Broker, Reply) {
    if !Current(b.active, leaseId, now) then (b, Threw(LeaseNotCurrent))
    else if completion.None? then (b, Threw(OutputInvalid))
    else if completion.value.leaseId != leaseId then (b, Threw(LeaseNotCurrent))
    else
      var lease := b.active.value;
      var left := b.(active := None);
      match completion.value
      case Failed(_, code) => (left.(settling := b.settling[lease.execution := Failing(Reported(code))]), Done)
      case Success(_) =>
        if lease.staged.None? then (Settle(left, lease.execution, Rejected(InvalidOutput)), Threw(OutputMissing))
        else (left.(settling := b.settling[lease.execution := Reading(leaseId, lease.staged.value)]), Done)
  }

  /** The rest of a completion, an expiry or a close, after its last file operation. */
  function FinishSettling(b: Broker, e: nat, readable: bool): (Broker, Reply) {
    if e !in b.settling then (b, Done) else
    var rest := b.(settling := b.settling - {e});
    match b.settling[e]
    case Failing(failure) => (Settle(rest, e, Rejected(failure)), Done)
    case Reading(leaseId, staged) =>
      if readable then (Settle(rest, e, Resolved(leaseId, staged)), Done)
      else (Settle(rest, e, Rejected(InvalidOutput)), Threw(OutputInvalid))
  }

  // ----- The broker in place --------------------------------------------------------------

  class LocalIngestionBridgeBroker {
    const config: Config
    var accepted: nat
    var queue: seq<nat>
    var leasing: set<nat>
    var active: Option<Lease>
    var settling: map<nat, Ending>
    var settled: map<nat, Outcome>
    var staging: map<string, Metadata>
    var closed: bool
    var heartbeatAtMs: Option<int>
    ghost var issued: map<string, nat>
    ghost var taken: seq<nat>

    ghost function State(): Broker
      reads this
    {
      Broker(accepted, queue, leasing, active, settling, settled, staging, closed, heartbeatAtMs, issued, taken)
    }

    constructor (config: Config)
      ensures this.config == config && State() == EMPTY
    {
      this.config := config;
      accepted, queue, leasing, active, settling, settled := 0, [], {}, None, map[], map[];
      staging, closed, heartbeatAtMs, issued, taken := map[], false, None, map[], [];
    }

    method IsAvailable(now: int) returns (r: bool)
      ensures r == Available(State(), config, now)
    {
      r := !closed && heartbeatAtMs.Some? && now - heartbeatAtMs.value <= config.heartbeatTtlMs;
    }

    method EnqueueExecution(valid: bool, now: int) returns (r: Reply)
      modifies this
      ensures (State(), r) == Step(old(State()), Execute(valid, now), config)
    {
      if !valid {
        return Threw(RequestInvalid);
      }
      if closed {
        return Refused(InfrastructureUnavailable);
      }
      var available := IsAvailable(now);
      if !available {
        return Refused(HeartbeatUnavailable);
      }
      r := Accepted(accepted);
      queue := queue + [accepted];
      accepted := accepted + 1;
    }

    method ReceiveHeartbeat(valid: bool, now: int) returns (r: Reply)
      modifies this
      ensures (State(), r) == Step(old(State()), Heartbeat(valid, now), config)
    {
      if closed {
        return Threw(BridgeClosed);
      }
      if !valid {
        return Threw(HeartbeatInvalid);
      }
      heartbeatAtMs := Some(now);
      return Done;
    }

    method ShiftForLease(now: int) returns (r: Reply)
      modifies this
      ensures (State(), r) == Step(old(State()), BeginLease(now), config)
    {
      if closed {
        return Threw(BridgeClosed);
      }
      var available := IsAvailable(now);
      if !available {
        return Threw(HeartbeatStale);
      }
      if active.Some? || queue == [] {
        return NoWork;
      }
      var queued := queue[0];
      queue := queue[1..];
      leasing := leasing + {queued};
      taken := taken + [queued];
      return Shifted(queued);
    }

    method GrantLease(e: nat, inputBytes: Option<nat>, leaseId: string, wellFormed: bool, now: int) returns (r: Reply)
      requires e in leasing
      modifies this
      ensures (State(), r) == Step(old(State()), EndLease(e, inputBytes, leaseId, wellFormed, now), config)
    {
      leasing := leasing - {e};
      if inputBytes.None? {
        settled := settled[e := Rejected(InputUnavailable)];
        return Threw(LeaseInvalid);
      }
      if inputBytes.value < 1 || inputBytes.value > MAX_INPUT_BYTES || !wellFormed {
        settled := settled[e := Rejected(InfrastructureUnavailable)];
        return Threw(LeaseInvalid);
      }
      var lease := Lease(e, leaseId, now, now + config.leaseDurationMs, inputBytes.value, None);
      active := Some(lease);
      issued := issued[leaseId := e];
      return Granted(lease);
    }

    method OpenOutput(leaseId: string, metadata: Option<Metadata>, now: int) returns (r: Reply)
      modifies this
      ensures (State(), r) == Step(old(State()), BeginStage(leaseId, metadata, now), config)
    {
      if !Current(active, leaseId, now) {
        return Threw(LeaseNotCurrent);
      }
      if metadata.None? || active.value.staged.Some? || metadata.value.leaseId != leaseId {
        return Threw(OutputInvalid);
      }
      if leaseId in staging {
        return Threw(OutputFileExists);
      }
      staging := staging[leaseId := metadata.value];
      return Done;
    }

    /** Receives the stream chunk by chunk and gives up as soon as it exceeds the declared length. */
    method StageOutput(leaseId: string, chunks: seq<seq<nat>>, broken: bool) returns (r: Reply)
      requires leaseId in staging
      modifies this
      ensures (State(), r) == Step(old(State()), EndStage(leaseId, chunks, broken), config)
    {
      var validated := staging[leaseId];
      staging := staging - {leaseId};
      var received: seq<nat> := [];
      assert chunks[..0] == [];
      for i := 0 to |chunks|
        invariant received == Flatten(chunks[..i]) && |received| <= validated.byteLength
          && |received| <= MAX_OUTPUT_BYTES
      {
        assert chunks[..i + 1][..i] == chunks[..i];
        received := received + chunks[i];
        if |received| > validated.byteLength || |received| > MAX_OUTPUT_BYTES {
          FlattenGrows(chunks, i + 1);
          return Threw(OutputInvalid);
        }
      }
      assert chunks[..|chunks|] == chunks;
      if broken || |received| != validated.byteLength || config.sha256(received) != validated.outputSha256 {
        return Threw(OutputInvalid);
      }
      if active.Some? && active.value.leaseId == leaseId {
        active := Some(active.value.(staged := Some(Staged(validated, received))));
      }
      return Done;
    }

    method CompleteLease(leaseId: string, completion: Option<Completion>, now: int) returns (r: Reply)
      modifies this
      ensures (State(), r) == Step(old(State()), BeginComplete(leaseId, completion, now), config)
    {
      if !Current(active, leaseId, now) {
        return Threw(LeaseNotCurrent);
      }
      if completion.None? {
        return Threw(OutputInvalid);
      }
      if completion.value.leaseId != leaseId {
        return Threw(LeaseNotCurrent);
      }
      var lease := active.value;
      active := None;
      if completion.value.Failed? {
        settling := settling[lease.execution := Failing(Reported(completion.value.code))];
        return Done;
      }
      if lease.staged.None? {
        settled := settled[lease.execution := Rejected(InvalidOutput)];
        return Threw(OutputMissing);
      }
      settling := settling[lease.execution := Reading(leaseId, lease.staged.value)];
      return Done;
    }

    /** The continuation after the last file operation of a completion, an expiry or a close. */
    method SettleExecution(e: nat, readable: bool) returns (r: Reply)
      requires e in settling
      modifies this
      ensures (State(), r) == Step(old(State()), EndSettling(e, readable), config)
    {
      var ending := settling[e];
      settling := settling - {e};
      if ending.Failing? {
        settled := settled[e := Rejected(ending.failure)];
      } else if readable {
        settled := settled[e := Resolved(ending.leaseId, ending.staged)];
      } else {
        settled := settled[e := Rejected(InvalidOutput)];
        return Threw(OutputInvalid);
      }
      return Done;
    }

    method LeaseTimerFires(leaseId: string)
      modifies this
      ensures State() == Step(old(State()), ExpireLease(leaseId), config).0
    {
      if active.None? || active.value.leaseId != leaseId {
        return;
      }
      var lease := active.value;
      active := None;
      settling := settling[lease.execution := Failing(LeaseExpired)];
    }

    method AdmissionTimerFires(e: nat)
      modifies this
      ensures State() == Step(old(State()), ExpireQueued(e), config).0
    {
      if e !in queue {
        return;
      }
      queue := WithoutIndex(queue, e);
      settled := settled[e := Rejected(QueueExpired)];
    }

    method CloseBroker()
      modifies this
      ensures State() == Step(old(State()), Close, config).0
    {
      if closed {
        return;
      }
      closed := true;
      var waiting := queue;
      queue := [];
      assert waiting[..0] == [];
      for i := 0 to |waiting|
        invariant closed && queue == [] && settled == RefuseAll(old(settled), waiting[..i])
        invariant unchanged(`accepted, `leasing, `active, `settling, `staging, `heartbeatAtMs, `issued, `taken)
      {
        assert waiting[..i + 1][..i] == waiting[..i];
        settled := settled[waiting[i] := Rejected(InfrastructureUnavailable)];
      }
      assert waiting[..|waiting|] == waiting;
      if active.Some? {
        var lease := active.value;
        active := None;
        settling := settling[lease.execution := Failing(InfrastructureUnavailable)];
      }
    }
  }

  lemma {:induction false} FlattenGrows(chunks: seq<seq<nat>>, i: nat)
    requires i <= |chunks|
    ensures |Flatten(chunks)| >= |Flatten(chunks[..i])|
  {
    if i < |chunks| {
      FlattenGrows(chunks[..|chunks| - 1], i);
      assert chunks[..|chunks| - 1][..i] == chunks[..i];
    } else {
      assert chunks[..i] == chunks;
    }
  }
}
