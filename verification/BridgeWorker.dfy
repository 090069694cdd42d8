/** The host side of the ingestion lease: poll, fetch the input, scan, run the worker, hand the
    output over and complete the lease. Whatever the dependencies answer is an input here. */
module BridgeWorker {
  import opened Wrappers
  import opened IngestionBroker

  datatype Fault = Coded(code: string) | Foreign

  const INFRASTRUCTURE := "infrastructure_unavailable"

  datatype WorkLease = WorkLease(
    leaseId: string, leasedAt: int, expiresAt: int, inputBytes: nat, inputSha256: string, workerImageDigest: string)

  /** What each dependency answers while one lease is processed, in the order of the calls. */
  datatype Answers = Answers(
    createFault: Option<Fault>,
    openFault: bool,
    chunks: seq<seq<nat>>, sourceFault: Option<Fault>,
    stagedAt: int,
    snapshotFault: Option<Fault>, snapshotVerified: Option<bool>,
    scanFault: Option<Fault>, clean: bool,
    workerFault: Option<Fault>,
    validationFault: Option<Fault>,
    producedAt: int,
    output: Option<seq<nat>>,
    putFault: Option<Fault>,
    cleanupFault: bool,
    finishedAt: int,
    completeFault: bool)

  datatype Result = Completed | NotCompleted | Idle | Escaped

  datatype Event = BridgeAvailable | LeaseCompleted | LeaseFailed | PollFailed

  predicate IsCurrent(lease: WorkLease, now: int) {
    lease.leasedAt <= now + MAX_CLOCK_SKEW_MS && now < lease.expiresAt
  }

  function CodeOf(fault: Fault): string {
    match fault
    case Coded(code) => code
    case Foreign => INFRASTRUCTURE
  }

  function Unless(passed: bool, code: string): Option<Fault> {
    if passed then None else Some(Coded(code))
  }

  // ----- What a lease demands, gate by gate -----------------------------------------------

  function StagingFault(lease: WorkLease, a: Answers, sha256: seq<nat> -> string): Option<Fault> {
    var received := Flatten(a.chunks);
    if lease.inputBytes < 1 || lease.inputBytes > MAX_INPUT_BYTES then Some(Coded("hash_mismatch"))
    else if a.openFault then Some(Foreign)
    else if |received| > lease.inputBytes then Some(Coded("hash_mismatch"))
    else if a.sourceFault.Some? then Some(Coded(CodeOf(a.sourceFault.value)))
    else Unless(|received| == lease.inputBytes && sha256(received) == lease.inputSha256, "hash_mismatch")
  }

  function Else(first: Option<Fault>, later: Option<Fault>): Option<Fault> {
    if first.Some? then first else later
  }

  /** The gates in the order in which a lease meets them; the first one that fails names the fault. */
  function FirstFault(lease: WorkLease, a: Answers, sha256: seq<nat> -> string): Option<Fault> {
    Else(a.createFault,
    Else(StagingFault(lease, a, sha256),
    Else(Unless(IsCurrent(lease, a.stagedAt), INFRASTRUCTURE),
    Else(a.snapshotFault,
    Else(Unless(a.snapshotVerified == Some(true), "scan_db_stale"),
    Else(a.scanFault,
    Else(Unless(a.clean, "malware_detected"),
    Else(a.workerFault,
    Else(a.validationFault,
    Else(Unless(IsCurrent(lease, a.producedAt), INFRASTRUCTURE),
    Else(Unless(a.output.Some? && 1 <= |a.output.value| <= MAX_OUTPUT_BYTES, "invalid_output"),
    a.putFault)))))))))))
  }

  /** The one completion a processed lease is answered with. */
  function CompletionFor(lease: WorkLease, a: Answers, sha256: seq<nat> -> string): Completion {
    var first := FirstFault(lease, a, sha256);
    if a.createFault.None? && a.cleanupFault then Failed(lease.leaseId, INFRASTRUCTURE)
    else if first.Some? then Failed(lease.leaseId, CodeOf(first.value))
    else if !IsCurrent(lease, a.finishedAt) then Failed(lease.leaseId, INFRASTRUCTURE)
    else Success(lease.leaseId)
  }

  ghost predicate EverythingHeld(lease: WorkLease, a: Answers, sha256: seq<nat> -> string) {
    var received := Flatten(a.chunks);
    && a.createFault.None? && !a.openFault && a.sourceFault.None?
    && 1 <= |received| == lease.inputBytes <= MAX_INPUT_BYTES && sha256(received) == lease.inputSha256
    && a.snapshotFault.None? && a.snapshotVerified == Some(true)
    && a.scanFault.None? && a.clean
    && a.workerFault.None? && a.validationFault.None?
    && a.output.Some? && 1 <= |a.output.value| <= MAX_OUTPUT_BYTES && a.putFault.None?
    && !a.cleanupFault
    && IsCurrent(lease, a.stagedAt) && IsCurrent(lease, a.producedAt) && IsCurrent(lease, a.finishedAt)
  }

  lemma SuccessExactlyWhenEverythingHeld(lease: WorkLease, a: Answers, sha256: seq<nat> -> string)
    ensures CompletionFor(lease, a, sha256) == Success(lease.leaseId) <==> EverythingHeld(lease, a, sha256)
    ensures CompletionFor(lease, a, sha256).leaseId == lease.leaseId
  {
  }

  lemma StagingPassesExactlyOnTheLeasedBytes(lease: WorkLease, a: Answers, sha256: seq<nat> -> string)
    ensures StagingFault(lease, a, sha256).None? <==>
      && !a.openFault && a.sourceFault.None?
      && 1 <= |Flatten(a.chunks)| == lease.inputBytes <= MAX_INPUT_BYTES
      && sha256(Flatten(a.chunks)) == lease.inputSha256
  {
  }

  // ----- The bridge -----------------------------------------------------------------------

  datatype Availability = Initial | Available | Unavailable

  datatype Poll = Poll(
    readinessFault: bool, heartbeatFault: bool, leaseFault: bool,
    workerImageDigest: string, lease: Option<WorkLease>, leasedNow: int, answers: Answers)

  class LocalIngestionBridge {
    const sha256: seq<nat> -> string
    var availability: Availability
    // What has been sent out so far.
    ghost var completions: seq<Completion>
    ghost var puts: seq<Metadata>
    ghost var cleanups: nat
    ghost var events: seq<Event>

    constructor (sha256: seq<nat> -> string)
      ensures this.sha256 == sha256 && availability == Initial
      ensures completions == [] && puts == [] && cleanups == 0 && events == []
    {
      this.sha256 := sha256;
      availability, completions, puts, cleanups, events := Initial, [], [], 0, [];
    }

    method StageLeaseInput(lease: WorkLease, a: Answers) returns (fault: Option<Fault>)
      ensures fault == StagingFault(lease, a, sha256)
    {
      if lease.inputBytes < 1 || lease.inputBytes > MAX_INPUT_BYTES {
        return Some(Coded("hash_mismatch"));
      }
      if a.openFault {
        return Some(Foreign);
      }
      var received: seq<nat> := [];
      assert a.chunks[..0] == [];
      for i := 0 to |a.chunks|
        invariant received == Flatten(a.chunks[..i]) && |received| <= lease.inputBytes
      {
        assert a.chunks[..i + 1][..i] == a.chunks[..i];
        received := received + a.chunks[i];
        if |received| > lease.inputBytes || |received| > MAX_INPUT_BYTES {
          FlattenGrows(a.chunks, i + 1);
          return Some(Coded("hash_mismatch"));
        }
      }
      assert a.chunks[..|a.chunks|] == a.chunks;
      if a.sourceFault.Some? {
        return Some(Coded(CodeOf(a.sourceFault.value)));
      }
      if |received| != lease.inputBytes || sha256(received) != lease.inputSha256 {
        return Some(Coded("hash_mismatch"));
      }
      return None;
    }

    /** The body of the `try` block after the workspace exists. */
    method Produce(lease: WorkLease, a: Answers) returns (fault: Option<Fault>)
      requires a.createFault.None?
      modifies `puts
      ensures fault == FirstFault(lease, a, sha256)
      ensures puts == old(puts) + Handed(lease, a, sha256)
    {
      var staging := StageLeaseInput(lease, a);
      if staging.Some? {
        return staging;
      }
      if !IsCurrent(lease, a.stagedAt) {
        return Some(Coded(INFRASTRUCTURE));
      }
      if a.snapshotFault.Some? {
        return a.snapshotFault;
      }
      if a.snapshotVerified != Some(true) {
        return Some(Coded("scan_db_stale"));
      }
      if a.scanFault.Some? {
        return a.scanFault;
      }
      if !a.clean {
        return Some(Coded("malware_detected"));
      }
      if a.workerFault.Some? {
        return a.workerFault;
      }
      if a.validationFault.Some? {
        return a.validationFault;
      }
      if !IsCurrent(lease, a.producedAt) {
        return Some(Coded(INFRASTRUCTURE));
      }
      if a.output.None? || |a.output.value| < 1 || |a.output.value| > MAX_OUTPUT_BYTES {
        return Some(Coded("invalid_output"));
      }
      puts := puts + [Metadata(lease.leaseId, |a.output.value|, sha256(a.output.value))];
      return a.putFault;
    }

    method Process(lease: WorkLease, a: Answers) returns (r: Result)
      modifies `completions, `puts, `cleanups, `events
      ensures completions == old(completions) + [CompletionFor(lease, a, sha256)]
      ensures puts == old(puts) + if a.createFault.None? then Handed(lease, a, sha256) else []
      ensures cleanups == old(cleanups) + if a.createFault.None? then 1 else 0
      ensures r == if a.completeFault then Escaped
                   else if CompletionFor(lease, a, sha256).Success? then Completed else NotCompleted
      ensures events == old(events)
        + match r { case Completed => [LeaseCompleted] case NotCompleted => [LeaseFailed] case _ => [] }
    {
      var failure: Option<string> := None;
      var outputAccepted := false;
      if a.createFault.Some? {
        failure := Some(CodeOf(a.createFault.value));
      } else {
        var fault := Produce(lease, a);
        if fault.Some? {
          failure := Some(CodeOf(fault.value));
        } else {
          outputAccepted := true;
        }
        cleanups := cleanups + 1;
        if a.cleanupFault {
          failure := Some(INFRASTRUCTURE);
        }
      }
      if failure.None? && outputAccepted && IsCurrent(lease, a.finishedAt) {
        completions := completions + [Success(lease.leaseId)];
        if a.completeFault {
          return Escaped;
        }
        events := events + [LeaseCompleted];
        return Completed;
      }
      var code := if failure.Some? then failure.value else INFRASTRUCTURE;
      completions := completions + [Failed(lease.leaseId, code)];
      if a.completeFault {
        return Escaped;
      }
      events := events + [LeaseFailed];
      return NotCompleted;
    }

    method RunOnce(p: Poll) returns (r: Result)
      modifies this
      ensures p.lease.None? ==> completions == old(completions)
      ensures p.lease.Some? ==> completions == old(completions) + Answered(p, sha256)
      ensures puts == old(puts) + PutBy(p, sha256)
      ensures events == old(events) + Announced(old(availability), p) + Logged(p, sha256)
      ensures availability == if Reaches(p) then Available else old(availability)
      ensures r == PollResult(p, sha256)
    {
      if p.readinessFault || p.heartbeatFault {
        return Escaped;
      }
      if availability != Available {
        events := events + [BridgeAvailable];
        availability := Available;
      }
      if p.leaseFault {
        return Escaped;
      }
      if p.lease.None? {
        return Idle;
      }
      var lease := p.lease.value;
      if lease.workerImageDigest != p.workerImageDigest || !IsCurrent(lease, p.leasedNow) {
        return Escaped;
      }
      r := Process(lease, p.answers);
    }

    method Run(polls: seq<Poll>)
      requires availability == Initial && completions == [] && puts == [] && events == []
      modifies this
      ensures completions == AllAnswered(polls, sha256) && puts == AllPut(polls, sha256)
      ensures Alternates(AvailabilityEvents(events))
      ensures Consistent(availability, AvailabilityEvents(events))
    {
      assert polls[..0] == [];
      for i := 0 to |polls|
        invariant completions == AllAnswered(polls[..i], sha256) && puts == AllPut(polls[..i], sha256)
        invariant Alternates(AvailabilityEvents(events)) && Consistent(availability, AvailabilityEvents(events))
      {
        assert polls[..i + 1][..i] == polls[..i];
        ghost var before := events;
        var was := availability;
        var r := RunOnce(polls[i]);
        AnnouncementEvent(was, before, polls[i]);
        LeaseEventsAreNotAvailabilityEvents(before + Announced(was, polls[i]), polls[i], sha256);
        if r == Escaped && availability != Unavailable {
          FailureEvent(events, availability);
          events := events + [PollFailed];
          availability := Unavailable;
        }
      }
      assert polls[..|polls|] == polls;
    }
  }

  /** The metadata handed to the API: of a non-empty output, and only past every earlier gate. */
  function Handed(lease: WorkLease, a: Answers, sha256: seq<nat> -> string): seq<Metadata> {
    if FirstFault(lease, a.(putFault := None), sha256).None? && a.output.Some?
    then [Metadata(lease.leaseId, |a.output.value|, sha256(a.output.value))]
    else []
  }

  // ----- Polls in specification form ------------------------------------------------------

  predicate Reaches(p: Poll) {
    !p.readinessFault && !p.heartbeatFault
  }

  /** A lease is processed only for the worker image just announced, and only while it is current. */
  predicate Processes(p: Poll) {
    && Reaches(p) && !p.leaseFault && p.lease.Some?
    && p.lease.value.workerImageDigest == p.workerImageDigest && IsCurrent(p.lease.value, p.leasedNow)
  }

  function Answered(p: Poll, sha256: seq<nat> -> string): seq<Completion> {
    if Processes(p) then [CompletionFor(p.lease.value, p.answers, sha256)] else []
  }

  function AllAnswered(polls: seq<Poll>, sha256: seq<nat> -> string): seq<Completion> {
    if polls == [] then [] else AllAnswered(polls[..|polls| - 1], sha256) + Answered(polls[|polls| - 1], sha256)
  }

  function PutBy(p: Poll, sha256: seq<nat> -> string): seq<Metadata> {
    if Processes(p) && p.answers.createFault.None? then Handed(p.lease.value, p.answers, sha256) else []
  }

  function AllPut(polls: seq<Poll>, sha256: seq<nat> -> string): seq<Metadata> {
    if polls == [] then [] else AllPut(polls[..|polls| - 1], sha256) + PutBy(polls[|polls| - 1], sha256)
  }

  function PollResult(p: Poll, sha256: seq<nat> -> string): Result {
    if Processes(p) then
      if p.answers.completeFault then Escaped
      else if CompletionFor(p.lease.value, p.answers, sha256).Success? then Completed else NotCompleted
    else if Reaches(p) && !p.leaseFault && p.lease.None? then Idle
    else Escaped
  }

  function Announced(was: Availability, p: Poll): seq<Event> {
    if Reaches(p) && was != Available then [BridgeAvailable] else []
  }

  function Logged(p: Poll, sha256: seq<nat> -> string): seq<Event> {
    match PollResult(p, sha256)
    case Completed => [LeaseCompleted]
    case NotCompleted => [LeaseFailed]
    case _ => []
  }

  // ----- The log of a run -----------------------------------------------------------------

  function AvailabilityEvents(events: seq<Event>): seq<Event> {
    if events == [] then [] else
    var last := events[|events| - 1];
    AvailabilityEvents(events[..|events| - 1]) + if last == BridgeAvailable || last == PollFailed then [last] else []
  }

  ghost predicate Alternates(log: seq<Event>) {
    forall i :: 0 < i < |log| ==> log[i] != log[i - 1]
  }

  predicate Consistent(availability: Availability, log: seq<Event>) {
    match availability
    case Initial => log == []
    case Available => log != [] && log[|log| - 1] == BridgeAvailable
    case Unavailable => log != [] && log[|log| - 1] == PollFailed
  }

  lemma OneMoreEvent(events: seq<Event>, event: Event)
    ensures AvailabilityEvents(events + [event])
      == AvailabilityEvents(events) + if event == BridgeAvailable || event == PollFailed then [event] else []
  {
    assert (events + [event])[..|events|] == events;
  }

  lemma AlternatesWithOneMore(log: seq<Event>, event: Event)
    requires Alternates(log) && (log == [] || log[|log| - 1] != event)
    ensures Alternates(log + [event])
  {
  }

  lemma FailureEvent(events: seq<Event>, availability: Availability)
    requires Alternates(AvailabilityEvents(events)) && Consistent(availability, AvailabilityEvents(events))
    requires availability != Unavailable
    ensures Alternates(AvailabilityEvents(events + [PollFailed]))
    ensures Consistent(Unavailable, AvailabilityEvents(events + [PollFailed]))
  {
    OneMoreEvent(events, PollFailed);
    AlternatesWithOneMore(AvailabilityEvents(events), PollFailed);
  }

  lemma AnnouncementEvent(was: Availability, before: seq<Event>, p: Poll)
    requires Alternates(AvailabilityEvents(before)) && Consistent(was, AvailabilityEvents(before))
    ensures var log := AvailabilityEvents(before + Announced(was, p));
      Alternates(log) && Consistent(if Reaches(p) then Available else was, log)
  {
    if Reaches(p) && was != Available {
      OneMoreEvent(before, BridgeAvailable);
      AlternatesWithOneMore(AvailabilityEvents(before), BridgeAvailable);
    } else {
      assert before + Announced(was, p) == before;
    }
  }

  lemma LeaseEventsAreNotAvailabilityEvents(before: seq<Event>, p: Poll, sha256: seq<nat> -> string)
    ensures AvailabilityEvents(before + Logged(p, sha256)) == AvailabilityEvents(before)
  {
    match PollResult(p, sha256)
    case Completed => OneMoreEvent(before, LeaseCompleted);
    case NotCompleted => OneMoreEvent(before, LeaseFailed);
    case _ => assert before + Logged(p, sha256) == before;
  }

  // ----- Bridge and broker together -------------------------------------------------------

  /** The broker accepts exactly an output that is, byte for byte under the hash, the one the bridge
      measured; a success completion under the same lease then resolves the caller with it. */
  lemma AcceptedOutputReachesTheCaller(
    b: Broker, config: Config, measured: seq<nat>, chunks: seq<seq<nat>>, staged: int, completed: int)
    requires b.active.Some?
    requires Current(b.active, b.active.value.leaseId, staged) && Current(b.active, b.active.value.leaseId, completed)
    requires b.active.value.staged.None? && b.active.value.leaseId !in b.staging
    requires 1 <= |measured| <= MAX_OUTPUT_BYTES
    ensures
      var leaseId, e := b.active.value.leaseId, b.active.value.execution;
      var metadata := Metadata(leaseId, |measured|, config.sha256(measured));
      var opening := Step(b, BeginStage(leaseId, Some(metadata), staged), config);
      var put := Step(opening.0, EndStage(leaseId, chunks, false), config);
      var left := Step(put.0, BeginComplete(leaseId, Some(Success(leaseId)), completed), config);
      var ended := Step(left.0, EndSettling(e, true), config);
      && (put.1 == Done <==>
           |Flatten(chunks)| == |measured| && config.sha256(Flatten(chunks)) == config.sha256(measured))
      && (put.1 == Done ==>
           e in ended.0.settled && ended.0.settled[e] == Resolved(leaseId, Staged(metadata, Flatten(chunks))))
      && (put.1 != Done ==>
           left.1 == Threw(OutputMissing) && e in left.0.settled && left.0.settled[e] == Rejected(InvalidOutput))
  {
  }
}
