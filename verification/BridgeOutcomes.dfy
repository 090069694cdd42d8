/** How the bridge answers for a lease, told by the first demand that was not met while it was processed. */
module BridgeOutcomes {
  import opened Wrappers
  import opened IngestionBroker
  import opened BridgeWorker

  /** What a lease demands, in the order in which it is met. */
  datatype Demand =
    | WorkspaceCreated
    | InputAllowed
    | InputOpened
    | InputNotTooLong
    | InputReadThrough
    | InputAsLeased
    | CurrentWhenStaged
    | SnapshotTaken
    | SnapshotVerified
    | ScanDone
    | InputClean
    | WorkerDone
    | DocumentValid
    | CurrentWhenProduced
    | OutputAllowed
    | OutputPut
    | CleanedUp
    | CurrentWhenFinished

  function Place(d: Demand): nat {
    match d
    case WorkspaceCreated => 0
    case InputAllowed => 1
    case InputOpened => 2
    case InputNotTooLong => 3
    case InputReadThrough => 4
    case InputAsLeased => 5
    case CurrentWhenStaged => 6
    case SnapshotTaken => 7
    case SnapshotVerified => 8
    case ScanDone => 9
    case InputClean => 10
    case WorkerDone => 11
    case DocumentValid => 12
    case CurrentWhenProduced => 13
    case OutputAllowed => 14
    case OutputPut => 15
    case CleanedUp => 16
    case CurrentWhenFinished => 17
  }

  /** Five minutes of skew are allowed at the beginning of a lease, none at its end. */
  ghost predicate Within(lease: WorkLease, now: int) {
    lease.leasedAt - 300_000 <= now < lease.expiresAt
  }

  ghost predicate Met(lease: WorkLease, a: Answers, sha256: seq<nat> -> string, d: Demand) {
    match d
    case WorkspaceCreated => a.createFault.None?
    case InputAllowed => 1 <= lease.inputBytes <= 52_428_800
    case InputOpened => !a.openFault
    case InputNotTooLong => |Flatten(a.chunks)| <= lease.inputBytes
    case InputReadThrough => a.sourceFault.None?
    case InputAsLeased =>
      |Flatten(a.chunks)| == lease.inputBytes && sha256(Flatten(a.chunks)) == lease.inputSha256
    case CurrentWhenStaged => Within(lease, a.stagedAt)
    case SnapshotTaken => a.snapshotFault.None?
    case SnapshotVerified => a.snapshotVerified == Some(true)
    case ScanDone => a.scanFault.None?
    case InputClean => a.clean
    case WorkerDone => a.workerFault.None?
    case DocumentValid => a.validationFault.None?
    case CurrentWhenProduced => Within(lease, a.producedAt)
    case OutputAllowed => a.output.Some? && 1 <= |a.output.value| <= 536_870_912
    case OutputPut => a.putFault.None?
    case CleanedUp => !a.cleanupFault
    case CurrentWhenFinished => Within(lease, a.finishedAt)
  }

  ghost predicate MetBefore(lease: WorkLease, a: Answers, sha256: seq<nat> -> string, d: Demand) {
    forall e :: Place(e) < Place(d) ==> Met(lease, a, sha256, e)
  }

  ghost predicate FailsFirst(lease: WorkLease, a: Answers, sha256: seq<nat> -> string, d: Demand) {
    !Met(lease, a, sha256, d) && MetBefore(lease, a, sha256, d)
  }

  ghost predicate AllMet(lease: WorkLease, a: Answers, sha256: seq<nat> -> string) {
    forall d :: Met(lease, a, sha256, d)
  }

  /** A dependency's own code, if it gave one. */
  ghost predicate Codes(fault: Option<Fault>, code: string) {
    fault.Some? && if fault.value.Coded? then code == fault.value.code else code == "infrastructure_unavailable"
  }

  /** The code that a demand gives when it is the first that is not met. */
  ghost predicate CodeFor(a: Answers, d: Demand, code: string) {
    match d
    case WorkspaceCreated => Codes(a.createFault, code)
    case InputAllowed => code == "hash_mismatch"
    case InputOpened => code == "infrastructure_unavailable"
    case InputNotTooLong => code == "hash_mismatch"
    case InputReadThrough => Codes(a.sourceFault, code)
    case InputAsLeased => code == "hash_mismatch"
    case CurrentWhenStaged => code == "infrastructure_unavailable"
    case SnapshotTaken => Codes(a.snapshotFault, code)
    case SnapshotVerified => code == "scan_db_stale"
    case ScanDone => Codes(a.scanFault, code)
    case InputClean => code == "malware_detected"
    case WorkerDone => Codes(a.workerFault, code)
    case DocumentValid => Codes(a.validationFault, code)
    case CurrentWhenProduced => code == "infrastructure_unavailable"
    case OutputAllowed => code == "invalid_output"
    case OutputPut => Codes(a.putFault, code)
    case CleanedUp => code == "infrastructure_unavailable"
    case CurrentWhenFinished => code == "infrastructure_unavailable"
  }

  lemma SomethingFailsFirst(lease: WorkLease, a: Answers, sha256: seq<nat> -> string, d: Demand)
    returns (first: Demand)
    requires !Met(lease, a, sha256, d)
    ensures FailsFirst(lease, a, sha256, first) && Place(first) <= Place(d)
    decreases Place(d)
  {
    if e :| Place(e) < Place(d) && !Met(lease, a, sha256, e) {
      first := SomethingFailsFirst(lease, a, sha256, e);
    } else {
      first := d;
    }
  }

  lemma StagingFailsAtItsFirst(lease: WorkLease, a: Answers, sha256: seq<nat> -> string, d: Demand)
    requires FailsFirst(lease, a, sha256, d)
    ensures Place(d) == 0 <==> a.createFault.Some?
    ensures Place(d) > 5 ==> StagingFault(lease, a, sha256).None?
    ensures 1 <= Place(d) <= 5 ==>
      StagingFault(lease, a, sha256).Some? && CodeFor(a, d, CodeOf(StagingFault(lease, a, sha256).value))
  {
    InputDemandsMet(lease, a, sha256, d);
  }

  lemma InputDemandsMet(lease: WorkLease, a: Answers, sha256: seq<nat> -> string, d: Demand)
    requires MetBefore(lease, a, sha256, d)
    ensures Place(d) > 0 ==> Met(lease, a, sha256, WorkspaceCreated)
    ensures Place(d) > 1 ==> Met(lease, a, sha256, InputAllowed)
    ensures Place(d) > 2 ==> Met(lease, a, sha256, InputOpened)
    ensures Place(d) > 3 ==> Met(lease, a, sha256, InputNotTooLong)
    ensures Place(d) > 4 ==> Met(lease, a, sha256, InputReadThrough)
    ensures Place(d) > 5 ==> Met(lease, a, sha256, InputAsLeased)
  {
    assert Place(WorkspaceCreated) == 0 && Place(InputAllowed) == 1 && Place(InputOpened) == 2;
    assert Place(InputNotTooLong) == 3 && Place(InputReadThrough) == 4 && Place(InputAsLeased) == 5;
  }

  lemma LaterDemandsMet(lease: WorkLease, a: Answers, sha256: seq<nat> -> string, d: Demand)
    requires MetBefore(lease, a, sha256, d)
    ensures Place(d) > 6 ==> Met(lease, a, sha256, CurrentWhenStaged)
    ensures Place(d) > 7 ==> Met(lease, a, sha256, SnapshotTaken)
    ensures Place(d) > 8 ==> Met(lease, a, sha256, SnapshotVerified)
    ensures Place(d) > 9 ==> Met(lease, a, sha256, ScanDone)
    ensures Place(d) > 10 ==> Met(lease, a, sha256, InputClean)
    ensures Place(d) > 11 ==> Met(lease, a, sha256, WorkerDone)
    ensures Place(d) > 12 ==> Met(lease, a, sha256, DocumentValid)
    ensures Place(d) > 13 ==> Met(lease, a, sha256, CurrentWhenProduced)
    ensures Place(d) > 14 ==> Met(lease, a, sha256, OutputAllowed)
    ensures Place(d) > 15 ==> Met(lease, a, sha256, OutputPut)
    ensures Place(d) > 16 ==> Met(lease, a, sha256, CleanedUp)
  {
    assert Place(CurrentWhenStaged) == 6 && Place(SnapshotTaken) == 7 && Place(SnapshotVerified) == 8;
    assert Place(ScanDone) == 9 && Place(InputClean) == 10 && Place(WorkerDone) == 11;
    assert Place(DocumentValid) == 12 && Place(CurrentWhenProduced) == 13 && Place(OutputAllowed) == 14;
    assert Place(OutputPut) == 15 && Place(CleanedUp) == 16;
  }

  lemma WithinIsCurrent(lease: WorkLease, now: int)
    ensures IsCurrent(lease, now) <==> Within(lease, now)
  {
  }

  lemma InputFaultIsThatOfTheFirst(lease: WorkLease, a: Answers, sha256: seq<nat> -> string, d: Demand)
    requires FailsFirst(lease, a, sha256, d) && Place(d) <= 5
    ensures FirstFault(lease, a, sha256).Some? && CodeFor(a, d, CodeOf(FirstFault(lease, a, sha256).value))
  {
    StagingFailsAtItsFirst(lease, a, sha256, d);
  }

  lemma LaterFaultIsThatOfTheFirst(lease: WorkLease, a: Answers, sha256: seq<nat> -> string, d: Demand)
    requires FailsFirst(lease, a, sha256, d) && Place(d) > 5
    ensures Place(d) > 15 ==> FirstFault(lease, a, sha256).None?
    ensures Place(d) <= 15 ==>
      FirstFault(lease, a, sha256).Some? && CodeFor(a, d, CodeOf(FirstFault(lease, a, sha256).value))
  {
    StagingFailsAtItsFirst(lease, a, sha256, d);
    LaterDemandsMet(lease, a, sha256, d);
  }

  /** The fault found is that of the first demand, up to the put, that is not met. */
  lemma FaultIsThatOfTheFirst(lease: WorkLease, a: Answers, sha256: seq<nat> -> string, d: Demand)
    requires FailsFirst(lease, a, sha256, d)
    ensures Place(d) > 15 ==> FirstFault(lease, a, sha256).None?
    ensures Place(d) <= 15 ==>
      FirstFault(lease, a, sha256).Some? && CodeFor(a, d, CodeOf(FirstFault(lease, a, sha256).value))
  {
    if Place(d) <= 5 {
      InputFaultIsThatOfTheFirst(lease, a, sha256, d);
    } else {
      LaterFaultIsThatOfTheFirst(lease, a, sha256, d);
    }
  }

  /** The completion names the first demand that was not met; only a failed cleanup of a workspace that was
      created comes before it. A lease that met every demand is completed with success. */
  lemma CompletionNamesTheFirstUnmet(lease: WorkLease, a: Answers, sha256: seq<nat> -> string)
    ensures CompletionFor(lease, a, sha256).leaseId == lease.leaseId
    ensures forall d :: FailsFirst(lease, a, sha256, d) ==>
      && CompletionFor(lease, a, sha256).Failed?
      && if a.createFault.None? && a.cleanupFault
         then CompletionFor(lease, a, sha256).code == "infrastructure_unavailable"
         else CodeFor(a, d, CompletionFor(lease, a, sha256).code)
    ensures AllMet(lease, a, sha256) ==> CompletionFor(lease, a, sha256).Success?
  {
    forall d | FailsFirst(lease, a, sha256, d)
      ensures CompletionFor(lease, a, sha256).Failed?
      ensures if a.createFault.None? && a.cleanupFault
              then CompletionFor(lease, a, sha256).code == "infrastructure_unavailable"
              else CodeFor(a, d, CompletionFor(lease, a, sha256).code)
    {
      CompletionNamesIt(lease, a, sha256, d);
    }
    if AllMet(lease, a, sha256) {
      AllMetCompletes(lease, a, sha256);
    }
  }

  lemma CompletionNamesIt(lease: WorkLease, a: Answers, sha256: seq<nat> -> string, d: Demand)
    requires FailsFirst(lease, a, sha256, d)
    ensures CompletionFor(lease, a, sha256).Failed?
    ensures if a.createFault.None? && a.cleanupFault
            then CompletionFor(lease, a, sha256).code == "infrastructure_unavailable"
            else CodeFor(a, d, CompletionFor(lease, a, sha256).code)
  {
    FaultIsThatOfTheFirst(lease, a, sha256, d);
    StagingFailsAtItsFirst(lease, a, sha256, d);
    WithinIsCurrent(lease, a.finishedAt);
    assert Place(d) > 15 ==> d == CleanedUp || d == CurrentWhenFinished;
  }

  lemma AllMetCompletes(lease: WorkLease, a: Answers, sha256: seq<nat> -> string)
    requires AllMet(lease, a, sha256)
    ensures CompletionFor(lease, a, sha256) == Success(lease.leaseId)
  {
    NoFaultWhenMet(lease, a, sha256);
    WithinIsCurrent(lease, a.finishedAt);
    assert Met(lease, a, sha256, CleanedUp) && Met(lease, a, sha256, CurrentWhenFinished);
  }

  lemma NoFaultWhenMet(lease: WorkLease, a: Answers, sha256: seq<nat> -> string)
    requires MetBefore(lease, a, sha256, CleanedUp)
    ensures FirstFault(lease, a, sha256).None?
  {
    InputDemandsMet(lease, a, sha256, CleanedUp);
    LaterDemandsMet(lease, a, sha256, CleanedUp);
    StagingPassesExactlyOnTheLeasedBytes(lease, a, sha256);
  }

  lemma MetWhateverThePut(lease: WorkLease, a: Answers, sha256: seq<nat> -> string, d: Demand)
    requires d != OutputPut
    ensures Met(lease, a.(putFault := None), sha256, d) <==> Met(lease, a, sha256, d)
  {
  }

  /** Exactly when every demand before the put was met is something put: the bytes produced, measured and
      hashed, under the lease they were produced for. */
  lemma PutExactlyWhenProduced(lease: WorkLease, a: Answers, sha256: seq<nat> -> string)
    ensures a.createFault.None? && Handed(lease, a, sha256) != [] <==> MetBefore(lease, a, sha256, OutputPut)
    ensures MetBefore(lease, a, sha256, OutputPut) ==>
      && a.output.Some?
      && Handed(lease, a, sha256) == [Metadata(lease.leaseId, |a.output.value|, sha256(a.output.value))]
  {
    var put := a.(putFault := None);
    if MetBefore(lease, a, sha256, OutputPut) {
      forall e | Place(e) < Place(CleanedUp)
        ensures Met(lease, put, sha256, e)
      {
        if e != OutputPut {
          MetWhateverThePut(lease, a, sha256, e);
        }
      }
      NoFaultWhenMet(lease, put, sha256);
      InputDemandsMet(lease, a, sha256, OutputPut);
      LaterDemandsMet(lease, a, sha256, OutputPut);
    } else {
      var e :| Place(e) < Place(OutputPut) && !Met(lease, a, sha256, e);
      MetWhateverThePut(lease, a, sha256, e);
      var d := SomethingFailsFirst(lease, put, sha256, e);
      FaultIsThatOfTheFirst(lease, put, sha256, d);
    }
  }

  // ----- One poll -------------------------------------------------------------------------

  /** The bridge was announced, and a lease came back for the announced image while it was current. */
  ghost predicate Accepts(p: Poll) {
    && !p.readinessFault && !p.heartbeatFault && !p.leaseFault
    && p.lease.Some? && p.lease.value.workerImageDigest == p.workerImageDigest && Within(p.lease.value, p.leasedNow)
  }

  /** A poll is answered for its lease exactly if it accepts one, idle exactly if it was offered none, and
      anything else escapes, as does a completion that could not be delivered. */
  lemma EachPollEndsAsTold(p: Poll, sha256: seq<nat> -> string)
    ensures PollResult(p, sha256) == Idle <==>
      !p.readinessFault && !p.heartbeatFault && !p.leaseFault && p.lease.None?
    ensures PollResult(p, sha256) == Completed <==>
      Accepts(p) && !p.answers.completeFault && AllMet(p.lease.value, p.answers, sha256)
    ensures PollResult(p, sha256) == NotCompleted <==>
      Accepts(p) && !p.answers.completeFault && !AllMet(p.lease.value, p.answers, sha256)
    ensures if Accepts(p) then Answered(p, sha256) == [CompletionFor(p.lease.value, p.answers, sha256)]
            else Answered(p, sha256) == [] && PutBy(p, sha256) == []
    ensures PutBy(p, sha256) != [] <==> Accepts(p) && MetBefore(p.lease.value, p.answers, sha256, OutputPut)
  {
    if p.lease.Some? {
      var lease, a := p.lease.value, p.answers;
      WithinIsCurrent(lease, p.leasedNow);
      CompletionNamesTheFirstUnmet(lease, a, sha256);
      PutExactlyWhenProduced(lease, a, sha256);
      if !AllMet(lease, a, sha256) {
        var d :| !Met(lease, a, sha256, d);
        var first := SomethingFailsFirst(lease, a, sha256, d);
      }
    }
  }
}
