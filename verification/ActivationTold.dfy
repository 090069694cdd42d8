/** What is known of every operation, told from the events of the history alone: what was planned, which
    claims were granted, and how each run ended. */
module ActivationTold {
  import opened Wrappers
  import opened ActivationOperations
  import opened ActivationRuns

  // ----- What the events so far say ----------------------------------------------------------

  /** The kind under which the operation was planned first. */
  function KindIn(h: History, id: string): Option<Kind> {
    match h
    case Start => None
    case Then(before, event) =>
      if KindIn(before, id).Some? then KindIn(before, id)
      else if event.Plan? then FirstPlanned(event.planned, id)
      else None
  }

  function FirstPlanned(planned: seq<Planned>, id: string): Option<Kind> {
    if planned == [] then None
    else if planned[0].id == id then Some(planned[0].kind)
    else FirstPlanned(planned[1..], id)
  }

  /** How many service calls there have been; each is numbered by it. */
  function CallsIn(h: History): nat {
    match h
    case Start => 0
    case Then(before, event) => CallsIn(before) + if event.Claim? then 1 else 0
  }

  /** What happened to the operation last. */
  datatype Last = Untouched | HeldBy(run: nat) | Made | Failed(failureClass: string, retryable: bool)

  /** A claim is granted for a planned operation that nobody holds and that is neither made nor failed for
      good; only the run that holds an operation makes or fails it. */
  function LastOf(h: History, id: string): Last {
    match h
    case Start => Untouched
    case Then(before, event) =>
      var last := LastOf(before, id);
      match event
      case Plan(_) => last
      case Claim(authorized, claimed) =>
        if claimed == id && authorized && KindIn(before, id).Some? && Open(last) then HeldBy(CallsIn(before)) else last
      case Generated(run, _) => if last == HeldBy(run) then Made else last
      case Broke(run, failureClass, retryable) => if last == HeldBy(run) then Failed(failureClass, retryable) else last
  }

  predicate Open(last: Last) {
    last.Untouched? || (last.Failed? && last.retryable)
  }

  /** How many claims of the operation were granted. */
  function GrantsOf(h: History, id: string): nat {
    match h
    case Start => 0
    case Then(before, event) =>
      GrantsOf(before, id) + if LastOf(h, id).HeldBy? && LastOf(h, id) != LastOf(before, id) then 1 else 0
  }

  predicate GrantedIn(before: History, authorized: bool, id: string) {
    authorized && KindIn(before, id).Some? && Open(LastOf(before, id))
  }

  /** The operation that this service call holds. */
  function HeldIn(h: History, run: nat): Option<string> {
    match h
    case Start => None
    case Then(before, event) =>
      match event
      case Plan(_) => HeldIn(before, run)
      case Claim(authorized, id) =>
        if CallsIn(before) != run then HeldIn(before, run)
        else if GrantedIn(before, authorized, id) then Some(id)
        else None
      case Generated(r, _) => if r == run then None else HeldIn(before, run)
      case Broke(r, _, _) => if r == run then None else HeldIn(before, run)
  }

  /** The content stored under an artifact's identifier, as a lesson or as a quiz bank: what the last run that
      held its operation generated. */
  function ContentOf(h: History, artifactOf: string -> string, artifact: string, lesson: bool): Option<string> {
    match h
    case Start => None
    case Then(before, event) =>
      if event.Generated? && HeldIn(before, event.run).Some? && artifactOf(HeldIn(before, event.run).value) == artifact
         && (KindIn(before, HeldIn(before, event.run).value) == Some(FirstTextLesson)) == lesson
      then Some(event.content)
      else ContentOf(before, artifactOf, artifact, lesson)
  }

  /** What is known of an operation of this kind. */
  function OperationOf(h: History, artifactOf: string -> string, id: string, kind: Kind): Operation {
    var attempts := GrantsOf(h, id);
    match LastOf(h, id)
    case Untouched => Operation(kind, None, attempts, None, false, Queued)
    case HeldBy(_) => Operation(kind, None, attempts, None, false, Processing)
    case Made => Operation(kind, Some(artifactOf(id)), attempts, None, false, Succeeded)
    case Failed(failureClass, retryable) =>
      Operation(kind, None, attempts, Some(failureClass), retryable,
                if retryable then RetryScheduled else FailedPermanent)
  }

  // ----- What the system holds is what the events say ----------------------------------------

  function Get<K, V>(m: map<K, V>, k: K): Option<V> {
    if k in m then Some(m[k]) else None
  }

  ghost predicate OperationTold(h: History, s: System, artifactOf: string -> string, id: string) {
    Get(s.operations, id) ==
      if KindIn(h, id).None? then None else Some(OperationOf(h, artifactOf, id, KindIn(h, id).value))
  }

  ghost predicate RunTold(h: History, s: System, run: nat) {
    && (run >= CallsIn(h) ==> HeldIn(h, run).None?)
    && Get(s.running, run) ==
         if HeldIn(h, run).None? || KindIn(h, HeldIn(h, run).value).None? then None
         else Some(Run(HeldIn(h, run).value, KindIn(h, HeldIn(h, run).value).value))
  }

  ghost predicate HolderTold(h: History, run: nat, id: string) {
    && (LastOf(h, id) == HeldBy(run) <==> HeldIn(h, run) == Some(id))
    && (HeldIn(h, run) == Some(id) ==> KindIn(h, id).Some?)
  }

  ghost predicate ContentTold(h: History, s: System, artifactOf: string -> string, artifact: string) {
    && Get(s.lessons, artifact) == ContentOf(h, artifactOf, artifact, true)
    && Get(s.quizBanks, artifact) == ContentOf(h, artifactOf, artifact, false)
  }

  ghost predicate Told(h: History, s: System, artifactOf: string -> string) {
    && s.started == CallsIn(h)
    && (forall id :: OperationTold(h, s, artifactOf, id))
    && (forall run :: RunTold(h, s, run))
    && (forall run, id :: HolderTold(h, run, id))
    && (forall artifact :: ContentTold(h, s, artifactOf, artifact))
  }

  // ----- One more event -----------------------------------------------------------------------

  lemma {:induction false} RegisterTold(operations: map<string, Operation>, planned: seq<Planned>, id: string)
    ensures Get(Register(operations, planned), id) ==
      if id in operations then Some(operations[id])
      else if FirstPlanned(planned, id).Some? then Some(Fresh(FirstPlanned(planned, id).value)) else None
  {
    if planned != [] {
      var front, last := planned[..|planned| - 1], planned[|planned| - 1];
      RegisterTold(operations, front, id);
      FirstPlannedAppend(front, last, id);
      assert planned == front + [last];
    }
  }

  lemma {:induction false} FirstPlannedAppend(front: seq<Planned>, last: Planned, id: string)
    ensures FirstPlanned(front + [last], id) ==
      if FirstPlanned(front, id).Some? then FirstPlanned(front, id)
      else if last.id == id then Some(last.kind) else None
  {
    if front == [] {
      assert front + [last] == [last] && [last][1..] == [];
    } else {
      FirstPlannedAppend(front[1..], last, id);
      assert (front + [last])[0] == front[0] && (front + [last])[1..] == front[1..] + [last];
    }
  }

  /** A planned operation that was not known before is untouched. */
  lemma {:induction false} UnplannedIsUntouched(h: History, id: string)
    ensures KindIn(h, id).None? ==> LastOf(h, id) == Untouched && GrantsOf(h, id) == 0
  {
    if h.Then? {
      UnplannedIsUntouched(h.before, id);
    }
  }

  lemma OperationToldAfterPlan(h: History, s: System, planned: seq<Planned>, artifactOf: string -> string, id: string)
    requires OperationTold(h, s, artifactOf, id)
    ensures OperationTold(Then(h, Plan(planned)), Step(s, Plan(planned), artifactOf), artifactOf, id)
  {
    RegisterTold(s.operations, planned, id);
    UnplannedIsUntouched(h, id);
    UnplannedIsUntouched(Then(h, Plan(planned)), id);
  }

  lemma ClaimableAsTold(h: History, s: System, artifactOf: string -> string, authorized: bool, id: string)
    requires OperationTold(h, s, artifactOf, id)
    ensures Claimable(s.operations, authorized, id) <==> GrantedIn(h, authorized, id)
  {
  }

  lemma OperationToldAfterClaim(h: History, s: System, authorized: bool, claimed: string,
                                artifactOf: string -> string, id: string)
    requires OperationTold(h, s, artifactOf, id) && OperationTold(h, s, artifactOf, claimed)
    requires forall run: nat :: HolderTold(h, run, id) && RunTold(h, s, run)
    ensures OperationTold(Then(h, Claim(authorized, claimed)), Step(s, Claim(authorized, claimed), artifactOf),
                          artifactOf, id)
  {
    ClaimableAsTold(h, s, artifactOf, authorized, claimed);
    assert HolderTold(h, CallsIn(h), id) && RunTold(h, s, CallsIn(h));
  }

  lemma OperationToldAfterEnd(h: History, s: System, event: Event, artifactOf: string -> string, id: string)
    requires event.Generated? || event.Broke?
    requires OperationTold(h, s, artifactOf, id) && RunTold(h, s, event.run)
    requires HolderTold(h, event.run, id)
    requires HeldIn(h, event.run).Some? ==>
      && OperationTold(h, s, artifactOf, HeldIn(h, event.run).value)
      && HolderTold(h, event.run, HeldIn(h, event.run).value)
    ensures OperationTold(Then(h, event), Step(s, event, artifactOf), artifactOf, id)
  {
  }

  lemma OperationToldAfterStep(h: History, s: System, event: Event, artifactOf: string -> string, id: string)
    requires Told(h, s, artifactOf)
    ensures OperationTold(Then(h, event), Step(s, event, artifactOf), artifactOf, id)
  {
    assert OperationTold(h, s, artifactOf, id);
    match event
    case Plan(planned) => OperationToldAfterPlan(h, s, planned, artifactOf, id);
    case Claim(authorized, claimed) =>
      assert OperationTold(h, s, artifactOf, claimed);
      OperationToldAfterClaim(h, s, authorized, claimed, artifactOf, id);
    case Generated(run, _) =>
      assert RunTold(h, s, run) && HolderTold(h, run, id);
      HeldIsKnown(h, s, artifactOf, run);
      OperationToldAfterEnd(h, s, event, artifactOf, id);
    case Broke(run, _, _) =>
      assert RunTold(h, s, run) && HolderTold(h, run, id);
      HeldIsKnown(h, s, artifactOf, run);
      OperationToldAfterEnd(h, s, event, artifactOf, id);
  }

  lemma HeldIsKnown(h: History, s: System, artifactOf: string -> string, run: nat)
    requires Told(h, s, artifactOf)
    ensures HeldIn(h, run).Some? ==>
      var id := HeldIn(h, run).value;
      && OperationTold(h, s, artifactOf, id) && HolderTold(h, run, id)
      && run in s.running && s.running[run].operationId == id && id in s.operations
    ensures HeldIn(h, run).None? ==> run !in s.running
  {
    assert RunTold(h, s, run);
    if HeldIn(h, run).Some? {
      assert OperationTold(h, s, artifactOf, HeldIn(h, run).value) && HolderTold(h, run, HeldIn(h, run).value);
    }
  }

  lemma HolderToldAfterStep(h: History, s: System, event: Event, artifactOf: string -> string, run: nat, id: string)
    requires Told(h, s, artifactOf)
    ensures HolderTold(Then(h, event), run, id)
  {
    assert HolderTold(h, run, id) && RunTold(h, s, run) && RunTold(h, s, CallsIn(h));
    match event
    case Plan(_) =>
    case Claim(_, claimed) => assert HolderTold(h, CallsIn(h), id);
    case Generated(r, _) => assert HolderTold(h, r, id);
    case Broke(r, _, _) => assert HolderTold(h, r, id);
  }

  lemma RunToldAfterStep(h: History, s: System, event: Event, artifactOf: string -> string, run: nat)
    requires Told(h, s, artifactOf)
    ensures RunTold(Then(h, event), Step(s, event, artifactOf), run)
  {
    assert RunTold(h, s, run);
    HeldIsKnown(h, s, artifactOf, run);
    match event
    case Plan(_) =>
    case Claim(authorized, claimed) =>
      assert OperationTold(h, s, artifactOf, claimed);
      ClaimableAsTold(h, s, artifactOf, authorized, claimed);
    case Generated(r, _) => HeldIsKnown(h, s, artifactOf, r);
    case Broke(r, _, _) => HeldIsKnown(h, s, artifactOf, r);
  }

  lemma ContentToldAfterStep(h: History, s: System, event: Event, artifactOf: string -> string, artifact: string)
    requires Told(h, s, artifactOf)
    ensures ContentTold(Then(h, event), Step(s, event, artifactOf), artifactOf, artifact)
  {
    assert ContentTold(h, s, artifactOf, artifact);
    if event.Generated? {
      HeldIsKnown(h, s, artifactOf, event.run);
      assert RunTold(h, s, event.run);
    }
  }

  /** In every history the system holds exactly what its events say. */
  lemma {:induction false} EveryHistoryIsTold(h: History, artifactOf: string -> string)
    ensures Told(h, After(h, artifactOf), artifactOf)
  {
    if h.Then? {
      var s, after := After(h.before, artifactOf), After(h, artifactOf);
      EveryHistoryIsTold(h.before, artifactOf);
      forall id
        ensures OperationTold(h, after, artifactOf, id)
      {
        OperationToldAfterStep(h.before, s, h.event, artifactOf, id);
      }
      forall run: nat
        ensures RunTold(h, after, run)
      {
        RunToldAfterStep(h.before, s, h.event, artifactOf, run);
      }
      forall run: nat, id
        ensures HolderTold(h, run, id)
      {
        HolderToldAfterStep(h.before, s, h.event, artifactOf, run, id);
      }
      forall artifact
        ensures ContentTold(h, after, artifactOf, artifact)
      {
        ContentToldAfterStep(h.before, s, h.event, artifactOf, artifact);
      }
    }
  }

  /** What is known of an operation: nothing until it is planned, and from then on what its last grant or the
      end of its last run made of it. */
  lemma OperationsAreAsTold(h: History, artifactOf: string -> string, id: string)
    ensures Get(After(h, artifactOf).operations, id) ==
      if KindIn(h, id).None? then None else Some(OperationOf(h, artifactOf, id, KindIn(h, id).value))
  {
    EveryHistoryIsTold(h, artifactOf);
    assert OperationTold(h, After(h, artifactOf), artifactOf, id);
  }

  /** Whatever statuses there are, an operation can be claimed only while it is queued or awaits a retry. */
  lemma ClaimableExactlyWhenWaiting(operations: map<string, Operation>, authorized: bool, id: string)
    ensures Claimable(operations, authorized, id) <==>
      authorized && id in operations && operations[id].status in {Queued, RetryScheduled}
  {
  }
}
