/** The durable operations behind an activation package: the in-memory repository, and the service
    calls that plan operations, claim them, and complete them or record their failure. */
module ActivationOperations {
  import opened Wrappers

  datatype Kind = FirstTextLesson | PlacementQuiz | ChapterQuiz

  datatype Status = Queued | Processing | RetryScheduled | Succeeded | FailedPermanent | Cancelled | Expired

  datatype Operation = Operation(
    kind: Kind, artifactId: Option<string>, attemptCount: nat, failureClass: Option<string>, retryable: bool,
    status: Status)

  datatype Planned = Planned(id: string, kind: Kind)

  /** A call of the service's `run` that was granted its claim and is generating. */
  datatype Run = Run(operationId: string, kind: Kind)

  datatype System = System(
    operations: map<string, Operation>,
    lessons: map<string, string>,   // stored artifacts by identifier
    quizBanks: map<string, string>,
    running: map<nat, Run>,
    started: nat,                   // service calls so far
    granted: map<string, nat>)      // claims granted so far, by operation

  const EMPTY := System(map[], map[], map[], map[], 0, map[])

  datatype Event =
    | Plan(planned: seq<Planned>)
    | Claim(authorized: bool, operationId: string)
    | Generated(run: nat, content: string)
    | Broke(run: nat, failureClass: string, retryable: bool)

  predicate IsFinal(status: Status) {
    status == Succeeded || status == FailedPermanent || status == Cancelled || status == Expired
  }

  function Fresh(kind: Kind): Operation {
    Operation(kind, None, 0, None, false, Queued)
  }

  function Register(operations: map<string, Operation>, planned: seq<Planned>): map<string, Operation> {
    if planned == [] then operations else
    var before, p := Register(operations, planned[..|planned| - 1]), planned[|planned| - 1];
    if p.id in before then before else before[p.id := Fresh(p.kind)]
  }

  predicate Claimable(operations: map<string, Operation>, authorized: bool, id: string) {
    authorized && id in operations && !IsFinal(operations[id].status) && operations[id].status != Processing
  }

  function Claimed(o: Operation): Operation {
    o.(attemptCount := o.attemptCount + 1, failureClass := None, retryable := false, status := Processing)
  }

  function Completed(o: Operation, artifactId: string): Operation {
    if o.status == Succeeded then o
    else o.(artifactId := Some(artifactId), failureClass := None, retryable := false, status := Succeeded)
  }

  function WithFailure(o: Operation, failureClass: string, retryable: bool): Operation {
    o.(failureClass := Some(failureClass), retryable := retryable,
       status := if retryable then RetryScheduled else FailedPermanent)
  }

  function GrantedTo(s: System, id: string): nat {
    if id in s.granted then s.granted[id] else 0
  }

  /** `artifactOf` derives the identifier of an operation's one artifact from the operation. */
  function Step(s: System, event: Event, artifactOf: string -> string): System {
    match event
    case Plan(planned) => s.(operations := Register(s.operations, planned))
    case Claim(authorized, id) =>
      if !Claimable(s.operations, authorized, id) then s.(started := s.started + 1)
      else s.(operations := s.operations[id := Claimed(s.operations[id])],
              running := s.running[s.started := Run(id, s.operations[id].kind)],
              started := s.started + 1,
              granted := s.granted[id := GrantedTo(s, id) + 1])
    case Generated(run, content) =>
      if run !in s.running || s.running[run].operationId !in s.operations then s else
      var id := s.running[run].operationId;
      var stored :=
        if s.running[run].kind == FirstTextLesson then s.(lessons := s.lessons[artifactOf(id) := content])
        else s.(quizBanks := s.quizBanks[artifactOf(id) := content]);
      stored.(operations := s.operations[id := Completed(s.operations[id], artifactOf(id))],
        running := s.running - {run})
    case Broke(run, failureClass, retryable) =>
      if run !in s.running || s.running[run].operationId !in s.operations then s else
      var id := s.running[run].operationId;
      s.(operations := s.operations[id := WithFailure(s.operations[id], failureClass, retryable)],
        running := s.running - {run})
  }

  datatype History = Start | Then(before: History, event: Event)

  function After(h: History, artifactOf: string -> string): System {
    match h
    case Start => EMPTY
    case Then(before, event) => Step(After(before, artifactOf), event, artifactOf)
  }

  ghost predicate Extends(later: History, earlier: History) {
    later == earlier || (later.Then? && Extends(later.before, earlier))
  }

  ghost predicate Injective(artifactOf: string -> string) {
    forall a, b :: artifactOf(a) == artifactOf(b) ==> a == b
  }

  // ----- The repository in place ----------------------------------------------------------

  class InMemoryActivationRepository {
    var operations: map<string, Operation>
    var lessons: map<string, string>
    var quizBanks: map<string, string>

    constructor ()
      ensures operations == map[] && lessons == map[] && quizBanks == map[]
    {
      operations, lessons, quizBanks := map[], map[], map[];
    }

    method RegisterOperations(planned: seq<Planned>) returns (views: seq<Operation>)
      modifies this`operations
      ensures operations == Register(old(operations), planned)
      ensures |views| == |planned|
      ensures forall i :: 0 <= i < |planned| ==> planned[i].id in operations && views[i] == operations[planned[i].id]
    {
      assert planned[..0] == [];
      for i := 0 to |planned|
        invariant operations == Register(old(operations), planned[..i])
      {
        assert planned[..i + 1][..i] == planned[..i];
        if planned[i].id !in operations {
          operations := operations[planned[i].id := Fresh(planned[i].kind)];
        }
      }
      assert planned[..|planned|] == planned;
      RegisterCovers(old(operations), planned);
      views := [];
      for i := 0 to |planned|
        invariant |views| == i && forall k :: 0 <= k < i ==> views[k] == operations[planned[k].id]
      {
        views := views + [operations[planned[i].id]];
      }
    }

    /** None when the operation is not available; an already final operation is returned unclaimed. */
    method ClaimOperation(authorized: bool, id: string) returns (claim: Option<(bool, Operation)>)
      modifies this`operations
      ensures Claimable(old(operations), authorized, id) ==>
        operations == old(operations)[id := Claimed(old(operations)[id])] && claim == Some((true, operations[id]))
      ensures !Claimable(old(operations), authorized, id) ==> operations == old(operations)
      ensures claim.None? <==> !authorized || id !in old(operations) || old(operations)[id].status == Processing
      ensures claim.Some? && !claim.value.0 ==> IsFinal(claim.value.1.status) && claim.value.1 == old(operations)[id]
    {
      if !authorized || id !in operations {
        return None;
      }
      var operation := operations[id];
      if IsFinal(operation.status) {
        return Some((false, operation));
      }
      if operation.status == Processing {
        return None;
      }
      var claimed := operation.(
        attemptCount := operation.attemptCount + 1, failureClass := None, retryable := false, status := Processing);
      operations := operations[id := claimed];
      return Some((true, claimed));
    }

    method Complete(id: string, artifactId: string) returns (view: Operation)
      requires id in operations
      modifies this`operations
      ensures operations == old(operations)[id := Completed(old(operations)[id], artifactId)] && view == operations[id]
    {
      var current := operations[id];
      if current.status == Succeeded {
        assert operations == operations[id := current];
        return current;
      }
      view := current.(artifactId := Some(artifactId), failureClass := None, retryable := false, status := Succeeded);
      operations := operations[id := view];
    }

    method CompleteTextLesson(id: string, assetId: string, lesson: string) returns (view: Operation)
      requires id in operations
      modifies this`operations, this`lessons
      ensures lessons == old(lessons)[assetId := lesson]
      ensures operations == old(operations)[id := Completed(old(operations)[id], assetId)] && view == operations[id]
    {
      lessons := lessons[assetId := lesson];
      view := Complete(id, assetId);
    }

    method CompleteQuizBank(id: string, bankId: string, quizBank: string) returns (view: Operation)
      requires id in operations
      modifies this`operations, this`quizBanks
      ensures quizBanks == old(quizBanks)[bankId := quizBank]
      ensures operations == old(operations)[id := Completed(old(operations)[id], bankId)] && view == operations[id]
    {
      quizBanks := quizBanks[bankId := quizBank];
      view := Complete(id, bankId);
    }

    method RecordFailure(id: string, failureClass: string, retryable: bool) returns (view: Operation)
      requires id in operations
      modifies this`operations
      ensures operations == old(operations)[id := WithFailure(old(operations)[id], failureClass, retryable)]
        && view == operations[id]
    {
      var current := operations[id];
      view := current.(failureClass := Some(failureClass), retryable := retryable,
                       status := if retryable then RetryScheduled else FailedPermanent);
      operations := operations[id := view];
    }
  }

  lemma {:induction false} RegisterCovers(operations: map<string, Operation>, planned: seq<Planned>)
    ensures forall i :: 0 <= i < |planned| ==> planned[i].id in Register(operations, planned)
    ensures forall id :: id in operations ==>
      id in Register(operations, planned) && Register(operations, planned)[id] == operations[id]
    ensures forall id :: id in Register(operations, planned) && id !in operations ==>
      Register(operations, planned)[id] == Fresh(Register(operations, planned)[id].kind)
  {
    if planned != [] {
      RegisterCovers(operations, planned[..|planned| - 1]);
      forall i | 0 <= i < |planned|
        ensures planned[i].id in Register(operations, planned)
      {
        if i < |planned| - 1 {
          assert planned[..|planned| - 1][i] == planned[i];
        }
      }
    }
  }
}
