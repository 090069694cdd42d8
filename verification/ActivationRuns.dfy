/** What every interleaving of planning, claiming, completing and failing keeps. */
module ActivationRuns {
  import opened Wrappers
  import opened ActivationOperations

  ghost predicate Holds(s: System, run: nat, id: string) {
    run in s.running && s.running[run].operationId == id
  }

  /** The artifact maps hold the operation's artifact under its own identifier. */
  predicate HasArtifact(s: System, id: string, artifact: string) {
    && id in s.operations && s.operations[id].status == Succeeded && s.operations[id].artifactId == Some(artifact)
    && artifact in if s.operations[id].kind == FirstTextLesson then s.lessons else s.quizBanks
  }

  ghost predicate OperationOk(s: System, id: string, artifactOf: string -> string) {
    id in s.operations ==>
      var o := s.operations[id];
      && o.attemptCount == GrantedTo(s, id)
      && (o.status == Queued <==> o.attemptCount == 0)
      && (if o.status == Succeeded then HasArtifact(s, id, artifactOf(id)) else o.artifactId.None?)
      && (o.status == Processing ==> exists r :: Holds(s, r, id))
  }

  ghost predicate RunOk(s: System, run: nat) {
    run in s.running ==>
      && run < s.started && s.running[run].operationId in s.operations
      && s.operations[s.running[run].operationId].status == Processing
      && s.operations[s.running[run].operationId].kind == s.running[run].kind
  }

  ghost predicate OneHolder(s: System) {
    forall r, q, id :: Holds(s, r, id) && Holds(s, q, id) ==> r == q
  }

  ghost predicate ArtifactsOwned(s: System, artifactOf: string -> string) {
    && (forall a :: a in s.lessons ==> exists id :: HasArtifact(s, id, a) && s.operations[id].kind == FirstTextLesson)
    && (forall a :: a in s.quizBanks ==> exists id :: HasArtifact(s, id, a) && s.operations[id].kind != FirstTextLesson)
  }

  ghost predicate Invariant(s: System, artifactOf: string -> string) {
    && (forall id :: OperationOk(s, id, artifactOf))
    && (forall run :: RunOk(s, run))
    && OneHolder(s)
    && (forall id :: id in s.granted ==> id in s.operations)
    && ArtifactsOwned(s, artifactOf)
  }

  // ----- One step -------------------------------------------------------------------------

  /** Registering leaves every known operation as it is and adds only fresh ones. */
  lemma PlanKeepsOperations(s: System, planned: seq<Planned>, artifactOf: string -> string)
    ensures var after := Step(s, Plan(planned), artifactOf);
      && (forall id :: id in s.operations ==> id in after.operations && after.operations[id] == s.operations[id])
      && (forall id :: id in after.operations && id !in s.operations ==>
        after.operations[id] == Fresh(after.operations[id].kind))
      && after.running == s.running && after.granted == s.granted && after.lessons == s.lessons
      && after.quizBanks == s.quizBanks
  {
    RegisterCovers(s.operations, planned);
  }

  lemma InvariantAfterPlan(s: System, planned: seq<Planned>, artifactOf: string -> string)
    requires Invariant(s, artifactOf)
    ensures Invariant(Step(s, Plan(planned), artifactOf), artifactOf)
  {
    var after := Step(s, Plan(planned), artifactOf);
    PlanKeepsOperations(s, planned, artifactOf);
    forall id
      ensures OperationOk(after, id, artifactOf)
    {
      assert OperationOk(s, id, artifactOf);
      if id in s.operations && s.operations[id].status == Processing {
        var r :| Holds(s, r, id);
        assert Holds(after, r, id);
      }
    }
    forall run
      ensures RunOk(after, run)
    {
      assert RunOk(s, run);
    }
    forall a | a in after.lessons
      ensures exists id :: HasArtifact(after, id, a) && after.operations[id].kind == FirstTextLesson
    {
      var id :| HasArtifact(s, id, a) && s.operations[id].kind == FirstTextLesson;
      assert HasArtifact(after, id, a);
    }
    forall a | a in after.quizBanks
      ensures exists id :: HasArtifact(after, id, a) && after.operations[id].kind != FirstTextLesson
    {
      var id :| HasArtifact(s, id, a) && s.operations[id].kind != FirstTextLesson;
      assert HasArtifact(after, id, a);
    }
    assert forall r, id :: Holds(after, r, id) ==> Holds(s, r, id);
  }

  lemma InvariantAfterClaim(s: System, authorized: bool, id: string, artifactOf: string -> string)
    requires Invariant(s, artifactOf) && Claimable(s.operations, authorized, id)
    ensures Invariant(Step(s, Claim(authorized, id), artifactOf), artifactOf)
  {
    var after := Step(s, Claim(authorized, id), artifactOf);
    forall r, other | Holds(after, r, other)
      ensures (r == s.started && other == id) || (Holds(s, r, other) && other != id && r != s.started)
    {
      assert RunOk(s, r);
    }
    assert Holds(after, s.started, id);
    forall other
      ensures OperationOk(after, other, artifactOf)
    {
      assert OperationOk(s, other, artifactOf);
      if other != id && other in s.operations && s.operations[other].status == Processing {
        var r :| Holds(s, r, other);
        assert RunOk(s, r);
        assert Holds(after, r, other);
      }
    }
    forall run
      ensures RunOk(after, run)
    {
      assert RunOk(s, run);
      assert run in after.running ==> Holds(after, run, after.running[run].operationId);
    }
    ArtifactsKept(s, after, id, artifactOf);
  }

  /** Changing one operation that has not succeeded, and storing nothing, keeps every artifact owned. */
  lemma ArtifactsKept(s: System, after: System, id: string, artifactOf: string -> string)
    requires ArtifactsOwned(s, artifactOf) && after.lessons == s.lessons && after.quizBanks == s.quizBanks
    requires id in s.operations && s.operations[id].status != Succeeded
    requires forall other :: other in s.operations && other != id ==>
      other in after.operations && after.operations[other] == s.operations[other]
    ensures ArtifactsOwned(after, artifactOf)
  {
    forall a | a in after.lessons
      ensures exists x :: HasArtifact(after, x, a) && after.operations[x].kind == FirstTextLesson
    {
      var x :| HasArtifact(s, x, a) && s.operations[x].kind == FirstTextLesson;
      assert HasArtifact(after, x, a);
    }
    forall a | a in after.quizBanks
      ensures exists x :: HasArtifact(after, x, a) && after.operations[x].kind != FirstTextLesson
    {
      var x :| HasArtifact(s, x, a) && s.operations[x].kind != FirstTextLesson;
      assert HasArtifact(after, x, a);
    }
  }

  /** The end of a run takes its one holding away and nothing else. */
  lemma HoldingsAfterEnd(s: System, run: nat, event: Event, artifactOf: string -> string)
    requires Invariant(s, artifactOf) && run in s.running
    requires (event.Generated? || event.Broke?) && event.run == run
    ensures var after := Step(s, event, artifactOf);
      forall r, other :: Holds(after, r, other) <==> Holds(s, r, other) && other != s.running[run].operationId
  {
    var id := s.running[run].operationId;
    assert RunOk(s, run) && Holds(s, run, id);
    forall r, other
      ensures Holds(Step(s, event, artifactOf), r, other) <==> Holds(s, r, other) && other != id
    {
      if Holds(s, r, other) && other == id {
        assert r == run;
      }
    }
  }

  lemma RunsAfterEnd(s: System, run: nat, event: Event, artifactOf: string -> string)
    requires Invariant(s, artifactOf) && run in s.running
    requires (event.Generated? || event.Broke?) && event.run == run
    ensures forall r :: RunOk(Step(s, event, artifactOf), r)
    ensures OneHolder(Step(s, event, artifactOf))
  {
    var after := Step(s, event, artifactOf);
    HoldingsAfterEnd(s, run, event, artifactOf);
    assert RunOk(s, run);
    forall r
      ensures RunOk(after, r)
    {
      assert RunOk(s, r);
      if r in after.running {
        assert Holds(after, r, after.running[r].operationId);
        assert Holds(s, r, s.running[r].operationId);
      }
    }
  }

  lemma InvariantAfterBroke(s: System, run: nat, failureClass: string, retryable: bool, artifactOf: string -> string)
    requires Invariant(s, artifactOf) && run in s.running
    ensures Invariant(Step(s, Broke(run, failureClass, retryable), artifactOf), artifactOf)
  {
    var event := Broke(run, failureClass, retryable);
    var after, id := Step(s, event, artifactOf), s.running[run].operationId;
    assert RunOk(s, run);
    HoldingsAfterEnd(s, run, event, artifactOf);
    RunsAfterEnd(s, run, event, artifactOf);
    forall other
      ensures OperationOk(after, other, artifactOf)
    {
      assert OperationOk(s, other, artifactOf);
      if other != id && other in s.operations && s.operations[other].status == Processing {
        var r :| Holds(s, r, other);
        assert Holds(after, r, other);
      }
    }
    ArtifactsKept(s, after, id, artifactOf);
  }

  lemma ArtifactsAfterGenerated(s: System, run: nat, content: string, artifactOf: string -> string)
    requires Invariant(s, artifactOf) && run in s.running
    ensures var after := Step(s, Generated(run, content), artifactOf);
      && HasArtifact(after, s.running[run].operationId, artifactOf(s.running[run].operationId))
      && ArtifactsOwned(after, artifactOf)
  {
    var after, id := Step(s, Generated(run, content), artifactOf), s.running[run].operationId;
    assert RunOk(s, run);
    forall a | a in after.lessons
      ensures exists x :: HasArtifact(after, x, a) && after.operations[x].kind == FirstTextLesson
    {
      if a !in s.lessons {
        assert HasArtifact(after, id, a);
      } else {
        var x :| HasArtifact(s, x, a) && s.operations[x].kind == FirstTextLesson;
        assert HasArtifact(after, x, a);
      }
    }
    forall a | a in after.quizBanks
      ensures exists x :: HasArtifact(after, x, a) && after.operations[x].kind != FirstTextLesson
    {
      if a !in s.quizBanks {
        assert HasArtifact(after, id, a);
      } else {
        var x :| HasArtifact(s, x, a) && s.operations[x].kind != FirstTextLesson;
        assert HasArtifact(after, x, a);
      }
    }
  }

  lemma InvariantAfterGenerated(s: System, run: nat, content: string, artifactOf: string -> string)
    requires Invariant(s, artifactOf) && run in s.running
    ensures Invariant(Step(s, Generated(run, content), artifactOf), artifactOf)
  {
    var event := Generated(run, content);
    var after, id := Step(s, event, artifactOf), s.running[run].operationId;
    assert RunOk(s, run);
    HoldingsAfterEnd(s, run, event, artifactOf);
    RunsAfterEnd(s, run, event, artifactOf);
    ArtifactsAfterGenerated(s, run, content, artifactOf);
    forall other
      ensures OperationOk(after, other, artifactOf)
    {
      assert OperationOk(s, other, artifactOf);
      if other != id && other in s.operations && s.operations[other].status == Processing {
        var r :| Holds(s, r, other);
        assert Holds(after, r, other);
      }
    }
  }

  lemma InvariantAfterStep(s: System, event: Event, artifactOf: string -> string)
    requires Invariant(s, artifactOf)
    ensures Invariant(Step(s, event, artifactOf), artifactOf)
  {
    match event
    case Plan(planned) => InvariantAfterPlan(s, planned, artifactOf);
    case Claim(authorized, id) =>
      if Claimable(s.operations, authorized, id) {
        InvariantAfterClaim(s, authorized, id, artifactOf);
      } else {
        InvariantIgnoresStarted(s, artifactOf);
      }
    case Generated(run, content) =>
      if run in s.running {
        InvariantAfterGenerated(s, run, content, artifactOf);
      }
    case Broke(run, failureClass, retryable) =>
      if run in s.running {
        InvariantAfterBroke(s, run, failureClass, retryable, artifactOf);
      }
  }

  lemma InvariantIgnoresStarted(s: System, artifactOf: string -> string)
    requires Invariant(s, artifactOf)
    ensures Invariant(s.(started := s.started + 1), artifactOf)
  {
    var after := s.(started := s.started + 1);
    assert forall r, id :: Holds(after, r, id) <==> Holds(s, r, id);
    forall id
      ensures OperationOk(after, id, artifactOf)
    {
      assert OperationOk(s, id, artifactOf);
      if id in s.operations && s.operations[id].status == Processing {
        var r :| Holds(s, r, id);
        assert Holds(after, r, id);
      }
    }
    forall run
      ensures RunOk(after, run)
    {
      assert RunOk(s, run);
    }
    forall a | a in after.lessons
      ensures exists id :: HasArtifact(after, id, a) && after.operations[id].kind == FirstTextLesson
    {
      var id :| HasArtifact(s, id, a) && s.operations[id].kind == FirstTextLesson;
      assert HasArtifact(after, id, a);
    }
    forall a | a in after.quizBanks
      ensures exists id :: HasArtifact(after, id, a) && after.operations[id].kind != FirstTextLesson
    {
      var id :| HasArtifact(s, id, a) && s.operations[id].kind != FirstTextLesson;
      assert HasArtifact(after, id, a);
    }
  }

  // ----- Whole histories ------------------------------------------------------------------

  lemma {:induction false} EveryHistoryKeepsTheInvariant(h: History, artifactOf: string -> string)
    ensures Invariant(After(h, artifactOf), artifactOf)
  {
    if h.Then? {
      EveryHistoryKeepsTheInvariant(h.before, artifactOf);
      InvariantAfterStep(After(h.before, artifactOf), h.event, artifactOf);
    }
  }

  /** An operation is in processing exactly while one run, and only one, holds it. */
  lemma ProcessingHasExactlyOneHolder(h: History, artifactOf: string -> string, id: string)
    requires id in After(h, artifactOf).operations
    ensures var s := After(h, artifactOf);
      && (s.operations[id].status == Processing <==> exists r :: Holds(s, r, id))
      && (forall r, q :: Holds(s, r, id) && Holds(s, q, id) ==> r == q)
  {
    var s := After(h, artifactOf);
    EveryHistoryKeepsTheInvariant(h, artifactOf);
    assert OperationOk(s, id, artifactOf);
    if exists r :: Holds(s, r, id) {
      var r :| Holds(s, r, id);
      assert RunOk(s, r);
    }
  }

  lemma AttemptCountIsClaimsGranted(h: History, artifactOf: string -> string, id: string)
    requires id in After(h, artifactOf).operations
    ensures After(h, artifactOf).operations[id].attemptCount == GrantedTo(After(h, artifactOf), id)
  {
    EveryHistoryKeepsTheInvariant(h, artifactOf);
    assert OperationOk(After(h, artifactOf), id, artifactOf);
  }

  /** A succeeded operation has its own artifact stored; no other operation ever has an artifact; and
      every stored artifact belongs to exactly one operation. */
  lemma SucceededHasExactlyOneArtifact(h: History, artifactOf: string -> string, id: string, artifact: string)
    requires Injective(artifactOf) && id in After(h, artifactOf).operations
    ensures var s := After(h, artifactOf);
      && (HasArtifact(s, id, artifact) <==> s.operations[id].status == Succeeded && artifact == artifactOf(id))
      && (artifact in s.lessons || artifact in s.quizBanks ==> exists owner :: HasArtifact(s, owner, artifact))
      && (forall x, y :: HasArtifact(s, x, artifact) && HasArtifact(s, y, artifact) ==> x == y)
  {
    var s := After(h, artifactOf);
    EveryHistoryKeepsTheInvariant(h, artifactOf);
    assert OperationOk(s, id, artifactOf);
    forall x, y | HasArtifact(s, x, artifact) && HasArtifact(s, y, artifact)
      ensures x == y
    {
      assert OperationOk(s, x, artifactOf) && OperationOk(s, y, artifactOf);
    }
    if artifact in s.lessons {
      var owner :| HasArtifact(s, owner, artifact);
    } else if artifact in s.quizBanks {
      var owner :| HasArtifact(s, owner, artifact);
    }
  }

  lemma FinalAfterStep(s: System, event: Event, artifactOf: string -> string, id: string)
    requires Invariant(s, artifactOf) && id in s.operations && IsFinal(s.operations[id].status)
    ensures var after := Step(s, event, artifactOf); id in after.operations && after.operations[id] == s.operations[id]
  {
    match event
    case Plan(planned) => PlanKeepsOperations(s, planned, artifactOf);
    case Claim(_, _) =>
    case Generated(run, _) => assert RunOk(s, run);
    case Broke(run, _, _) => assert RunOk(s, run);
  }

  /** Once final, an operation never changes again, whatever is planned, claimed or reported later. */
  lemma {:induction false} FinalIsForever(earlier: History, later: History, artifactOf: string -> string, id: string)
    requires Extends(later, earlier)
    requires id in After(earlier, artifactOf).operations && IsFinal(After(earlier, artifactOf).operations[id].status)
    ensures id in After(later, artifactOf).operations
    ensures After(later, artifactOf).operations[id] == After(earlier, artifactOf).operations[id]
  {
    if later != earlier {
      FinalIsForever(earlier, later.before, artifactOf, id);
      EveryHistoryKeepsTheInvariant(later.before, artifactOf);
      FinalAfterStep(After(later.before, artifactOf), later.event, artifactOf, id);
    }
  }

  /** The attempt count only grows, and by one exactly when a claim of the operation is granted. */
  lemma AttemptsAfterStep(s: System, event: Event, artifactOf: string -> string, id: string)
    requires id in s.operations
    ensures var after := Step(s, event, artifactOf);
      && id in after.operations
      && after.operations[id].attemptCount == s.operations[id].attemptCount
           + if event.Claim? && event.operationId == id && Claimable(s.operations, event.authorized, id) then 1 else 0
  {
    if event.Plan? {
      PlanKeepsOperations(s, event.planned, artifactOf);
    }
  }
}
