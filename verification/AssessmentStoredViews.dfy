/** Which view a finalized key returns, and which claimed answers can no longer be finalized. Both
    turn on the one key space that short answers and replacement results share. */
module AssessmentStoredViews {
  import opened Wrappers
  import opened AssessmentContracts
  import opened AssessmentRepository
  import opened AssessmentProtocol

  // ----- Finalizations and views agree ----------------------------------------------------

  /** A stored short answer belongs to a finalized operation and is seen as submitted; a stored
      replacement result is seen as one. */
  ghost predicate RecordAgrees(s: Repo, k: string) {
    k in s.finalizations ==>
      && k in s.views
      && match s.finalizations[k]
         case ShortAnswer(f) => s.views[k] == ShortAnswerView(f) && k in s.operations && s.operations[k].finalized
         case Replacement(_) => s.views[k].replacementForAttemptId.Some?
  }

  ghost predicate RecordsAgree(s: Repo) {
    forall k :: RecordAgrees(s, k)
  }

  lemma AgreesAfterClaim(s: Repo, auth: Authorization, req: ClaimRequest, now: int, k: string)
    requires RecordAgrees(s, k)
    ensures RecordAgrees(Claim(s, auth, req, now).0, k)
  {
    var bound := BindPolicy(s, req.policy);
    if bound.Some? {
      if req.idempotencyKey in s.operations {
        AgreesAfterClaimAgain(bound.value, req, now, k);
      } else {
        AgreesAfterFirstClaim(bound.value, auth, req, now, k);
      }
    }
  }

  lemma AgreesAfterClaimAgain(s: Repo, req: ClaimRequest, now: int, k: string)
    requires req.idempotencyKey in s.operations && RecordAgrees(s, k)
    ensures RecordAgrees(ClaimAgain(s, req, now).0, k)
  {
  }

  lemma AgreesAfterFirstClaim(s: Repo, auth: Authorization, req: ClaimRequest, now: int, k: string)
    requires req.idempotencyKey !in s.operations && RecordAgrees(s, k)
    ensures RecordAgrees(ClaimFirst(s, auth, req, now).0, k)
  {
  }

  lemma AgreesAfterPut(s: Repo, k: string, p: Policy, f: Finalization, view: View, other: string)
    requires RecordAgrees(s, other) && Put(s, k, p, f, view).Ok? && (k == other ==> k in s.finalizations)
    ensures RecordAgrees(Put(s, k, p, f, view).value, other)
  {
  }

  lemma AgreesAfterFinalize(s: Repo, auth: Authorization, f: ShortAnswerFinalization, k: string)
    requires RecordAgrees(s, k)
    ensures RecordAgrees(FinalizeShortAnswer(s, auth, f).0, k)
  {
    if FinalizeShortAnswer(s, auth, f).1.Ok? {
      SuccessfulFinalize(s, auth, f);
      if k != f.idempotencyKey || k in s.finalizations {
        AgreesAfterPut(s, f.idempotencyKey, f.policy, ShortAnswer(f), ShortAnswerView(f), k);
      }
    } else {
      RefusedFinalize(s, auth, f);
    }
  }

  lemma RefusedFinalize(s: Repo, auth: Authorization, f: ShortAnswerFinalization)
    requires FinalizeShortAnswer(s, auth, f).1.Err?
    ensures var t := FinalizeShortAnswer(s, auth, f).0; t == s.(policyBindings := t.policyBindings)
  {
  }

  lemma AgreesAfterReplacement(s: Repo, auth: Authorization, f: ReplacementFinalization, k: string)
    requires RecordAgrees(s, k)
    ensures RecordAgrees(FinalizeReplacement(s, auth, f).0, k)
  {
    if FinalizeReplacement(s, auth, f).1.Ok? {
      AgreesAfterStoredReplacement(s, auth, f, k);
    } else {
      RefusedReplacement(s, auth, f);
    }
  }

  lemma AgreesAfterStoredReplacement(s: Repo, auth: Authorization, f: ReplacementFinalization, k: string)
    requires RecordAgrees(s, k) && FinalizeReplacement(s, auth, f).1.Ok?
    ensures RecordAgrees(FinalizeReplacement(s, auth, f).0, k)
  {
    var view := View(f.attemptId, [f.evidence], None, Graded, Some(s.bundles[f.bundleId].originalAttemptId),
      f.requestDigest);
    assert FinalizeReplacement(s, auth, f).0 == Put(s, f.idempotencyKey, f.policy, Replacement(f), view).value;
    if k != f.idempotencyKey || k in s.finalizations {
      AgreesAfterPut(s, f.idempotencyKey, f.policy, Replacement(f), view, k);
    }
  }

  lemma RefusedReplacement(s: Repo, auth: Authorization, f: ReplacementFinalization)
    requires FinalizeReplacement(s, auth, f).1.Err?
    ensures var t := FinalizeReplacement(s, auth, f).0; t == s.(policyBindings := t.policyBindings)
  {
  }

  lemma AgreesAfterStep(s: Repo, step: Step)
    requires RecordsAgree(s)
    ensures RecordsAgree(Apply(s, step).0)
  {
    forall k
      ensures RecordAgrees(Apply(s, step).0, k)
    {
      assert RecordAgrees(s, k);
      match step
      case Seed(_, _) =>
      case ClaimStep(auth, req, now) => AgreesAfterClaim(s, auth, req, now, k);
      case FinalizeStep(auth, f) => AgreesAfterFinalize(s, auth, f, k);
      case ReplacementStep(auth, f) => AgreesAfterReplacement(s, auth, f, k);
      case ReleaseStep(_, _, _) =>
    }
  }

  lemma {:induction false} RecordsAlwaysAgree(steps: seq<Step>)
    ensures RecordsAgree(Execute(steps))
  {
    if steps != [] {
      RecordsAlwaysAgree(steps[..|steps| - 1]);
      AgreesAfterStep(Execute(steps[..|steps| - 1]), steps[|steps| - 1]);
    }
  }

  // ----- What a successful finalization returns -------------------------------------------

  lemma FinalizedView(s: Repo, auth: Authorization, f: ShortAnswerFinalization)
    requires Sound(s) && RecordAgrees(s, f.idempotencyKey) && FinalizeShortAnswer(s, auth, f).1.Ok?
    ensures FinalizeShortAnswer(s, auth, f).1.value == ShortAnswerView(f) <==> f.idempotencyKey !in s.finalizations
    ensures f.idempotencyKey in s.finalizations ==>
      && s.finalizations[f.idempotencyKey].Replacement?
      && s.finalizations[f.idempotencyKey].RequestDigest() == f.requestDigest
      && FinalizeShortAnswer(s, auth, f).1.value == s.views[f.idempotencyKey]
  {
    assert SoundOperation(s, f.idempotencyKey);
  }

  lemma {:induction false} RecordStays(steps: seq<Step>, j: nat, k: string)
    requires j < |steps| && Records(History(steps)[j], k)
    ensures k in Execute(steps).finalizations
  {
    var before, step := steps[..|steps| - 1], steps[|steps| - 1];
    if j < |before| {
      RecordStays(before, j, k);
    }
    ReservationsStayDisjoint(before);
    var m := StepMoves(Execute(before), step);
  }

  /** The view a key is finalized with is the one its finalizer submitted if and only if no
      replacement result was recorded under that key before. */
  lemma StoredViewIsTheSubmittedOne(steps: seq<Step>, i: nat)
    requires i < |steps| && History(steps)[i].Finalized?
    ensures steps[i].FinalizeStep?
    ensures History(steps)[i].view == ShortAnswerView(steps[i].short) <==>
      forall j :: 0 <= j < i ==> History(steps)[j] != ReplacementRecorded(History(steps)[i].key)
  {
    var s, k := Execute(steps[..i]), History(steps)[i].key;
    HistoryOfPrefix(steps, i);
    ReservationsStayDisjoint(steps[..i]);
    RecordsAlwaysAgree(steps[..i]);
    FinalizedByFinalizing(s, steps[i]);
    assert RecordAgrees(s, k);
    FinalizedView(s, steps[i].auth, steps[i].short);
    if forall j :: 0 <= j < i ==> History(steps)[j] != ReplacementRecorded(k) {
      FinalizationIsFirstRecord(steps, i);
    } else {
      var j :| 0 <= j < i && History(steps)[j] == ReplacementRecorded(k);
      assert History(steps[..i])[j] == History(steps)[..i][j];
      RecordStays(steps[..i], j, k);
    }
  }

  // ----- When a holder is refused ---------------------------------------------------------

  predicate PolicyConflicts(s: Repo, p: Policy) {
    p.gradingPolicyVersion in s.policyBindings && s.policyBindings[p.gradingPolicyVersion] != p
  }

  /** Something is stored under the operation's key that was requested with another digest. */
  predicate TakenByAnother(s: Repo, k: string)
    requires k in s.operations
  {
    k in s.finalizations && s.finalizations[k].RequestDigest() != s.operations[k].requestDigest
  }

  /** In every reachable state the finalization of a current holder is refused exactly if its policy
      contradicts the binding of its version or a replacement result with another digest was stored
      under the key. */
  lemma HolderIsRefusedExactly(steps: seq<Step>, auth: Authorization, f: ShortAnswerFinalization)
    requires f.idempotencyKey in Execute(steps).operations
    requires auth.ownerScopeId == f.ownerScopeId && auth.actorId == f.userId
    requires var op := Execute(steps).operations[f.idempotencyKey];
      op.requestDigest == f.requestDigest && op.claimToken == Some(f.claimToken)
    ensures var s, k := Execute(steps), f.idempotencyKey;
      && FinalizeShortAnswer(s, auth, f).1.Err? == (PolicyConflicts(s, f.policy) || TakenByAnother(s, k))
      && (PolicyConflicts(s, f.policy) ==> FinalizeShortAnswer(s, auth, f).1 == Err(InvalidConfiguration))
      && (!PolicyConflicts(s, f.policy) && TakenByAnother(s, k) ==>
        FinalizeShortAnswer(s, auth, f).1 == Err(ConflictingDuplicate))
      && (TakenByAnother(s, k) ==> s.finalizations[k].Replacement?)
  {
    var s, k := Execute(steps), f.idempotencyKey;
    ReservationsStayDisjoint(steps);
    RecordsAlwaysAgree(steps);
    assert SoundOperation(s, k) && RecordAgrees(s, k);
  }

  // ----- Answers that can never be finalized ----------------------------------------------

  ghost predicate Blocked(s: Repo, k: string) {
    k in s.operations && !s.operations[k].finalized && TakenByAnother(s, k)
  }

  lemma BlockedAfterClaim(s: Repo, auth: Authorization, req: ClaimRequest, now: int, k: string)
    requires Blocked(s, k)
    ensures Blocked(Claim(s, auth, req, now).0, k)
  {
  }

  lemma BlockedAfterFinalize(s: Repo, auth: Authorization, f: ShortAnswerFinalization, k: string)
    requires Blocked(s, k)
    ensures Blocked(FinalizeShortAnswer(s, auth, f).0, k)
  {
    if FinalizeShortAnswer(s, auth, f).1.Ok? {
      SuccessfulFinalize(s, auth, f);
    } else {
      RefusedFinalize(s, auth, f);
    }
  }

  lemma BlockedAfterReplacement(s: Repo, auth: Authorization, f: ReplacementFinalization, k: string)
    requires Blocked(s, k)
    ensures Blocked(FinalizeReplacement(s, auth, f).0, k)
  {
  }

  lemma BlockedAfterStep(s: Repo, step: Step, k: string)
    requires Blocked(s, k)
    ensures Blocked(Apply(s, step).0, k)
  {
    match step
    case Seed(_, _) =>
    case ClaimStep(auth, req, now) => BlockedAfterClaim(s, auth, req, now, k);
    case FinalizeStep(auth, f) => BlockedAfterFinalize(s, auth, f, k);
    case ReplacementStep(auth, f) => BlockedAfterReplacement(s, auth, f, k);
    case ReleaseStep(_, _, _) =>
  }

  lemma ExecuteOneMore(steps: seq<Step>, step: Step)
    ensures Execute(steps + [step]) == Apply(Execute(steps), step).0
  {
    assert (steps + [step])[..|steps|] == steps;
  }

  lemma {:induction false} BlockedForever(steps: seq<Step>, more: seq<Step>, k: string)
    requires Blocked(Execute(steps), k)
    ensures Blocked(Execute(steps + more), k)
  {
    if more == [] {
      assert steps + more == steps;
    } else {
      var fewer, step := more[..|more| - 1], more[|more| - 1];
      BlockedForever(steps, fewer, k);
      ExecuteOneMore(steps + fewer, step);
      assert steps + more == steps + fewer + [step];
      BlockedAfterStep(Execute(steps + fewer), step, k);
    }
  }

  ghost predicate BoundUnderOwnVersion(s: Repo) {
    forall v :: v in s.policyBindings ==> s.policyBindings[v].gradingPolicyVersion == v
  }

  lemma {:induction false} AlwaysBoundUnderOwnVersion(steps: seq<Step>)
    ensures BoundUnderOwnVersion(Execute(steps))
  {
    if steps != [] {
      AlwaysBoundUnderOwnVersion(steps[..|steps| - 1]);
      BindingsAfterStep(Execute(steps[..|steps| - 1]), steps[|steps| - 1]);
    }
  }

  lemma BindingsAfterStep(s: Repo, step: Step)
    requires BoundUnderOwnVersion(s)
    ensures BoundUnderOwnVersion(Apply(s, step).0)
  {
    match step
    case Seed(_, _) =>
    case ClaimStep(auth, req, now) => ClaimBinds(s, auth, req, now);
    case FinalizeStep(auth, f) => FinalizeBinds(s, auth, f);
    case ReplacementStep(auth, f) => ReplacementBinds(s, auth, f);
    case ReleaseStep(_, _, _) =>
  }

  /** A call binds at most its own policy, under the version that policy names. */
  ghost predicate BindsAtMost(s: Repo, t: Repo, p: Policy) {
    t.policyBindings == s.policyBindings || t.policyBindings == s.policyBindings[p.gradingPolicyVersion := p]
  }

  lemma ClaimBinds(s: Repo, auth: Authorization, req: ClaimRequest, now: int)
    ensures BindsAtMost(s, Claim(s, auth, req, now).0, req.policy)
  {
  }

  lemma FinalizeBinds(s: Repo, auth: Authorization, f: ShortAnswerFinalization)
    ensures BindsAtMost(s, FinalizeShortAnswer(s, auth, f).0, f.policy)
  {
    if FinalizeShortAnswer(s, auth, f).1.Ok? {
      SuccessfulFinalizeBinds(s, auth, f);
    } else {
      RefusedFinalizeBinds(s, auth, f);
    }
  }

  lemma SuccessfulFinalizeBinds(s: Repo, auth: Authorization, f: ShortAnswerFinalization)
    requires FinalizeShortAnswer(s, auth, f).1.Ok?
    ensures BindsAtMost(s, FinalizeShortAnswer(s, auth, f).0, f.policy)
  {
  }

  lemma RefusedFinalizeBinds(s: Repo, auth: Authorization, f: ShortAnswerFinalization)
    requires FinalizeShortAnswer(s, auth, f).1.Err?
    ensures BindsAtMost(s, FinalizeShortAnswer(s, auth, f).0, f.policy)
  {
  }

  lemma ReplacementBinds(s: Repo, auth: Authorization, f: ReplacementFinalization)
    ensures BindsAtMost(s, FinalizeReplacement(s, auth, f).0, f.policy)
  {
  }

  /** Claiming the operation again and finalizing it under the new token. */
  function Continuation(s: Repo, k: string): seq<Step>
    requires k in s.operations
  {
    var op, nobody := s.operations[k], Authorization("", "");
    var p := if "" in s.policyBindings then s.policyBindings[""] else Policy("", 0, map[]);
    [ ClaimStep(nobody, ClaimRequest(k, 0, p, "", op.requestDigest, op.sessionId), op.expiresAt),
      FinalizeStep(
        nobody, ShortAnswerFinalization("", s.claimSequence + 1, [], None, k, Graded, "", p, op.requestDigest, "")) ]
  }

  lemma ContinuationFinalizes(s: Repo, k: string)
    requires k in s.operations && !s.operations[k].finalized && !TakenByAnother(s, k) && BoundUnderOwnVersion(s)
    ensures var more := Continuation(s, k);
      var claimed := Apply(s, more[0]).0;
      var after := Apply(claimed, more[1]).0;
      k in after.operations && after.operations[k].finalized
  {
    var more := Continuation(s, k);
    var claimed := Apply(s, more[0]).0;
    assert claimed.operations[k].claimToken == Some(s.claimSequence + 1);
    assert claimed.finalizations == s.finalizations;
  }

  /** A claimed answer that is not finalized yet can still be finalized by some continuation of the run
      if and only if no replacement result with another digest has taken its key. */
  lemma CanStillBeFinalizedExactly(steps: seq<Step>, k: string)
    requires k in Execute(steps).operations && !Execute(steps).operations[k].finalized
    ensures (exists more :: k in Execute(steps + more).operations && Execute(steps + more).operations[k].finalized)
      <==> !TakenByAnother(Execute(steps), k)
  {
    var s := Execute(steps);
    if TakenByAnother(s, k) {
      forall more
        ensures !(k in Execute(steps + more).operations && Execute(steps + more).operations[k].finalized)
      {
        BlockedForever(steps, more, k);
      }
    } else {
      var more := Continuation(s, k);
      AlwaysBoundUnderOwnVersion(steps);
      ContinuationFinalizes(s, k);
      ExecuteOneMore(steps, more[0]);
      ExecuteOneMore(steps + [more[0]], more[1]);
      assert steps + more == steps + [more[0]] + [more[1]];
    }
  }

  // ----- Requests of different kinds have different digests -------------------------------

  /** What the service guarantees if its hash has no collisions: it digests a claim and a replacement
      answer from objects with different members. */
  ghost predicate DigestsApart(steps: seq<Step>) {
    forall i, j :: 0 <= i < |steps| && 0 <= j < |steps| && steps[i].ClaimStep? && steps[j].ReplacementStep? ==>
      steps[i].req.requestDigest != steps[j].replacement.requestDigest
  }

  lemma {:induction false} OperationCameFromClaim(steps: seq<Step>, k: string) returns (i: nat)
    requires k in Execute(steps).operations
    ensures i < |steps| && steps[i].ClaimStep?
      && steps[i].req.requestDigest == Execute(steps).operations[k].requestDigest
  {
    var before, step := steps[..|steps| - 1], steps[|steps| - 1];
    DigestAfterStep(Execute(before), step, k);
    if k in Execute(before).operations {
      i := OperationCameFromClaim(before, k);
    } else {
      i := |before|;
    }
  }

  lemma DigestAfterStep(s: Repo, step: Step, k: string)
    requires k in Apply(s, step).0.operations
    ensures var digest := Apply(s, step).0.operations[k].requestDigest;
      if k in s.operations then digest == s.operations[k].requestDigest
      else step.ClaimStep? && digest == step.req.requestDigest
  {
    match step
    case ClaimStep(auth, req, now) => DigestAfterClaim(s, auth, req, now, k);
    case FinalizeStep(auth, f) => DigestAfterFinalize(s, auth, f, k);
    case ReplacementStep(auth, f) => ReplacementOpensNothing(s, auth, f);
    case ReleaseStep(auth, other, token) => ReleaseKeepsDigests(s, auth, other, token, k);
    case Seed(_, _) =>
  }

  lemma ReplacementOpensNothing(s: Repo, auth: Authorization, f: ReplacementFinalization)
    ensures FinalizeReplacement(s, auth, f).0.operations == s.operations
  {
  }

  lemma ReleaseKeepsDigests(s: Repo, auth: Authorization, other: string, token: nat, k: string)
    ensures var after := ReleaseClaim(s, auth, other, token);
      k in after.operations ==> k in s.operations && after.operations[k].requestDigest == s.operations[k].requestDigest
  {
  }

  lemma DigestAfterClaim(s: Repo, auth: Authorization, req: ClaimRequest, now: int, k: string)
    requires k in Claim(s, auth, req, now).0.operations
    ensures Claim(s, auth, req, now).0.operations[k].requestDigest
      == if k in s.operations then s.operations[k].requestDigest else req.requestDigest
  {
    var bound := BindPolicy(s, req.policy);
    if bound.Some? {
      if req.idempotencyKey in s.operations {
        DigestAfterClaimAgain(bound.value, req, now, k);
      } else {
        DigestAfterFirstClaim(bound.value, auth, req, now, k);
      }
    }
  }

  lemma DigestAfterClaimAgain(s: Repo, req: ClaimRequest, now: int, k: string)
    requires req.idempotencyKey in s.operations
    ensures var after := ClaimAgain(s, req, now).0;
      k in after.operations ==> k in s.operations && after.operations[k].requestDigest == s.operations[k].requestDigest
  {
  }

  lemma DigestAfterFirstClaim(s: Repo, auth: Authorization, req: ClaimRequest, now: int, k: string)
    requires req.idempotencyKey !in s.operations
    ensures var after := ClaimFirst(s, auth, req, now).0;
      k in after.operations ==>
        after.operations[k].requestDigest
          == if k in s.operations then s.operations[k].requestDigest else req.requestDigest
  {
  }

  lemma DigestAfterFinalize(s: Repo, auth: Authorization, f: ShortAnswerFinalization, k: string)
    requires k in FinalizeShortAnswer(s, auth, f).0.operations
    ensures k in s.operations
    ensures FinalizeShortAnswer(s, auth, f).0.operations[k].requestDigest == s.operations[k].requestDigest
  {
    if FinalizeShortAnswer(s, auth, f).1.Ok? {
      SuccessfulFinalize(s, auth, f);
    } else {
      RefusedFinalize(s, auth, f);
    }
  }

  lemma {:induction false} ReplacementCameFromStep(steps: seq<Step>, k: string) returns (j: nat)
    requires k in Execute(steps).finalizations && Execute(steps).finalizations[k].Replacement?
    ensures j < |steps| && steps[j].ReplacementStep?
      && steps[j].replacement == Execute(steps).finalizations[k].replacement
  {
    var before, step := steps[..|steps| - 1], steps[|steps| - 1];
    RecordAfterStep(Execute(before), step, k);
    if k in Execute(before).finalizations {
      j := ReplacementCameFromStep(before, k);
    } else {
      j := |before|;
    }
  }

  lemma RecordAfterStep(s: Repo, step: Step, k: string)
    requires k in Apply(s, step).0.finalizations
    ensures var f := Apply(s, step).0.finalizations[k];
      if k in s.finalizations then f == s.finalizations[k]
      else f.Replacement? ==> step.ReplacementStep? && f.replacement == step.replacement
  {
    match step
    case FinalizeStep(auth, f) => RecordAfterFinalize(s, auth, f, k);
    case ReplacementStep(auth, f) => RecordAfterReplacement(s, auth, f, k);
    case ClaimStep(auth, req, now) => ClaimStoresNothing(s, auth, req, now);
    case _ =>
  }

  lemma ClaimStoresNothing(s: Repo, auth: Authorization, req: ClaimRequest, now: int)
    ensures Claim(s, auth, req, now).0.finalizations == s.finalizations
  {
  }

  lemma RecordAfterFinalize(s: Repo, auth: Authorization, f: ShortAnswerFinalization, k: string)
    requires k in FinalizeShortAnswer(s, auth, f).0.finalizations
    ensures FinalizeShortAnswer(s, auth, f).0.finalizations[k]
      == if k in s.finalizations then s.finalizations[k] else ShortAnswer(f)
  {
    if FinalizeShortAnswer(s, auth, f).1.Ok? {
      SuccessfulFinalize(s, auth, f);
    } else {
      RefusedFinalize(s, auth, f);
    }
  }

  lemma RecordAfterReplacement(s: Repo, auth: Authorization, f: ReplacementFinalization, k: string)
    requires k in FinalizeReplacement(s, auth, f).0.finalizations
    ensures FinalizeReplacement(s, auth, f).0.finalizations[k]
      == if k in s.finalizations then s.finalizations[k] else Replacement(f)
  {
  }

  /** Then any replacement result under an unfinalized answer's key blocks that answer for good, ... */
  lemma RecordedReplacementBlocks(steps: seq<Step>, k: string)
    requires DigestsApart(steps) && k in Execute(steps).operations && !Execute(steps).operations[k].finalized
    ensures TakenByAnother(Execute(steps), k) <==> k in Execute(steps).finalizations
  {
    if k in Execute(steps).finalizations {
      RecordsAlwaysAgree(steps);
      assert RecordAgrees(Execute(steps), k);
      var i := OperationCameFromClaim(steps, k);
      var j := ReplacementCameFromStep(steps, k);
    }
  }

  lemma FinalizedKeyWasFree(steps: seq<Step>, auth: Authorization, f: ShortAnswerFinalization)
    requires DigestsApart(steps) && FinalizeShortAnswer(Execute(steps), auth, f).1.Ok?
    ensures FinalizeShortAnswer(Execute(steps), auth, f).1 == Ok(ShortAnswerView(f))
  {
    var s, k := Execute(steps), f.idempotencyKey;
    ReservationsStayDisjoint(steps);
    RecordsAlwaysAgree(steps);
    assert RecordAgrees(s, k) && SoundOperation(s, k);
    FinalizedView(s, auth, f);
    RecordedReplacementBlocks(steps, k);
  }

  /** ... and every finalized key returns the view its finalizer submitted. */
  lemma ApartDigestsStoreSubmittedViews(steps: seq<Step>, i: nat)
    requires DigestsApart(steps) && i < |steps| && History(steps)[i].Finalized?
    ensures steps[i].FinalizeStep? && History(steps)[i].view == ShortAnswerView(steps[i].short)
  {
    HistoryOfPrefix(steps, i);
    FinalizedByFinalizing(Execute(steps[..i]), steps[i]);
    assert DigestsApart(steps[..i]);
    FinalizedKeyWasFree(steps[..i], steps[i].auth, steps[i].short);
  }
}
