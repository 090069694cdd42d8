/** What the repository keeps over every interleaving of grading workers. A step is one call by
    any worker with any arguments, so a worker that crashes is one that takes no further step,
    and a lease that runs out is a later claim with a larger clock reading. */
module AssessmentProtocol {
  import opened Wrappers
  import opened StableSort
  import opened AssessmentContracts
  import opened AssessmentRepository
  import opened Sequences

  datatype Step =
    | Seed(sessionId: string, session: Session)
    | ClaimStep(auth: Authorization, req: ClaimRequest, now: int)
    | FinalizeStep(auth: Authorization, short: ShortAnswerFinalization)
    | ReplacementStep(auth: Authorization, replacement: ReplacementFinalization)
    | ReleaseStep(auth: Authorization, key: string, token: nat)

  datatype Event =
    | Granted(key: string, token: nat)
    | Replayed(key: string, view: View)
    | Finalized(key: string, token: nat, view: View, keepsFallback: bool)
    | ReplacementRecorded(key: string)
    | Nothing

  function ClaimEvent(req: ClaimRequest, r: Result<ClaimReply, Error>): Event {
    match r
    case Ok(Claimed(token, _)) => Granted(req.idempotencyKey, token)
    case Ok(AlreadyFinalized(view)) => Replayed(req.idempotencyKey, view)
    case _ => Nothing
  }

  function Apply(s: Repo, step: Step): (Repo, Event) {
    match step
    case Seed(sid, session) => (s.(sessions := s.sessions[sid := session]), Nothing)
    case ClaimStep(auth, req, now) =>
      var (after, r) := Claim(s, auth, req, now);
      (after, ClaimEvent(req, r))
    case FinalizeStep(auth, f) =>
      var (after, r) := FinalizeShortAnswer(s, auth, f);
      (after, if r.Ok? then Finalized(f.idempotencyKey, f.claimToken, r.value, f.fallback.Some?) else Nothing)
    case ReplacementStep(auth, f) =>
      var (after, r) := FinalizeReplacement(s, auth, f);
      (after, if r.Ok? then ReplacementRecorded(f.idempotencyKey) else Nothing)
    case ReleaseStep(auth, k, token) => (ReleaseClaim(s, auth, k, token), Nothing)
  }

  function Execute(steps: seq<Step>): Repo {
    if steps == [] then EMPTY else Apply(Execute(steps[..|steps| - 1]), steps[|steps| - 1]).0
  }

  function History(steps: seq<Step>): (h: seq<Event>)
    ensures |h| == |steps|
  {
    if steps == [] then []
    else History(steps[..|steps| - 1]) + [Apply(Execute(steps[..|steps| - 1]), steps[|steps| - 1]).1]
  }

  // ----- One call at a time ---------------------------------------------------------------

  /** The prompts an operation keeps from being shown again: its question, and its fallbacks
      unless a finalization without a fallback has given them back. */
  ghost function Prompts(op: Operation, givenBack: bool): set<string> {
    {op.snapshot.question.normalizedPromptHash}
      + (if givenBack then {} else Elements(op.reservedFallbackHashes))
  }

  /** What a successful first claim may store: a fresh token and prompts nobody has seen. */
  ghost predicate WellOpened(s: Repo, op: Operation) {
    && op.claimToken == Some(s.claimSequence + 1)
    && !op.finalized
    && op.reservedFallbackHashes == PromptHashes(op.snapshot.fallbackCandidates)
    && Distinct(op.reservedFallbackHashes)
    && op.snapshot.question.normalizedPromptHash !in op.reservedFallbackHashes
    && Prompts(op, false) !! PresentedIn(s, op.sessionId)
    && Matched(op.snapshot)
  }

  /** Candidate by candidate, the fallbacks answer the question's rubrics in order. */
  ghost predicate Matched(snapshot: Snapshot) {
    && |snapshot.fallbackCandidates| == |snapshot.question.rubrics|
    && forall i :: 0 <= i < |snapshot.question.rubrics| ==>
         Suits(snapshot.fallbackCandidates[i], snapshot.question.rubrics[i], snapshot.question, {})
  }

  /** The five things a call can do to the operations. */
  datatype Move =
    | Stay
    | Regrant(key: string, expiresAt: int)
    | Unclaim(key: string)
    | Open(key: string, op: Operation)
    | Close(key: string)

  ghost predicate Keeps(s: Repo, t: Repo) {
    t.views == s.views && t.finalizations == s.finalizations
  }

  ghost predicate Moves(s: Repo, t: Repo, e: Event, m: Move) {
    match m
    case Stay =>
      && t.operations == s.operations && t.claimSequence == s.claimSequence
      && (forall sid :: PresentedIn(s, sid) <= PresentedIn(t, sid))
      && match e {
        case Nothing => Keeps(s, t)
        case Replayed(k, view) =>
          Keeps(s, t) && k in s.operations && s.operations[k].finalized && k in s.views && s.views[k] == view
        case ReplacementRecorded(k) => Recorded(s, t, k)
        case _ => false
      }
    case Regrant(k, expiresAt) =>
      && k in s.operations && !s.operations[k].finalized
      && t.claimSequence == s.claimSequence + 1 && e == Granted(k, t.claimSequence)
      && t.operations
        == s.operations[k := s.operations[k].(claimToken := Some(t.claimSequence), expiresAt := expiresAt)]
      && t.presented == s.presented && Keeps(s, t)
    case Unclaim(k) =>
      && k in s.operations && !s.operations[k].finalized && e == Nothing && t.claimSequence == s.claimSequence
      && t.operations == s.operations[k := s.operations[k].(claimToken := None, expiresAt := 0)]
      && t.presented == s.presented && Keeps(s, t)
    case Open(k, op) =>
      && k !in s.operations && WellOpened(s, op)
      && t.claimSequence == s.claimSequence + 1 && e == Granted(k, t.claimSequence)
      && t.operations == s.operations[k := op]
      && t.presented == s.presented[op.sessionId := PresentedIn(s, op.sessionId) + Prompts(op, false)]
      && Keeps(s, t)
    case Close(k) =>
      && k in s.operations && e.Finalized? && e.key == k && s.operations[k].claimToken == Some(e.token)
      && t.claimSequence == s.claimSequence
      && t.operations == s.operations[k := s.operations[k].(finalized := true, claimToken := None)]
      && Recorded(s, t, k) && e.view == t.views[k]
      && var sid := s.operations[k].sessionId;
         if e.keepsFallback || sid !in s.presented then t.presented == s.presented
         else t.presented == s.presented[sid := s.presented[sid] - Elements(s.operations[k].reservedFallbackHashes)]
  }

  /** The result was stored, or had been stored before under the same key. */
  ghost predicate Recorded(s: Repo, t: Repo, k: string) {
    && t.views.Keys == s.views.Keys + {k}
    && t.finalizations.Keys == s.finalizations.Keys + {k}
    && (forall l :: l in s.views && (l == k ==> k in s.finalizations) ==> t.views[l] == s.views[l])
  }

  lemma {:induction false} PickOnlyAdds(rubrics: seq<Rubric>, question: ShortAnswerQuestion, cs: seq<KeyedQuestion>,
      presented: set<string>)
    ensures presented <= Pick(rubrics, question, cs, presented).0
  {
    if rubrics != [] {
      var first := FirstSuiting(Sort(ById, cs), rubrics[0], question, presented);
      if first.Some? {
        PickOnlyAdds(rubrics[1..], question, cs, presented + {first.value.normalizedPromptHash});
      }
    }
  }

  /** A first pick marks a prompt that had not been presented, whatever becomes of the others. */
  lemma FirstPickAdds(rubrics: seq<Rubric>, question: ShortAnswerQuestion, cs: seq<KeyedQuestion>,
      presented: set<string>)
    requires rubrics != [] && FirstSuiting(Sort(ById, cs), rubrics[0], question, presented).Some?
    ensures presented < Pick(rubrics, question, cs, presented).0
  {
    var c := FirstSuiting(Sort(ById, cs), rubrics[0], question, presented).value;
    PickOnlyAdds(rubrics[1..], question, cs, presented + {c.normalizedPromptHash});
    assert c.normalizedPromptHash in Pick(rubrics, question, cs, presented).0;
    assert presented <= Pick(rubrics, question, cs, presented).0;
  }

  lemma {:induction false} PickReservesUnseen(
    rubrics: seq<Rubric>, question: ShortAnswerQuestion, cs: seq<KeyedQuestion>, presented: set<string>)
    requires Pick(rubrics, question, cs, presented).1.Some?
    ensures var (after, picks) := Pick(rubrics, question, cs, presented);
      && |picks.value| == |rubrics|
      && after == presented + Elements(PromptHashes(picks.value))
      && Distinct(PromptHashes(picks.value))
      && forall i :: 0 <= i < |rubrics| ==> Suits(picks.value[i], rubrics[i], question, presented)
  {
    if rubrics != [] {
      var c := FirstSuiting(Sort(ById, cs), rubrics[0], question, presented).value;
      var onward := presented + {c.normalizedPromptHash};
      PickReservesUnseen(rubrics[1..], question, cs, onward);
      var rest := Pick(rubrics[1..], question, cs, onward).1.value;
      assert PromptHashes([c] + rest) == [c.normalizedPromptHash] + PromptHashes(rest);
      forall i | 0 <= i < |rubrics| ensures Suits(([c] + rest)[i], rubrics[i], question, presented) {
        if i > 0 { assert rubrics[1..][i - 1] == rubrics[i]; }
      }
      forall i | 0 <= i < |rest| ensures PromptHashes(rest)[i] != c.normalizedPromptHash {
        assert Suits(rest[i], rubrics[1..][i], question, onward);
      }
    }
  }

  lemma PicksOpenWell(s: Repo, op: Operation, cs: seq<KeyedQuestion>, after: set<string>)
    requires var question := op.snapshot.question;
      && question.normalizedPromptHash !in PresentedIn(s, op.sessionId)
      && Pick(question.rubrics, question, cs, PresentedIn(s, op.sessionId))
        == (after, Some(op.snapshot.fallbackCandidates))
    requires op.claimToken == Some(s.claimSequence + 1) && !op.finalized
    requires op.reservedFallbackHashes == PromptHashes(op.snapshot.fallbackCandidates)
    ensures WellOpened(s, op)
    ensures after + {op.snapshot.question.normalizedPromptHash} == PresentedIn(s, op.sessionId) + Prompts(op, false)
  {
    var question, before := op.snapshot.question, PresentedIn(s, op.sessionId);
    PickReservesUnseen(question.rubrics, question, cs, before);
    forall i | 0 <= i < |op.reservedFallbackHashes|
      ensures op.reservedFallbackHashes[i] !in before
      ensures op.reservedFallbackHashes[i] != question.normalizedPromptHash
    {
      assert Suits(op.snapshot.fallbackCandidates[i], question.rubrics[i], question, before);
    }
    forall i | 0 <= i < |question.rubrics|
      ensures Suits(op.snapshot.fallbackCandidates[i], question.rubrics[i], question, {})
    {
      assert Suits(op.snapshot.fallbackCandidates[i], question.rubrics[i], question, before);
    }
  }

  lemma SuccessfulFirstClaimOpens(s: Repo, auth: Authorization, req: ClaimRequest, now: int) returns (op: Operation)
    requires req.idempotencyKey !in s.operations && ClaimFirst(s, auth, req, now).1.Ok?
    ensures var (t, r) := ClaimFirst(s, auth, req, now);
      Moves(s, t, ClaimEvent(req, r), Open(req.idempotencyKey, op))
  {
    var t := ClaimFirst(s, auth, req, now).0;
    var question := s.sessions[req.sessionId].questions[req.questionId];
    var cs := s.sessions[req.sessionId].fallbackCandidates;
    op := t.operations[req.idempotencyKey];
    PicksOpenWell(s, op, cs, Pick(question.rubrics, question, cs, PresentedIn(s, req.sessionId)).0);
  }

  lemma FirstClaimMoves(s: Repo, auth: Authorization, req: ClaimRequest, now: int) returns (m: Move)
    requires req.idempotencyKey !in s.operations
    ensures var (t, r) := ClaimFirst(s, auth, req, now);
      Moves(s, t, ClaimEvent(req, r), m)
  {
    var r := ClaimFirst(s, auth, req, now).1;
    m := Stay;
    if r.Ok? {
      var op := SuccessfulFirstClaimOpens(s, auth, req, now);
      m := Open(req.idempotencyKey, op);
    } else if r.error == FallbackUnavailable {
      var question := s.sessions[req.sessionId].questions[req.questionId];
      PickOnlyAdds(question.rubrics, question, s.sessions[req.sessionId].fallbackCandidates,
        PresentedIn(s, req.sessionId));
    }
  }

  lemma SecondClaimMoves(s: Repo, req: ClaimRequest, now: int) returns (m: Move)
    requires Sound(s) && req.idempotencyKey in s.operations
    ensures var (t, r) := ClaimAgain(s, req, now);
      Moves(s, t, ClaimEvent(req, r), m)
  {
    var r := ClaimAgain(s, req, now).1;
    m := if r.Ok? && r.value.Claimed? then Regrant(req.idempotencyKey, now + req.leaseMs) else Stay;
  }

  lemma BindingIsNoMove(s: Repo, b: Repo, t: Repo, e: Event, m: Move)
    requires Moves(b, t, e, m) && b == s.(policyBindings := b.policyBindings)
    ensures Moves(s, t, e, m)
  {
    assert forall sid :: PresentedIn(b, sid) == PresentedIn(s, sid);
  }

  lemma ClaimMoves(s: Repo, auth: Authorization, req: ClaimRequest, now: int) returns (m: Move)
    requires Sound(s)
    ensures Moves(s, Apply(s, ClaimStep(auth, req, now)).0, Apply(s, ClaimStep(auth, req, now)).1, m)
  {
    m := Stay;
    var bound := BindPolicy(s, req.policy);
    if bound.Some? {
      var b := bound.value;
      if req.idempotencyKey in s.operations {
        m := SecondClaimMoves(b, req, now);
      } else {
        m := FirstClaimMoves(b, auth, req, now);
      }
      var (t, e) := Apply(s, ClaimStep(auth, req, now));
      BindingIsNoMove(s, b, t, e, m);
    }
  }

  lemma PutRecords(s: Repo, k: string, p: Policy, f: Finalization, view: View)
    requires Sound(s)
    ensures var r := Put(s, k, p, f, view);
      && (r.Ok? ==> Recorded(s, r.value, k))
      && (r.Ok? ==> (r.value.operations, r.value.presented, r.value.claimSequence, r.value.bundles)
                      == (s.operations, s.presented, s.claimSequence, s.bundles))
  {
  }

  lemma FinalizeMoves(s: Repo, auth: Authorization, f: ShortAnswerFinalization) returns (m: Move)
    requires Sound(s)
    ensures Moves(s, Apply(s, FinalizeStep(auth, f)).0, Apply(s, FinalizeStep(auth, f)).1, m)
    ensures m == if FinalizeShortAnswer(s, auth, f).1.Ok? then Close(f.idempotencyKey) else Stay
  {
    if FinalizeShortAnswer(s, auth, f).1.Err? {
      m := Stay;
      FailedFinalizeStays(s, auth, f);
    } else {
      m := Close(f.idempotencyKey);
      PutRecords(s, f.idempotencyKey, f.policy, ShortAnswer(f), ShortAnswerView(f));
      SuccessfulFinalize(s, auth, f);
    }
  }

  lemma FailedFinalizeStays(s: Repo, auth: Authorization, f: ShortAnswerFinalization)
    requires Sound(s) && FinalizeShortAnswer(s, auth, f).1.Err?
    ensures Moves(s, Apply(s, FinalizeStep(auth, f)).0, Apply(s, FinalizeStep(auth, f)).1, Stay)
  {
  }

  lemma SuccessfulFinalize(s: Repo, auth: Authorization, f: ShortAnswerFinalization)
    requires FinalizeShortAnswer(s, auth, f).1.Ok?
    ensures var k := f.idempotencyKey;
      var op, t := s.operations[k], FinalizeShortAnswer(s, auth, f).0;
      var put := Put(s, k, f.policy, ShortAnswer(f), ShortAnswerView(f));
      && put.Ok? && (t.views, t.finalizations) == (put.value.views, put.value.finalizations)
      && (k in t.views ==> FinalizeShortAnswer(s, auth, f).1 == Ok(t.views[k]))
      && t.claimSequence == s.claimSequence
      && t.operations == s.operations[k := op.(finalized := true, claimToken := None)]
      && t.presented == if f.fallback.Some? || op.sessionId !in s.presented then s.presented
                        else s.presented[op.sessionId :=
                          s.presented[op.sessionId] - Elements(op.reservedFallbackHashes)]
  {
  }

  lemma ReplacementMoves(s: Repo, auth: Authorization, f: ReplacementFinalization)
    requires Sound(s)
    ensures Moves(s, Apply(s, ReplacementStep(auth, f)).0, Apply(s, ReplacementStep(auth, f)).1, Stay)
  {
    if f.bundleId in s.bundles {
      PutRecords(s, f.idempotencyKey, f.policy, Replacement(f),
                 View(f.attemptId, [f.evidence], None, Graded, Some(s.bundles[f.bundleId].originalAttemptId),
                      f.requestDigest));
    }
  }

  lemma StepMoves(s: Repo, step: Step) returns (m: Move)
    requires Sound(s)
    ensures Moves(s, Apply(s, step).0, Apply(s, step).1, m)
  {
    match step
    case Seed(_, _) => m := Stay;
    case ClaimStep(auth, req, now) => m := ClaimMoves(s, auth, req, now);
    case FinalizeStep(auth, f) => m := FinalizeMoves(s, auth, f);
    case ReplacementStep(auth, f) => ReplacementMoves(s, auth, f); m := Stay;
    case ReleaseStep(auth, k, token) => m := if ReleaseClaim(s, auth, k, token) == s then Stay else Unclaim(k);
  }

  // ----- What every move keeps ------------------------------------------------------------

  /** Tokens are unique and no larger than the counter; a finalized operation has a view and no token. */
  ghost predicate Sound(s: Repo) {
    && s.views.Keys == s.finalizations.Keys
    && (forall k :: k in s.operations ==> SoundOperation(s, k))
    && (forall k, l :: k in s.operations && l in s.operations && k != l && s.operations[k].claimToken.Some? ==>
          s.operations[k].claimToken != s.operations[l].claimToken)
  }

  ghost predicate SoundOperation(s: Repo, k: string)
    requires k in s.operations
  {
    var op := s.operations[k];
    && (op.finalized ==> op.claimToken.None? && k in s.views)
    && (op.claimToken.Some? ==> op.claimToken.value <= s.claimSequence)
    && op.reservedFallbackHashes == PromptHashes(op.snapshot.fallbackCandidates)
  }

  lemma MoveKeepsSound(s: Repo, t: Repo, e: Event, m: Move)
    requires Sound(s) && Moves(s, t, e, m)
    ensures Sound(t)
  {
    assert s.views.Keys <= t.views.Keys;
    forall k | k in t.operations ensures SoundOperation(t, k) {
      assert k in s.operations ==> SoundOperation(s, k);
    }
    forall k, l | k in t.operations && l in t.operations && k != l && t.operations[k].claimToken.Some?
      ensures t.operations[k].claimToken != t.operations[l].claimToken
    {
      assert k in s.operations ==> SoundOperation(s, k);
      assert l in s.operations ==> SoundOperation(s, l);
    }
  }

  ghost predicate AllMatched(s: Repo) {
    forall k :: k in s.operations ==> Matched(s.operations[k].snapshot)
  }

  lemma MoveKeepsMatched(s: Repo, t: Repo, e: Event, m: Move)
    requires AllMatched(s) && Moves(s, t, e, m)
    ensures AllMatched(t)
  {
  }

  ghost predicate HeldBySession(s: Repo, released: set<string>) {
    && (forall k :: k in released ==> k in s.operations && s.operations[k].finalized)
    && (forall k :: k in s.operations ==> HoldsItsOwn(s, k, k in released))
    && (forall k, l :: k in s.operations && l in s.operations && k != l ==>
          HoldApart(s.operations[k], k in released, s.operations[l], l in released))
  }

  ghost predicate HoldsItsOwn(s: Repo, k: string, givenBack: bool)
    requires k in s.operations
  {
    var op := s.operations[k];
    && Prompts(op, givenBack) <= PresentedIn(s, op.sessionId)
    && Distinct(op.reservedFallbackHashes)
    && op.snapshot.question.normalizedPromptHash !in op.reservedFallbackHashes
  }

  ghost predicate HoldApart(a: Operation, aGivenBack: bool, b: Operation, bGivenBack: bool) {
    a.sessionId == b.sessionId ==> Prompts(a, aGivenBack) !! Prompts(b, bGivenBack)
  }

  function ReleasedBy(released: set<string>, e: Event): set<string> {
    released + if e.Finalized? && !e.keepsFallback then {e.key} else {}
  }

  lemma MoveKeepsOwn(s: Repo, released: set<string>, t: Repo, e: Event, m: Move, k: string)
    requires Sound(s) && HeldBySession(s, released) && Moves(s, t, e, m) && k in t.operations
    ensures HoldsItsOwn(t, k, k in ReleasedBy(released, e))
  {
    if k in s.operations {
      assert HoldsItsOwn(s, k, k in released);
      assert SoundOperation(s, k);
      if m.Close? && k != m.key {
        assert SoundOperation(s, m.key) && m.key !in released;
        assert HoldApart(s.operations[k], k in released, s.operations[m.key], false);
      }
    }
  }

  lemma MoveKeepsApart(s: Repo, released: set<string>, t: Repo, e: Event, m: Move, k: string, l: string)
    requires Sound(s) && HeldBySession(s, released) && Moves(s, t, e, m)
    requires k in t.operations && l in t.operations && k != l
    ensures HoldApart(t.operations[k], k in ReleasedBy(released, e), t.operations[l], l in ReleasedBy(released, e))
  {
    if k in s.operations && l in s.operations {
      assert HoldApart(s.operations[k], k in released, s.operations[l], l in released);
    } else if k in s.operations {
      assert HoldsItsOwn(s, k, k in released);
    } else if l in s.operations {
      assert HoldsItsOwn(s, l, l in released);
    }
  }

  lemma MoveKeepsHeld(s: Repo, released: set<string>, t: Repo, e: Event, m: Move)
    requires Sound(s) && HeldBySession(s, released) && Moves(s, t, e, m)
    ensures HeldBySession(t, ReleasedBy(released, e))
  {
    forall k | k in t.operations ensures HoldsItsOwn(t, k, k in ReleasedBy(released, e)) {
      MoveKeepsOwn(s, released, t, e, m, k);
    }
    forall k, l | k in t.operations && l in t.operations && k != l
      ensures HoldApart(t.operations[k], k in ReleasedBy(released, e), t.operations[l], l in ReleasedBy(released, e))
    {
      MoveKeepsApart(s, released, t, e, m, k, l);
    }
  }

  // ----- Every run ------------------------------------------------------------------------

  function Released(h: seq<Event>): set<string> {
    if h == [] then {} else ReleasedBy(Released(h[..|h| - 1]), h[|h| - 1])
  }

  function LastGrant(h: seq<Event>, k: string): Option<nat> {
    if h == [] then None
    else if h[|h| - 1].Granted? && h[|h| - 1].key == k then Some(h[|h| - 1].token)
    else LastGrant(h[..|h| - 1], k)
  }

  /** In every reachable state the prompts held by a session's operations are pairwise disjoint
      and all marked as presented. */
  lemma {:induction false} ReservationsStayDisjoint(steps: seq<Step>)
    ensures Sound(Execute(steps))
    ensures HeldBySession(Execute(steps), Released(History(steps)))
  {
    if steps != [] {
      var before, step := steps[..|steps| - 1], steps[|steps| - 1];
      ReservationsStayDisjoint(before);
      var m := StepMoves(Execute(before), step);
      var (t, e) := Apply(Execute(before), step);
      MoveKeepsSound(Execute(before), t, e, m);
      MoveKeepsHeld(Execute(before), Released(History(before)), t, e, m);
      assert History(steps)[..|steps| - 1] == History(before);
    }
  }

  lemma {:induction false} SnapshotsStayMatched(steps: seq<Step>)
    ensures AllMatched(Execute(steps))
  {
    if steps != [] {
      var before, step := steps[..|steps| - 1], steps[|steps| - 1];
      SnapshotsStayMatched(before);
      ReservationsStayDisjoint(before);
      var m := StepMoves(Execute(before), step);
      MoveKeepsMatched(Execute(before), Execute(steps), Apply(Execute(before), step).1, m);
    }
  }

  /** What the events so far say about the present state. */
  ghost predicate Explains(h: seq<Event>, s: Repo) {
    && (forall k :: k in s.operations && s.operations[k].claimToken.Some? ==>
      LastGrant(h, k) == s.operations[k].claimToken)
    && (forall i :: 0 <= i < |h| && h[i].Finalized? ==> Closed(s, h[i].key, h[i].view))
    && (forall k :: k in s.finalizations ==> exists i :: 0 <= i < |h| && Records(h[i], k))
  }

  ghost predicate Closed(s: Repo, k: string, view: View) {
    k in s.operations && s.operations[k].finalized && k in s.views && s.views[k] == view
  }

  predicate Records(e: Event, k: string) {
    (e.Finalized? || e.ReplacementRecorded?) && e.key == k
  }

  lemma TokenExplained(h: seq<Event>, s: Repo, t: Repo, e: Event, m: Move, k: string)
    requires Explains(h, s) && Moves(s, t, e, m) && k in t.operations && t.operations[k].claimToken.Some?
    ensures LastGrant(h + [e], k) == t.operations[k].claimToken
  {
    assert (h + [e])[..|h|] == h;
  }

  lemma ClosedStaysClosed(s: Repo, t: Repo, e: Event, m: Move, k: string, view: View)
    requires Sound(s) && Moves(s, t, e, m) && Closed(s, k, view)
    ensures Closed(t, k, view)
  {
    assert SoundOperation(s, k);
  }

  lemma NewlyClosed(s: Repo, t: Repo, e: Event, m: Move)
    requires Moves(s, t, e, m) && e.Finalized?
    ensures Closed(t, e.key, e.view)
  {
  }

  lemma NewlyRecorded(s: Repo, t: Repo, e: Event, m: Move, k: string)
    requires Moves(s, t, e, m) && k in t.finalizations
    ensures k in s.finalizations || Records(e, k)
  {
  }

  lemma MoveExplained(h: seq<Event>, s: Repo, t: Repo, e: Event, m: Move)
    requires Sound(s) && Explains(h, s) && Moves(s, t, e, m)
    ensures Explains(h + [e], t)
  {
    var g := h + [e];
    forall k | k in t.operations && t.operations[k].claimToken.Some?
      ensures LastGrant(g, k) == t.operations[k].claimToken
    {
      TokenExplained(h, s, t, e, m, k);
    }
    forall i | 0 <= i < |g| && g[i].Finalized? ensures Closed(t, g[i].key, g[i].view) {
      if i < |h| {
        assert Closed(s, h[i].key, h[i].view);
        ClosedStaysClosed(s, t, e, m, h[i].key, h[i].view);
      } else {
        NewlyClosed(s, t, e, m);
      }
    }
    forall k | k in t.finalizations ensures exists i :: 0 <= i < |g| && Records(g[i], k) {
      NewlyRecorded(s, t, e, m, k);
      if k in s.finalizations {
        var i :| 0 <= i < |h| && Records(h[i], k);
        assert Records(g[i], k);
      } else {
        assert Records(g[|h|], k);
      }
    }
  }

  lemma {:induction false} HistoryExplains(steps: seq<Step>)
    ensures Explains(History(steps), Execute(steps))
  {
    if steps != [] {
      var before, step := steps[..|steps| - 1], steps[|steps| - 1];
      HistoryExplains(before);
      ReservationsStayDisjoint(before);
      var m := StepMoves(Execute(before), step);
      var (t, e) := Apply(Execute(before), step);
      MoveExplained(History(before), Execute(before), t, e, m);
    }
  }

  /** A call under a finalized key, as far as a short answer is concerned. */
  predicate Concerns(e: Event, k: string) {
    (e.Granted? || e.Finalized? || e.Replayed?) && e.key == k
  }

  lemma ClosedOnlyReplays(s: Repo, t: Repo, e: Event, m: Move, k: string, view: View)
    requires Sound(s) && Moves(s, t, e, m) && Closed(s, k, view) && Concerns(e, k)
    ensures e == Replayed(k, view)
  {
    assert SoundOperation(s, k);
  }

  /** No event on a finalized key other than handing out the stored view. */
  ghost predicate OnceThenReplays(h: seq<Event>) {
    forall i, j :: 0 <= i < j < |h| && h[i].Finalized? && Concerns(h[j], h[i].key) ==>
      h[j] == Replayed(h[i].key, h[i].view)
  }

  ghost predicate ByLatestHolder(h: seq<Event>) {
    forall i :: 0 <= i < |h| && h[i].Finalized? ==> LastGrant(h[..i], h[i].key) == Some(h[i].token)
  }

  lemma EventKeepsOrder(h: seq<Event>, s: Repo, t: Repo, e: Event, m: Move)
    requires Sound(s) && Explains(h, s) && Moves(s, t, e, m)
    requires OnceThenReplays(h) && ByLatestHolder(h)
    ensures OnceThenReplays(h + [e]) && ByLatestHolder(h + [e])
  {
    var g := h + [e];
    forall i, j | 0 <= i < j < |g| && g[i].Finalized? && Concerns(g[j], g[i].key)
      ensures g[j] == Replayed(g[i].key, g[i].view)
    {
      assert g[i] == h[i];
      if j == |h| {
        ClosedOnlyReplays(s, t, e, m, h[i].key, h[i].view);
      }
    }
    forall i | 0 <= i < |g| && g[i].Finalized? ensures LastGrant(g[..i], g[i].key) == Some(g[i].token) {
      assert g[..i] == h[..i];
      if i < |h| {
        assert g[i] == h[i];
      } else {
        assert h[..i] == h;
      }
    }
  }

  /** Each key is finalized at most once, only under the token of its latest grant, and from
      then on a call under that key either fails or returns the view stored then. */
  lemma {:induction false} FinalizedAtMostOnce(steps: seq<Step>)
    ensures OnceThenReplays(History(steps))
    ensures ByLatestHolder(History(steps))
  {
    if steps != [] {
      var before, step := steps[..|steps| - 1], steps[|steps| - 1];
      FinalizedAtMostOnce(before);
      HistoryExplains(before);
      ReservationsStayDisjoint(before);
      var m := StepMoves(Execute(before), step);
      var (t, e) := Apply(Execute(before), step);
      EventKeepsOrder(History(before), Execute(before), t, e, m);
    }
  }

  /** After a finalization, claiming again with the operation's digest returns that view, unless
      the caller's policy contradicts the binding of its version. */
  lemma ClaimAfterFinalizationReplays(steps: seq<Step>, i: nat, auth: Authorization, req: ClaimRequest, now: int)
    requires i < |steps| && History(steps)[i].Finalized? && History(steps)[i].key == req.idempotencyKey
    ensures var s := Execute(steps);
      && req.idempotencyKey in s.operations
      && Claim(s, auth, req, now).1 ==
           if BindPolicy(s, req.policy).None? then Err(InvalidConfiguration)
           else if req.requestDigest != s.operations[req.idempotencyKey].requestDigest then Err(ConflictingDuplicate)
           else Ok(AlreadyFinalized(History(steps)[i].view))
  {
    HistoryExplains(steps);
    assert Closed(Execute(steps), History(steps)[i].key, History(steps)[i].view);
  }

  lemma {:induction false} HistoryOfPrefix(steps: seq<Step>, i: nat)
    requires i < |steps|
    ensures History(steps)[..i] == History(steps[..i])
    ensures History(steps)[i] == Apply(Execute(steps[..i]), steps[i]).1
  {
    var before := steps[..|steps| - 1];
    if i < |before| {
      HistoryOfPrefix(before, i);
      assert before[..i] == steps[..i];
    } else {
      assert before == steps[..i];
    }
  }

  lemma FinalizedByFinalizing(s: Repo, step: Step)
    requires Apply(s, step).1.Finalized?
    ensures step.FinalizeStep? && step.short.idempotencyKey == Apply(s, step).1.key
    ensures FinalizeShortAnswer(s, step.auth, step.short).1 == Ok(Apply(s, step).1.view)
  {
  }

  lemma RecordOfFinalization(steps: seq<Step>, i: nat, k: string) returns (j: nat)
    requires i < |steps| && k in Execute(steps[..i]).finalizations
    ensures j < i && Records(History(steps)[j], k)
  {
    HistoryExplains(steps[..i]);
    HistoryOfPrefix(steps, i);
    j :| 0 <= j < i && Records(History(steps[..i])[j], k);
    assert History(steps)[..i][j] == History(steps)[j];
  }

  lemma FinalizationIsFirstRecord(steps: seq<Step>, i: nat)
    requires i < |steps| && History(steps)[i].Finalized?
    requires forall j :: 0 <= j < i ==> History(steps)[j] != ReplacementRecorded(History(steps)[i].key)
    ensures History(steps)[i].key !in Execute(steps[..i]).finalizations
  {
    var k := History(steps)[i].key;
    if k in Execute(steps[..i]).finalizations {
      var j := RecordOfFinalization(steps, i, k);
      FinalizedAtMostOnce(steps);
      assert Concerns(History(steps)[i], History(steps)[j].key);
      assert false;
    }
  }

  lemma CloseFreesOnlyItsOwn(s: Repo, released: set<string>, t: Repo, e: Event, k: string, l: string)
    requires Sound(s) && HeldBySession(s, released) && Moves(s, t, e, Close(k)) && !e.keepsFallback
    requires l in s.operations && l != k
    ensures var op, other := s.operations[k], s.operations[l];
      && PresentedIn(t, op.sessionId) == PresentedIn(s, op.sessionId) - Elements(op.reservedFallbackHashes)
      && op.snapshot.question.normalizedPromptHash in PresentedIn(t, op.sessionId)
      && Prompts(other, l in released) <= PresentedIn(t, other.sessionId)
  {
    assert SoundOperation(s, k) && k !in released;
    assert HoldsItsOwn(s, k, false) && HoldsItsOwn(s, l, l in released);
    assert HoldApart(s.operations[l], l in released, s.operations[k], false);
    assert s.operations[k].snapshot.question.normalizedPromptHash in Prompts(s.operations[k], false);
  }

  /** A graded finalization gives back its own reservations and takes nothing from any other
      operation of the session. */
  lemma GradedFinalizationFreesOnlyItsOwn(steps: seq<Step>, auth: Authorization, f: ShortAnswerFinalization, l: string)
    requires f.fallback.None? && FinalizeShortAnswer(Execute(steps), auth, f).1.Ok?
    requires l in Execute(steps).operations && l != f.idempotencyKey
    ensures var s, t := Execute(steps), FinalizeShortAnswer(Execute(steps), auth, f).0;
      var op, other := s.operations[f.idempotencyKey], s.operations[l];
      && PresentedIn(t, op.sessionId) == PresentedIn(s, op.sessionId) - Elements(op.reservedFallbackHashes)
      && op.snapshot.question.normalizedPromptHash in PresentedIn(t, op.sessionId)
      && Prompts(other, l in Released(History(steps))) <= PresentedIn(t, other.sessionId)
  {
    ReservationsStayDisjoint(steps);
    var m := FinalizeMoves(Execute(steps), auth, f);
    var (t, e) := Apply(Execute(steps), FinalizeStep(auth, f));
    CloseFreesOnlyItsOwn(Execute(steps), Released(History(steps)), t, e, f.idempotencyKey, l);
  }

  /** No prompt is presented twice as a question in a session, nor kept as another operation's
      fallback after an abstention. */
  lemma NoPromptRepeats(steps: seq<Step>, k: string, l: string)
    requires k in Execute(steps).operations && l in Execute(steps).operations && k != l
    requires Execute(steps).operations[k].sessionId == Execute(steps).operations[l].sessionId
    ensures var s := Execute(steps);
      var asked := s.operations[k].snapshot.question.normalizedPromptHash;
      && asked != s.operations[l].snapshot.question.normalizedPromptHash
      && (l !in Released(History(steps)) ==> asked !in s.operations[l].reservedFallbackHashes)
  {
    ReservationsStayDisjoint(steps);
    var s, released := Execute(steps), Released(History(steps));
    assert HoldApart(s.operations[k], k in released, s.operations[l], l in released);
    assert s.operations[k].snapshot.question.normalizedPromptHash in Prompts(s.operations[k], k in released);
  }

  /** A claim that finds no fallback leaves the session's presented prompts as they were exactly
      when the session has no stored set yet or already the first rubric found none; otherwise
      the earlier picks stay marked although no operation holds them. */
  lemma FailedClaimLeaksPicks(s: Repo, auth: Authorization, req: ClaimRequest, now: int)
    requires Claim(s, auth, req, now).1 == Err(FallbackUnavailable)
    ensures var session := s.sessions[req.sessionId];
      var question := session.questions[req.questionId];
      (Claim(s, auth, req, now).0.presented == s.presented) <==>
        (req.sessionId !in s.presented
         || FirstSuiting(Sort(ById, session.fallbackCandidates), question.rubrics[0], question,
                         s.presented[req.sessionId]).None?)
  {
    var session := s.sessions[req.sessionId];
    var question := session.questions[req.questionId];
    var before := PresentedIn(s, req.sessionId);
    if FirstSuiting(Sort(ById, session.fallbackCandidates), question.rubrics[0], question, before).Some? {
      FirstPickAdds(question.rubrics, question, session.fallbackCandidates, before);
    }
    var (after, _) := Pick(question.rubrics, question, session.fallbackCandidates, before);
    if req.sessionId in s.presented {
      assert s.presented[req.sessionId := after][req.sessionId] == after;
      if after == before {
        assert s.presented[req.sessionId := after] == s.presented;
      }
    }
  }
}
