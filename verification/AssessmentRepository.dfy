/** The repository that arbitrates between grading workers: one claim per idempotency key,
    fenced by a token, and a reservation of unseen fallback prompts per session. `Repo` is its
    whole state as a value; the functions say what each call does to it, and the class below
    does the same in place. */
module AssessmentRepository {
  import opened Wrappers
  import opened StableSort
  import opened TextOrder
  import opened AssessmentContracts

  datatype Operation = Operation(
    claimToken: Option<nat>, expiresAt: int, finalized: bool, requestDigest: string,
    reservedFallbackHashes: seq<string>, sessionId: string, snapshot: Snapshot)

  datatype Repo = Repo(
    bundles: map<string, Bundle<KeyedQuestion>>,
    finalizations: map<string, Finalization>,
    operations: map<string, Operation>,
    policyBindings: map<string, Policy>,
    presented: map<string, set<string>>,
    sessions: map<string, Session>,
    views: map<string, View>,
    claimSequence: nat)

  const EMPTY := Repo(map[], map[], map[], map[], map[], map[], map[], 0)

  predicate ById(a: KeyedQuestion, b: KeyedQuestion) {
    TextLeq(a.id, b.id)
  }

  lemma ByIdIsTotalPreorder()
    ensures TotalPreorder(ById)
  {
    TextLeqIsTotalOrder();
    forall a, b, c | ById(a, b) && ById(b, c) ensures ById(a, c) {
      TextLeqTransitive(a.id, b.id, c.id);
    }
  }

  predicate Suits(c: KeyedQuestion, rubric: Rubric, question: ShortAnswerQuestion, presented: set<string>) {
    && c.conceptIds != [] && c.conceptIds[0] == rubric.conceptId
    && c.courseId == question.courseId
    && c.rubricId == rubric.rubricId
    && c.rubricVersion == rubric.rubricVersion
    && c.normalizedPromptHash !in presented
    && c.normalizedPromptHash != question.normalizedPromptHash
  }

  /** The source's `find` over the candidates. */
  function FirstSuiting(cs: seq<KeyedQuestion>, rubric: Rubric, question: ShortAnswerQuestion, presented: set<string>)
    : (r: Option<KeyedQuestion>)
    ensures r.Some? ==> r.value in cs && Suits(r.value, rubric, question, presented)
    ensures r.None? ==> forall c :: c in cs ==> !Suits(c, rubric, question, presented)
  {
    if cs == [] then None
    else if Suits(cs[0], rubric, question, presented) then Some(cs[0])
    else FirstSuiting(cs[1..], rubric, question, presented)
  }

  lemma {:induction false} FirstSuitingIsLeast(
    cs: seq<KeyedQuestion>, rubric: Rubric, question: ShortAnswerQuestion, presented: set<string>)
    requires SortedBy(ById, cs) && FirstSuiting(cs, rubric, question, presented).Some?
    ensures forall c :: c in cs && Suits(c, rubric, question, presented) ==>
      TextLeq(FirstSuiting(cs, rubric, question, presented).value.id, c.id)
  {
    if Suits(cs[0], rubric, question, presented) {
      TextLeqTotal(cs[0].id, cs[0].id);
      forall c | c in cs ensures TextLeq(cs[0].id, c.id) {
        var i :| 0 <= i < |cs| && cs[i] == c;
        if i > 0 { assert ById(cs[0], cs[i]); }
      }
    } else {
      FirstSuitingIsLeast(cs[1..], rubric, question, presented);
    }
  }

  /** For each rubric the reserved fallback is the suiting candidate with the least id, in
      whatever order the session lists its candidates. */
  lemma FallbackIsLeastSuitingId(
    cs: seq<KeyedQuestion>, rubric: Rubric, question: ShortAnswerQuestion, presented: set<string>)
    ensures var r := FirstSuiting(Sort(ById, cs), rubric, question, presented);
      && (r.None? <==> forall c :: c in cs ==> !Suits(c, rubric, question, presented))
      && (r.Some? ==> forall c :: c in cs && Suits(c, rubric, question, presented) ==> TextLeq(r.value.id, c.id))
  {
    ByIdIsTotalPreorder();
    SortIsSortedPermutation(ById, cs);
    MembershipFollowsMultiset(Sort(ById, cs), cs);
    if FirstSuiting(Sort(ById, cs), rubric, question, presented).Some? {
      FirstSuitingIsLeast(Sort(ById, cs), rubric, question, presented);
    }
  }

  function Pick(rubrics: seq<Rubric>, question: ShortAnswerQuestion, cs: seq<KeyedQuestion>, presented: set<string>)
    : (set<string>, Option<seq<KeyedQuestion>>)
  {
    if rubrics == [] then (presented, Some([]))
    else
      match FirstSuiting(Sort(ById, cs), rubrics[0], question, presented)
      case None => (presented, None)
      case Some(c) =>
        var (after, rest) := Pick(rubrics[1..], question, cs, presented + {c.normalizedPromptHash});
        (after, if rest.None? then None else Some([c] + rest.value))
  }

  ghost function Prefixed(chosen: seq<KeyedQuestion>, p: (set<string>, Option<seq<KeyedQuestion>>))
    : (set<string>, Option<seq<KeyedQuestion>>)
  {
    (p.0, if p.1.None? then None else Some(chosen + p.1.value))
  }

  lemma PrefixedStep(chosen: seq<KeyedQuestion>, c: KeyedQuestion, p: (set<string>, Option<seq<KeyedQuestion>>))
    ensures Prefixed(chosen, Prefixed([c], p)) == Prefixed(chosen + [c], p)
  {
    if p.1.Some? {
      assert chosen + ([c] + p.1.value) == (chosen + [c]) + p.1.value;
    }
  }

  function BindPolicy(s: Repo, p: Policy): Option<Repo> {
    var v := p.gradingPolicyVersion;
    if v in s.policyBindings && s.policyBindings[v] != p then None
    else Some(s.(policyBindings := s.policyBindings[v := p]))
  }

  function Claim(s: Repo, auth: Authorization, req: ClaimRequest, now: int): (Repo, Result<ClaimReply, Error>) {
    match BindPolicy(s, req.policy)
    case None => (s, Err(InvalidConfiguration))
    case Some(b) =>
      if req.idempotencyKey in b.operations then ClaimAgain(b, req, now) else ClaimFirst(b, auth, req, now)
  }

  function ClaimAgain(s: Repo, req: ClaimRequest, now: int): (Repo, Result<ClaimReply, Error>)
    requires req.idempotencyKey in s.operations
  {
    var k := req.idempotencyKey;
    var op := s.operations[k];
    if op.requestDigest != req.requestDigest then (s, Err(ConflictingDuplicate))
    else if op.finalized then
      (s, if k in s.views then Ok(AlreadyFinalized(s.views[k])) else Err(InvalidResult))
    else if op.claimToken.Some? && op.expiresAt > now then (s, Ok(Pending))
    else
      var token := s.claimSequence + 1;
      (s.(operations := s.operations[k := op.(claimToken := Some(token), expiresAt := now + req.leaseMs)],
          claimSequence := token),
       Ok(Claimed(token, op.snapshot)))
  }

  function PresentedIn(s: Repo, sessionId: string): set<string> {
    if sessionId in s.presented then s.presented[sessionId] else {}
  }

  function ClaimFirst(s: Repo, auth: Authorization, req: ClaimRequest, now: int): (Repo, Result<ClaimReply, Error>) {
    var sid := req.sessionId;
    if sid !in s.sessions || s.sessions[sid].actorId != auth.actorId
       || s.sessions[sid].ownerScopeId != auth.ownerScopeId || req.questionId !in s.sessions[sid].questions
    then (s, Err(AuthorizationDenied))
    else
      var question := s.sessions[sid].questions[req.questionId];
      var before := PresentedIn(s, sid);
      if question.normalizedPromptHash in before then (s, Err(QuestionUnavailable))
      else
        var (after, picks) := Pick(question.rubrics, question, s.sessions[sid].fallbackCandidates, before);
        match picks
        case None =>
          // Hashes picked before the failing rubric stay in a set that was already stored.
          (if sid in s.presented then s.(presented := s.presented[sid := after]) else s, Err(FallbackUnavailable))
        case Some(candidates) =>
          var token := s.claimSequence + 1;
          var snapshot := Snapshot(question, candidates);
          (s.(presented := s.presented[sid := after + {question.normalizedPromptHash}],
              operations := s.operations[req.idempotencyKey := Operation(
                Some(token), now + req.leaseMs, false, req.requestDigest,
                PromptHashes(candidates), sid, snapshot)],
              claimSequence := token),
           Ok(Claimed(token, snapshot)))
  }

  function Put(s: Repo, k: string, p: Policy, f: Finalization, view: View): Result<Repo, Error> {
    match BindPolicy(s, p)
    case None => Err(InvalidConfiguration)
    case Some(b) =>
      if k !in b.finalizations then
        Ok(b.(finalizations := b.finalizations[k := f], views := b.views[k := view]))
      else if b.finalizations[k].RequestDigest() != f.RequestDigest() then Err(ConflictingDuplicate)
      else Ok(b)
  }

  /** `Put` after its policy binding is the only part that can fail with the binding kept. */
  function AfterFailedPut(s: Repo, p: Policy): Repo {
    match BindPolicy(s, p)
    case None => s
    case Some(b) => b
  }

  function ShortAnswerView(f: ShortAnswerFinalization): View {
    View(f.attemptId, f.evidence, if f.fallback.None? then None else Some(SanitizeBundle(f.fallback.value)),
         f.outcome, None, f.requestDigest)
  }

  function FinalizeShortAnswer(s: Repo, auth: Authorization, f: ShortAnswerFinalization): (Repo, Result<View, Error>) {
    var k := f.idempotencyKey;
    if auth.ownerScopeId != f.ownerScopeId || auth.actorId != f.userId then (s, Err(AuthorizationDenied))
    else if k !in s.operations || s.operations[k].requestDigest != f.requestDigest
            || s.operations[k].claimToken != Some(f.claimToken)
    then (s, Err(ConflictingDuplicate))
    else
      var op := s.operations[k];
      var view := ShortAnswerView(f);
      match Put(s, k, f.policy, ShortAnswer(f), view)
      case Err(e) => (AfterFailedPut(s, f.policy), Err(e))
      case Ok(p) =>
        var done := p.(operations := p.operations[k := op.(finalized := true, claimToken := None)]);
        (if f.fallback.Some? then done.(bundles := done.bundles[f.fallback.value.id := f.fallback.value])
         else if op.sessionId in done.presented then
           done.(presented := done.presented[op.sessionId :=
             done.presented[op.sessionId] - (set h | h in op.reservedFallbackHashes)])
         else done,
         Ok(if k in done.views then done.views[k] else view))
  }

  function FinalizeReplacement(s: Repo, auth: Authorization, f: ReplacementFinalization): (Repo, Result<View, Error>) {
    if auth.ownerScopeId != f.ownerScopeId || auth.actorId != f.userId || f.bundleId !in s.bundles
    then (s, Err(AuthorizationDenied))
    else
      var view := View(f.attemptId, [f.evidence], None, Graded,
                       Some(s.bundles[f.bundleId].originalAttemptId), f.requestDigest);
      match Put(s, f.idempotencyKey, f.policy, Replacement(f), view)
      case Err(e) => (AfterFailedPut(s, f.policy), Err(e))
      case Ok(p) => (p, Ok(if f.idempotencyKey in p.views then p.views[f.idempotencyKey] else view))
  }

  function ReleaseClaim(s: Repo, auth: Authorization, k: string, token: nat): Repo {
    if k in s.operations && s.operations[k].sessionId in s.sessions
       && s.sessions[s.operations[k].sessionId].actorId == auth.actorId
       && s.sessions[s.operations[k].sessionId].ownerScopeId == auth.ownerScopeId
       && s.operations[k].claimToken == Some(token) && !s.operations[k].finalized
    then s.(operations := s.operations[k := s.operations[k].(claimToken := None, expiresAt := 0)])
    else s
  }

  class InMemoryAssessmentRepository {
    var bundles: map<string, Bundle<KeyedQuestion>>
    var finalizations: map<string, Finalization>
    var operations: map<string, Operation>
    var policyBindings: map<string, Policy>
    var presentedHashes: map<string, set<string>>
    var sessions: map<string, Session>
    var views: map<string, View>
    var claimSequence: nat

    ghost function State(): Repo
      reads this
    {
      Repo(bundles, finalizations, operations, policyBindings, presentedHashes, sessions, views, claimSequence)
    }

    constructor ()
      ensures State() == EMPTY
    {
      bundles, finalizations, operations, policyBindings := map[], map[], map[], map[];
      presentedHashes, sessions, views, claimSequence := map[], map[], map[], 0;
    }

    method SeedAuthorizedSession(sessionId: string, session: Session)
      modifies this
      ensures State() == old(State()).(sessions := old(sessions)[sessionId := session])
    {
      sessions := sessions[sessionId := session];
    }

    method BindPolicyInPlace(p: Policy) returns (ok: bool)
      modifies this
      ensures ok == BindPolicy(old(State()), p).Some?
      ensures State() == if ok then BindPolicy(old(State()), p).value else old(State())
    {
      var v := p.gradingPolicyVersion;
      if v in policyBindings && policyBindings[v] != p {
        return false;
      }
      policyBindings := policyBindings[v := p];
      return true;
    }

    method NextClaimToken() returns (token: nat)
      modifies this
      ensures token == old(claimSequence) + 1
      ensures State() == old(State()).(claimSequence := token)
    {
      claimSequence := claimSequence + 1;
      token := claimSequence;
    }

    method ClaimShortAnswer(auth: Authorization, req: ClaimRequest, now: int)
      returns (r: Result<ClaimReply, Error>)
      modifies this
      ensures (State(), r) == Claim(old(State()), auth, req, now)
    {
      var k := req.idempotencyKey;
      var bound := BindPolicyInPlace(req.policy);
      if !bound {
        return Err(InvalidConfiguration);
      }
      if k in operations {
        var current := operations[k];
        if current.requestDigest != req.requestDigest {
          return Err(ConflictingDuplicate);
        }
        if current.finalized {
          if k !in views {
            return Err(InvalidResult);
          }
          return Ok(AlreadyFinalized(views[k]));
        }
        if current.claimToken.Some? && current.expiresAt > now {
          return Ok(Pending);
        }
        var token := NextClaimToken();
        operations := operations[k := current.(claimToken := Some(token), expiresAt := now + req.leaseMs)];
        return Ok(Claimed(token, current.snapshot));
      }
      r := ClaimUnseen(auth, req, now);
    }

    method ClaimUnseen(auth: Authorization, req: ClaimRequest, now: int)
      returns (r: Result<ClaimReply, Error>)
      modifies this
      ensures (State(), r) == ClaimFirst(old(State()), auth, req, now)
    {
      var sid := req.sessionId;
      if sid !in sessions || sessions[sid].actorId != auth.actorId || sessions[sid].ownerScopeId != auth.ownerScopeId {
        return Err(AuthorizationDenied);
      }
      var session := sessions[sid];
      if req.questionId !in session.questions {
        return Err(AuthorizationDenied);
      }
      var question := session.questions[req.questionId];
      var presented := if sid in presentedHashes then presentedHashes[sid] else {};
      if question.normalizedPromptHash in presented {
        return Err(QuestionUnavailable);
      }
      var picks;
      presented, picks := ReserveFallbacks(sid, question, session.fallbackCandidates, presented);
      if picks.None? {
        return Err(FallbackUnavailable);
      }
      presented := presented + {question.normalizedPromptHash};
      presentedHashes := presentedHashes[sid := presented];
      assert presentedHashes == old(presentedHashes)[sid := presented];
      var snapshot := Snapshot(question, picks.value);
      var token := NextClaimToken();
      operations := operations[req.idempotencyKey := Operation(
        Some(token), now + req.leaseMs, false, req.requestDigest, PromptHashes(picks.value), sid, snapshot)];
      return Ok(Claimed(token, snapshot));
    }

    /** The loop over the rubrics. A session that already had a stored set sees each pick at
        once, also when a later rubric finds no candidate. */
    method ReserveFallbacks(sid: string, question: ShortAnswerQuestion, candidates: seq<KeyedQuestion>,
        before: set<string>)
      returns (presented: set<string>, picks: Option<seq<KeyedQuestion>>)
      requires before == if sid in presentedHashes then presentedHashes[sid] else {}
      modifies `presentedHashes
      ensures (presented, picks) == Pick(question.rubrics, question, candidates, before)
      ensures presentedHashes ==
        if sid in old(presentedHashes) then old(presentedHashes)[sid := presented] else old(presentedHashes)
    {
      presented := before;
      var chosen := [];
      ghost var all := Pick(question.rubrics, question, candidates, before);
      assert question.rubrics[0..] == question.rubrics;
      assert all.1.Some? ==> [] + all.1.value == all.1.value;
      for i := 0 to |question.rubrics|
        invariant presentedHashes ==
          if sid in old(presentedHashes) then old(presentedHashes)[sid := presented] else old(presentedHashes)
        invariant all == Prefixed(chosen, Pick(question.rubrics[i..], question, candidates, presented))
      {
        assert question.rubrics[i..][1..] == question.rubrics[i + 1..];
        var candidate := FirstSuiting(Sort(ById, candidates), question.rubrics[i], question, presented);
        if candidate.None? {
          return presented, None;
        }
        presented := presented + {candidate.value.normalizedPromptHash};
        if sid in presentedHashes {
          presentedHashes := presentedHashes[sid := presented];
        }
        PrefixedStep(chosen, candidate.value, Pick(question.rubrics[i + 1..], question, candidates, presented));
        chosen := chosen + [candidate.value];
      }
      assert question.rubrics[|question.rubrics|..] == [] && chosen + [] == chosen;
      picks := Some(chosen);
    }

    method PutOnce(k: string, p: Policy, f: Finalization, view: View) returns (r: Result<(), Error>)
      modifies this
      ensures r.Ok? == Put(old(State()), k, p, f, view).Ok?
      ensures r.Ok? ==> State() == Put(old(State()), k, p, f, view).value
      ensures r.Err? ==> r.error == Put(old(State()), k, p, f, view).error
      ensures r.Err? ==> State() == AfterFailedPut(old(State()), p)
    {
      var bound := BindPolicyInPlace(p);
      if !bound {
        return Err(InvalidConfiguration);
      }
      if k in finalizations && finalizations[k].RequestDigest() != f.RequestDigest() {
        return Err(ConflictingDuplicate);
      }
      if k !in finalizations {
        finalizations := finalizations[k := f];
        views := views[k := view];
      }
      return Ok(());
    }

    method Finalize(auth: Authorization, f: ShortAnswerFinalization) returns (r: Result<View, Error>)
      modifies this
      ensures (State(), r) == FinalizeShortAnswer(old(State()), auth, f)
    {
      var k := f.idempotencyKey;
      if auth.ownerScopeId != f.ownerScopeId || auth.actorId != f.userId {
        return Err(AuthorizationDenied);
      }
      if k !in operations || operations[k].requestDigest != f.requestDigest
         || operations[k].claimToken != Some(f.claimToken) {
        return Err(ConflictingDuplicate);
      }
      var operation := operations[k];
      var view := ShortAnswerView(f);
      var put := PutOnce(k, f.policy, ShortAnswer(f), view);
      if put.Err? {
        return Err(put.error);
      }
      operations := operations[k := operation.(finalized := true, claimToken := None)];
      if f.fallback.Some? {
        bundles := bundles[f.fallback.value.id := f.fallback.value];
      } else if operation.sessionId in presentedHashes {
        var presented := presentedHashes[operation.sessionId];
        ghost var was := presentedHashes;
        for i := 0 to |operation.reservedFallbackHashes|
          invariant presented == was[operation.sessionId] - (set h | h in operation.reservedFallbackHashes[..i])
          invariant presentedHashes == was[operation.sessionId := presented]
          invariant unchanged(`bundles, `sessions, `claimSequence)
          invariant finalizations == Put(old(State()), k, f.policy, ShortAnswer(f), view).value.finalizations
          invariant policyBindings == Put(old(State()), k, f.policy, ShortAnswer(f), view).value.policyBindings
          invariant views == Put(old(State()), k, f.policy, ShortAnswer(f), view).value.views
          invariant operations == old(operations)[k := operation.(finalized := true, claimToken := None)]
        {
          presented := presented - {operation.reservedFallbackHashes[i]};
          presentedHashes := presentedHashes[operation.sessionId := presented];
        }
        assert operation.reservedFallbackHashes[..|operation.reservedFallbackHashes|]
          == operation.reservedFallbackHashes;
      }
      return Ok(if k in views then views[k] else view);
    }

    method FinalizeKeyedReplacement(auth: Authorization, f: ReplacementFinalization) returns (r: Result<View, Error>)
      modifies this
      ensures (State(), r) == FinalizeReplacement(old(State()), auth, f)
    {
      if auth.ownerScopeId != f.ownerScopeId || auth.actorId != f.userId || f.bundleId !in bundles {
        return Err(AuthorizationDenied);
      }
      var view := View(f.attemptId, [f.evidence], None, Graded,
                       Some(bundles[f.bundleId].originalAttemptId), f.requestDigest);
      var put := PutOnce(f.idempotencyKey, f.policy, Replacement(f), view);
      if put.Err? {
        return Err(put.error);
      }
      return Ok(if f.idempotencyKey in views then views[f.idempotencyKey] else view);
    }

    method ReleaseShortAnswerClaim(auth: Authorization, k: string, token: nat)
      modifies this
      ensures State() == ReleaseClaim(old(State()), auth, k, token)
    {
      if k in operations && operations[k].sessionId in sessions
         && sessions[operations[k].sessionId].actorId == auth.actorId
         && sessions[operations[k].sessionId].ownerScopeId == auth.ownerScopeId
         && operations[k].claimToken == Some(token) && !operations[k].finalized {
        operations := operations[k := operations[k].(claimToken := None, expiresAt := 0)];
      }
    }
  }
}
