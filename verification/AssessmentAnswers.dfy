/** What every call to the repository is answered, told from the calls and answers before it alone: who
    was seeded, what was granted to whom and until when, what was finalized, recorded and given back. */
module AssessmentAnswers {
  import opened Wrappers
  import opened AssessmentContracts
  import opened AssessmentRepository
  import opened AssessmentProtocol
  import opened AssessmentStoredViews
  import opened Sequences

  datatype Answer =
    | ToClaim(claim: Result<ClaimReply, Error>)
    | ToFinalize(view: Result<View, Error>)
    | Silent

  datatype Call = Call(step: Step, answer: Answer)

  function AnswerTo(s: Repo, step: Step): Answer {
    match step
    case Seed(_, _) => Silent
    case ClaimStep(auth, req, now) => ToClaim(Claim(s, auth, req, now).1)
    case FinalizeStep(auth, f) => ToFinalize(FinalizeShortAnswer(s, auth, f).1)
    case ReplacementStep(auth, f) => ToFinalize(FinalizeReplacement(s, auth, f).1)
    case ReleaseStep(_, _, _) => Silent
  }

  function Calls(steps: seq<Step>): (calls: seq<Call>)
    ensures |calls| == |steps|
  {
    if steps == [] then [] else
    var before, step := steps[..|steps| - 1], steps[|steps| - 1];
    Calls(before) + [Call(step, AnswerTo(Execute(before), step))]
  }

  // ----- What the calls so far say ---------------------------------------------------------

  predicate Grants(c: Call, k: string) {
    && c.step.ClaimStep? && c.step.req.idempotencyKey == k
    && c.answer.ToClaim? && c.answer.claim.Ok? && c.answer.claim.value.Claimed?
  }

  predicate Finalizes(c: Call, k: string) {
    c.step.FinalizeStep? && c.step.short.idempotencyKey == k && c.answer.ToFinalize? && c.answer.view.Ok?
  }

  predicate RecordsReplacement(c: Call, k: string) {
    c.step.ReplacementStep? && c.step.replacement.idempotencyKey == k && c.answer.ToFinalize? && c.answer.view.Ok?
  }

  /** How many claims have been granted. */
  function GrantCount(calls: seq<Call>): nat {
    if calls == [] then 0 else
    var c := calls[|calls| - 1];
    GrantCount(calls[..|calls| - 1]) + if c.step.ClaimStep? && Grants(c, c.step.req.idempotencyKey) then 1 else 0
  }

  /** The session as it was seeded last. */
  function SessionIn(calls: seq<Call>, sid: string): Option<Session> {
    if calls == [] then None else
    var c := calls[|calls| - 1];
    if c.step.Seed? && c.step.sessionId == sid then Some(c.step.session) else SessionIn(calls[..|calls| - 1], sid)
  }

  /** What the first claim granted under a key asked for and was handed. */
  datatype Opening = Opening(digest: string, sessionId: string, snapshot: Snapshot)

  function OpeningIn(calls: seq<Call>, k: string): Option<Opening> {
    if calls == [] then None else
    var earlier, c := OpeningIn(calls[..|calls| - 1], k), calls[|calls| - 1];
    if earlier.Some? then earlier
    else if Grants(c, k) then
      Some(Opening(c.step.req.requestDigest, c.step.req.sessionId, c.answer.claim.value.snapshot))
    else None
  }

  predicate FinalizedIn(calls: seq<Call>, k: string) {
    exists i :: 0 <= i < |calls| && Finalizes(calls[i], k)
  }

  datatype Lease = Lease(token: nat, until: int)

  /** The lease somebody holds on the key: the last one granted, unless it was finalized or given back. */
  function LeaseIn(calls: seq<Call>, k: string): Option<Lease> {
    if calls == [] then None else
    var before, c := calls[..|calls| - 1], calls[|calls| - 1];
    if Grants(c, k) then Some(Lease(c.answer.claim.value.claimToken, c.step.now + c.step.req.leaseMs))
    else if Finalizes(c, k) || GivesBack(before, LeaseIn(before, k), c, k) then None
    else LeaseIn(before, k)
  }

  /** A release by somebody authorized for the session, under the token of the lease. */
  predicate GivesBack(calls: seq<Call>, lease: Option<Lease>, c: Call, k: string) {
    && c.step.ReleaseStep? && c.step.key == k
    && lease.Some? && lease.value.token == c.step.token
    && OpeningIn(calls, k).Some? && Owns(calls, c.step.auth, OpeningIn(calls, k).value.sessionId)
  }

  predicate Owns(calls: seq<Call>, auth: Authorization, sid: string) {
    var session := SessionIn(calls, sid);
    session.Some? && session.value.actorId == auth.actorId && session.value.ownerScopeId == auth.ownerScopeId
  }

  /** What was stored first under a key, and with which digest it had been requested. */
  datatype Stored = Stored(digest: string, view: View)

  function StoredIn(calls: seq<Call>, k: string): Option<Stored> {
    if calls == [] then None else
    var earlier, c := StoredIn(calls[..|calls| - 1], k), calls[|calls| - 1];
    if earlier.Some? then earlier
    else if Finalizes(c, k) then Some(Stored(c.step.short.requestDigest, c.answer.view.value))
    else if RecordsReplacement(c, k) then Some(Stored(c.step.replacement.requestDigest, c.answer.view.value))
    else None
  }

  /** The bundle that was last kept under this identifier. */
  function BundleIn(calls: seq<Call>, id: string): Option<Bundle<KeyedQuestion>> {
    if calls == [] then None else
    var c := calls[|calls| - 1];
    if c.step.FinalizeStep? && Finalizes(c, c.step.short.idempotencyKey) && c.step.short.fallback.Some?
       && c.step.short.fallback.value.id == id
    then c.step.short.fallback
    else BundleIn(calls[..|calls| - 1], id)
  }

  /** The claim that opens an operation: the first one granted under its key. */
  predicate Opens(before: seq<Call>, c: Call) {
    c.step.ClaimStep? && Grants(c, c.step.req.idempotencyKey) && OpeningIn(before, c.step.req.idempotencyKey).None?
  }

  /** Whether any operation was ever opened in the session. */
  function UsedIn(calls: seq<Call>, sid: string): bool {
    if calls == [] then false else
    var before, c := calls[..|calls| - 1], calls[|calls| - 1];
    UsedIn(before, sid) || (Opens(before, c) && c.step.req.sessionId == sid)
  }

  /** The question asked for, if the asker owns the session and the session has it. */
  function AskedFor(calls: seq<Call>, auth: Authorization, req: ClaimRequest): Option<ShortAnswerQuestion> {
    var session := SessionIn(calls, req.sessionId);
    if Owns(calls, auth, req.sessionId) && req.questionId in session.value.questions
    then Some(session.value.questions[req.questionId]) else None
  }

  /** The prompts that count as presented in a session: the question and the reserved fallbacks of every
      operation opened in it, less the fallbacks of graded operations; and, once an operation was opened,
      whatever a claim picked before it found no fallback for a later rubric. */
  function ShownIn(calls: seq<Call>, sid: string): set<string> {
    if calls == [] then {} else
    var before, c := calls[..|calls| - 1], calls[|calls| - 1];
    var shown := ShownIn(before, sid);
    match c.step
    case ClaimStep(auth, req, _) =>
      var question := AskedFor(before, auth, req);
      if req.sessionId != sid then shown
      else if Opens(before, c) then shown + PromptsOf(c.answer.claim.value.snapshot)
      else if c.answer == ToClaim(Err(FallbackUnavailable)) && UsedIn(before, sid) && question.Some? then
        Pick(question.value.rubrics, question.value, SessionIn(before, sid).value.fallbackCandidates, shown).0
      else shown
    case FinalizeStep(_, f) =>
      var opening := OpeningIn(before, f.idempotencyKey);
      if Finalizes(c, f.idempotencyKey) && f.fallback.None? && opening.Some? && opening.value.sessionId == sid
      then shown - FallbackPrompts(opening.value.snapshot) else shown
    case _ => shown
  }

  function FallbackPrompts(snapshot: Snapshot): set<string> {
    set h | h in PromptHashes(snapshot.fallbackCandidates)
  }

  function PromptsOf(snapshot: Snapshot): set<string> {
    FallbackPrompts(snapshot) + {snapshot.question.normalizedPromptHash}
  }

  /** The finalizer acts for itself, knows the operation's digest and holds its lease. */
  predicate Fenced(calls: seq<Call>, f: ShortAnswerFinalization) {
    var opening, lease := OpeningIn(calls, f.idempotencyKey), LeaseIn(calls, f.idempotencyKey);
    && opening.Some? && opening.value.digest == f.requestDigest
    && lease.Some? && lease.value.token == f.claimToken
  }

  /** The policy that a call gets as far as binding. */
  function PolicyOf(calls: seq<Call>, step: Step): Option<Policy> {
    match step
    case ClaimStep(_, req, _) => Some(req.policy)
    case FinalizeStep(auth, f) =>
      if auth.ownerScopeId == f.ownerScopeId && auth.actorId == f.userId && Fenced(calls, f) then Some(f.policy)
      else None
    case ReplacementStep(auth, f) =>
      if auth.ownerScopeId == f.ownerScopeId && auth.actorId == f.userId && BundleIn(calls, f.bundleId).Some?
      then Some(f.policy) else None
    case _ => None
  }

  /** The policy first used under a version. */
  function BoundIn(calls: seq<Call>, version: string): Option<Policy> {
    if calls == [] then None else
    var before := calls[..|calls| - 1];
    var earlier, p := BoundIn(before, version), PolicyOf(before, calls[|calls| - 1].step);
    if earlier.Some? then earlier
    else if p.Some? && p.value.gradingPolicyVersion == version then p
    else None
  }

  predicate Contradicts(calls: seq<Call>, p: Policy) {
    var bound := BoundIn(calls, p.gradingPolicyVersion);
    bound.Some? && bound.value != p
  }

  // ----- What the repository holds is what the calls say ------------------------------------

  function Get<V>(m: map<string, V>, k: string): Option<V> {
    if k in m then Some(m[k]) else None
  }

  ghost predicate OperationTold(calls: seq<Call>, s: Repo, k: string) {
    if k in s.operations then
      var op := s.operations[k];
      && OpeningIn(calls, k) == Some(Opening(op.requestDigest, op.sessionId, op.snapshot))
      && op.finalized == FinalizedIn(calls, k)
      && LeaseIn(calls, k) == if op.claimToken.Some? then Some(Lease(op.claimToken.value, op.expiresAt)) else None
    else OpeningIn(calls, k).None? && !FinalizedIn(calls, k) && LeaseIn(calls, k).None?
  }

  ghost predicate StoredTold(calls: seq<Call>, s: Repo, k: string) {
    && (k in s.views <==> k in s.finalizations)
    && StoredIn(calls, k) == if k in s.finalizations && k in s.views
                             then Some(Stored(s.finalizations[k].RequestDigest(), s.views[k])) else None
  }

  ghost predicate KeyTold(calls: seq<Call>, s: Repo, k: string) {
    && Get(s.sessions, k) == SessionIn(calls, k)
    && Get(s.bundles, k) == BundleIn(calls, k)
    && Get(s.policyBindings, k) == BoundIn(calls, k)
    && (k in s.policyBindings ==> s.policyBindings[k].gradingPolicyVersion == k)
  }

  ghost predicate ShownTold(calls: seq<Call>, s: Repo, sid: string) {
    PresentedIn(s, sid) == ShownIn(calls, sid) && (sid in s.presented <==> UsedIn(calls, sid))
  }

  ghost predicate Told(calls: seq<Call>, s: Repo) {
    && s.claimSequence == GrantCount(calls)
    && (forall sid :: ShownTold(calls, s, sid))
    && (forall k :: OperationTold(calls, s, k))
    && (forall k :: StoredTold(calls, s, k))
    && (forall k :: KeyTold(calls, s, k))
  }

  // ----- What each call does, told by its answer --------------------------------------------

  lemma ClaimEffects(s: Repo, auth: Authorization, req: ClaimRequest, now: int)
    ensures var (t, r) := Claim(s, auth, req, now);
      && t.sessions == s.sessions && t.bundles == s.bundles
      && t.finalizations == s.finalizations && t.views == s.views
      && t.policyBindings == (if PolicyConflicts(s, req.policy) then s.policyBindings
                              else s.policyBindings[req.policy.gradingPolicyVersion := req.policy])
  {
    var bound := BindPolicy(s, req.policy);
    if bound.Some? {
      if req.idempotencyKey in s.operations {
        AgainEffects(bound.value, req, now);
      } else {
        FirstEffects(bound.value, auth, req, now);
      }
    }
  }

  lemma AgainEffects(s: Repo, req: ClaimRequest, now: int)
    requires req.idempotencyKey in s.operations
    ensures var t := ClaimAgain(s, req, now).0;
      t == s.(operations := t.operations, claimSequence := t.claimSequence)
  {
  }

  lemma FirstEffects(s: Repo, auth: Authorization, req: ClaimRequest, now: int)
    ensures var t := ClaimFirst(s, auth, req, now).0;
      t == s.(operations := t.operations, claimSequence := t.claimSequence, presented := t.presented)
  {
  }

  /** The operation under its key after a claim was granted. */
  function GrantedOperation(s: Repo, req: ClaimRequest, now: int, token: nat, snapshot: Snapshot): Operation {
    var k := req.idempotencyKey;
    if k in s.operations then s.operations[k].(claimToken := Some(token), expiresAt := now + req.leaseMs)
    else Operation(Some(token), now + req.leaseMs, false, req.requestDigest,
                   PromptHashes(snapshot.fallbackCandidates), req.sessionId, snapshot)
  }

  predicate WasGranted(r: Result<ClaimReply, Error>) {
    r.Ok? && r.value.Claimed?
  }

  lemma ClaimOperations(s: Repo, auth: Authorization, req: ClaimRequest, now: int)
    ensures var (t, r) := Claim(s, auth, req, now);
      if WasGranted(r) then
        && r.value.claimToken == s.claimSequence + 1 && t.claimSequence == r.value.claimToken
        && t.operations == s.operations[req.idempotencyKey :=
             GrantedOperation(s, req, now, r.value.claimToken, r.value.snapshot)]
        && (req.idempotencyKey in s.operations ==> !s.operations[req.idempotencyKey].finalized)
      else t.operations == s.operations && t.claimSequence == s.claimSequence
  {
    var bound := BindPolicy(s, req.policy);
    if bound.Some? {
      if req.idempotencyKey in s.operations {
        AgainOperations(bound.value, req, now);
      } else {
        FirstOperations(bound.value, auth, req, now);
      }
    }
  }

  lemma AgainOperations(s: Repo, req: ClaimRequest, now: int)
    requires req.idempotencyKey in s.operations
    ensures var (t, r) := ClaimAgain(s, req, now);
      if WasGranted(r) then
        && r.value.claimToken == s.claimSequence + 1 && t.claimSequence == r.value.claimToken
        && t.operations == s.operations[req.idempotencyKey :=
             GrantedOperation(s, req, now, r.value.claimToken, r.value.snapshot)]
        && !s.operations[req.idempotencyKey].finalized
      else t.operations == s.operations && t.claimSequence == s.claimSequence
  {
  }

  lemma FirstOperations(s: Repo, auth: Authorization, req: ClaimRequest, now: int)
    requires req.idempotencyKey !in s.operations
    ensures var (t, r) := ClaimFirst(s, auth, req, now);
      if WasGranted(r) then
        && r.value.claimToken == s.claimSequence + 1 && t.claimSequence == r.value.claimToken
        && t.operations == s.operations[req.idempotencyKey :=
             GrantedOperation(s, req, now, r.value.claimToken, r.value.snapshot)]
      else t.operations == s.operations && t.claimSequence == s.claimSequence
  {
  }

  // ----- One more call ----------------------------------------------------------------------

  lemma OneMoreCall(calls: seq<Call>, c: Call)
    ensures (calls + [c])[..|calls|] == calls && (calls + [c])[|calls|] == c
  {
  }

  lemma FinalizedWithOneMore(calls: seq<Call>, c: Call, k: string)
    ensures FinalizedIn(calls + [c], k) <==> FinalizedIn(calls, k) || Finalizes(c, k)
  {
    var longer := calls + [c];
    if FinalizedIn(calls, k) {
      var i :| 0 <= i < |calls| && Finalizes(calls[i], k);
      assert Finalizes(longer[i], k);
    }
    if Finalizes(c, k) {
      assert Finalizes(longer[|calls|], k);
    }
    if FinalizedIn(longer, k) {
      var i :| 0 <= i < |longer| && Finalizes(longer[i], k);
      if i < |calls| {
        assert Finalizes(calls[i], k);
      }
    }
  }

  lemma OperationToldAfterClaim(calls: seq<Call>, s: Repo, auth: Authorization, req: ClaimRequest, now: int, k: string)
    requires OperationTold(calls, s, k)
    ensures var step := ClaimStep(auth, req, now);
      OperationTold(calls + [Call(step, AnswerTo(s, step))], Apply(s, step).0, k)
  {
    var c := Call(ClaimStep(auth, req, now), AnswerTo(s, ClaimStep(auth, req, now)));
    OneMoreCall(calls, c);
    FinalizedWithOneMore(calls, c, k);
    ClaimOperations(s, auth, req, now);
    if WasGranted(Claim(s, auth, req, now).1) && req.idempotencyKey in s.operations {
      KnownSnapshotStays(s, auth, req, now);
    }
  }

  lemma KnownSnapshotStays(s: Repo, auth: Authorization, req: ClaimRequest, now: int)
    requires WasGranted(Claim(s, auth, req, now).1) && req.idempotencyKey in s.operations
    ensures Claim(s, auth, req, now).1.value.snapshot == s.operations[req.idempotencyKey].snapshot
    ensures req.requestDigest == s.operations[req.idempotencyKey].requestDigest
  {
  }

  lemma OperationToldAfterFinalize(calls: seq<Call>, s: Repo, auth: Authorization, f: ShortAnswerFinalization,
                                   k: string)
    requires OperationTold(calls, s, k)
    ensures var step := FinalizeStep(auth, f);
      OperationTold(calls + [Call(step, AnswerTo(s, step))], Apply(s, step).0, k)
  {
    var c := Call(FinalizeStep(auth, f), AnswerTo(s, FinalizeStep(auth, f)));
    OneMoreCall(calls, c);
    FinalizedWithOneMore(calls, c, k);
    if FinalizeShortAnswer(s, auth, f).1.Ok? {
      SuccessfulFinalize(s, auth, f);
      HolderFinalizes(s, auth, f);
    } else {
      RefusedFinalize(s, auth, f);
    }
  }

  lemma HolderFinalizes(s: Repo, auth: Authorization, f: ShortAnswerFinalization)
    requires FinalizeShortAnswer(s, auth, f).1.Ok?
    ensures f.idempotencyKey in s.operations
  {
  }

  lemma OperationToldAfterReplacement(calls: seq<Call>, s: Repo, auth: Authorization, f: ReplacementFinalization,
                                      k: string)
    requires OperationTold(calls, s, k)
    ensures var step := ReplacementStep(auth, f);
      OperationTold(calls + [Call(step, AnswerTo(s, step))], Apply(s, step).0, k)
  {
    var c := Call(ReplacementStep(auth, f), AnswerTo(s, ReplacementStep(auth, f)));
    OneMoreCall(calls, c);
    FinalizedWithOneMore(calls, c, k);
    ReplacementOpensNothing(s, auth, f);
  }

  /** Whether the release gives back the lease of the operation under its key. */
  predicate Releases(s: Repo, auth: Authorization, k: string, token: nat) {
    && k in s.operations && s.operations[k].claimToken == Some(token)
    && s.operations[k].sessionId in s.sessions
    && s.sessions[s.operations[k].sessionId].actorId == auth.actorId
    && s.sessions[s.operations[k].sessionId].ownerScopeId == auth.ownerScopeId
  }

  lemma ReleaseOperations(s: Repo, auth: Authorization, k: string, token: nat)
    requires k in s.operations && s.operations[k].finalized ==> s.operations[k].claimToken.None?
    ensures var t := ReleaseClaim(s, auth, k, token);
      && t == s.(operations := t.operations)
      && t.operations == if Releases(s, auth, k, token)
                         then s.operations[k := s.operations[k].(claimToken := None, expiresAt := 0)] else s.operations
  {
  }

  lemma OperationToldAfterRelease(calls: seq<Call>, s: Repo, auth: Authorization, key: string, token: nat, k: string)
    requires OperationTold(calls, s, k) && Sound(s)
    requires k in s.operations ==>
      Get(s.sessions, s.operations[k].sessionId) == SessionIn(calls, s.operations[k].sessionId)
    ensures var step := ReleaseStep(auth, key, token);
      OperationTold(calls + [Call(step, AnswerTo(s, step))], Apply(s, step).0, k)
  {
    var c := Call(ReleaseStep(auth, key, token), Silent);
    OneMoreCall(calls, c);
    FinalizedWithOneMore(calls, c, k);
    assert key in s.operations ==> SoundOperation(s, key);
    ReleaseOperations(s, auth, key, token);
    assert key == k ==> (Releases(s, auth, k, token) <==> GivesBack(calls, LeaseIn(calls, k), c, k));
  }

  lemma OperationToldAfterSeed(calls: seq<Call>, s: Repo, sid: string, session: Session, k: string)
    requires OperationTold(calls, s, k)
    ensures OperationTold(calls + [Call(Seed(sid, session), Silent)], Apply(s, Seed(sid, session)).0, k)
  {
    var c := Call(Seed(sid, session), Silent);
    OneMoreCall(calls, c);
    FinalizedWithOneMore(calls, c, k);
  }

  lemma OperationToldAfterStep(calls: seq<Call>, s: Repo, step: Step, k: string)
    requires Told(calls, s) && Sound(s)
    ensures OperationTold(calls + [Call(step, AnswerTo(s, step))], Apply(s, step).0, k)
  {
    assert OperationTold(calls, s, k);
    match step
    case Seed(sid, session) => OperationToldAfterSeed(calls, s, sid, session, k);
    case ClaimStep(auth, req, now) => OperationToldAfterClaim(calls, s, auth, req, now, k);
    case FinalizeStep(auth, f) => OperationToldAfterFinalize(calls, s, auth, f, k);
    case ReplacementStep(auth, f) => OperationToldAfterReplacement(calls, s, auth, f, k);
    case ReleaseStep(auth, key, token) =>
      assert k in s.operations ==> KeyTold(calls, s, s.operations[k].sessionId);
      OperationToldAfterRelease(calls, s, auth, key, token, k);
  }

  // ----- Results, sessions, bundles and bindings ---------------------------------------------

  lemma PutStores(s: Repo, key: string, p: Policy, f: Finalization, view: View, k: string)
    requires Put(s, key, p, f, view).Ok? && (k in s.views <==> k in s.finalizations)
    ensures var t := Put(s, key, p, f, view).value;
      && (k in t.views <==> k in t.finalizations)
      && (k in t.finalizations <==> k in s.finalizations || k == key)
      && (k in s.finalizations ==> t.finalizations[k] == s.finalizations[k] && t.views[k] == s.views[k])
      && (k == key && k !in s.finalizations ==> t.finalizations[k] == f && t.views[k] == view)
  {
  }

  lemma StoredToldAfterFinalize(calls: seq<Call>, s: Repo, auth: Authorization, f: ShortAnswerFinalization, k: string)
    requires StoredTold(calls, s, k)
    ensures var step := FinalizeStep(auth, f);
      StoredTold(calls + [Call(step, AnswerTo(s, step))], Apply(s, step).0, k)
  {
    var c := Call(FinalizeStep(auth, f), AnswerTo(s, FinalizeStep(auth, f)));
    OneMoreCall(calls, c);
    if FinalizeShortAnswer(s, auth, f).1.Ok? {
      SuccessfulFinalize(s, auth, f);
      PutStores(s, f.idempotencyKey, f.policy, ShortAnswer(f), ShortAnswerView(f), k);
    } else {
      RefusedFinalize(s, auth, f);
    }
  }

  function ReplacementView(s: Repo, f: ReplacementFinalization): View
    requires f.bundleId in s.bundles
  {
    View(f.attemptId, [f.evidence], None, Graded, Some(s.bundles[f.bundleId].originalAttemptId), f.requestDigest)
  }

  lemma SuccessfulReplacement(s: Repo, auth: Authorization, f: ReplacementFinalization)
    requires FinalizeReplacement(s, auth, f).1.Ok?
    ensures auth.ownerScopeId == f.ownerScopeId && auth.actorId == f.userId && f.bundleId in s.bundles
    ensures var put := Put(s, f.idempotencyKey, f.policy, Replacement(f), ReplacementView(s, f));
      && put.Ok? && FinalizeReplacement(s, auth, f).0 == put.value
      && (f.idempotencyKey in put.value.views ==>
            FinalizeReplacement(s, auth, f).1 == Ok(put.value.views[f.idempotencyKey]))
  {
  }

  lemma StoredToldAfterReplacement(calls: seq<Call>, s: Repo, auth: Authorization, f: ReplacementFinalization,
                                   k: string)
    requires StoredTold(calls, s, k) && StoredTold(calls, s, f.idempotencyKey)
    ensures var step := ReplacementStep(auth, f);
      StoredTold(calls + [Call(step, AnswerTo(s, step))], Apply(s, step).0, k)
  {
    var c := Call(ReplacementStep(auth, f), AnswerTo(s, ReplacementStep(auth, f)));
    OneMoreCall(calls, c);
    if FinalizeReplacement(s, auth, f).1.Ok? {
      SuccessfulReplacement(s, auth, f);
      PutStores(s, f.idempotencyKey, f.policy, Replacement(f), ReplacementView(s, f), k);
      PutStores(s, f.idempotencyKey, f.policy, Replacement(f), ReplacementView(s, f), f.idempotencyKey);
    } else {
      RefusedReplacement(s, auth, f);
    }
  }

  lemma StoredToldAfterStep(calls: seq<Call>, s: Repo, step: Step, k: string)
    requires Told(calls, s)
    ensures StoredTold(calls + [Call(step, AnswerTo(s, step))], Apply(s, step).0, k)
  {
    var c := Call(step, AnswerTo(s, step));
    OneMoreCall(calls, c);
    assert StoredTold(calls, s, k);
    match step
    case Seed(_, _) =>
    case ClaimStep(auth, req, now) => ClaimEffects(s, auth, req, now);
    case FinalizeStep(auth, f) => StoredToldAfterFinalize(calls, s, auth, f, k);
    case ReplacementStep(auth, f) =>
      assert StoredTold(calls, s, f.idempotencyKey);
      StoredToldAfterReplacement(calls, s, auth, f, k);
    case ReleaseStep(_, _, _) =>
  }

  /** What a finalization leaves behind: it binds its policy as soon as it is fenced, and keeps its bundle
      if it succeeds. */
  lemma FinalizeLeaves(s: Repo, auth: Authorization, f: ShortAnswerFinalization)
    ensures FinalizeShortAnswer(s, auth, f).0.sessions == s.sessions
    ensures FinalizeShortAnswer(s, auth, f).0.bundles
      == if FinalizeShortAnswer(s, auth, f).1.Ok? && f.fallback.Some?
         then s.bundles[f.fallback.value.id := f.fallback.value] else s.bundles
  {
    if FinalizeShortAnswer(s, auth, f).1.Ok? {
      SuccessfulFinalize(s, auth, f);
      SuccessLeaves(s, auth, f);
    } else {
      RefusalLeaves(s, auth, f);
    }
  }

  lemma SuccessLeaves(s: Repo, auth: Authorization, f: ShortAnswerFinalization)
    requires FinalizeShortAnswer(s, auth, f).1.Ok?
    ensures FinalizeShortAnswer(s, auth, f).0.sessions == s.sessions
    ensures FinalizeShortAnswer(s, auth, f).0.bundles
      == if f.fallback.Some? then s.bundles[f.fallback.value.id := f.fallback.value] else s.bundles
  {
  }

  lemma RefusalLeaves(s: Repo, auth: Authorization, f: ShortAnswerFinalization)
    requires FinalizeShortAnswer(s, auth, f).1.Err?
    ensures FinalizeShortAnswer(s, auth, f).0.sessions == s.sessions
    ensures FinalizeShortAnswer(s, auth, f).0.bundles == s.bundles
  {
  }

  predicate Passes(s: Repo, auth: Authorization, f: ShortAnswerFinalization) {
    && auth.ownerScopeId == f.ownerScopeId && auth.actorId == f.userId
    && f.idempotencyKey in s.operations && s.operations[f.idempotencyKey].requestDigest == f.requestDigest
    && s.operations[f.idempotencyKey].claimToken == Some(f.claimToken)
  }

  function Bound(s: Repo, p: Policy): map<string, Policy> {
    if PolicyConflicts(s, p) then s.policyBindings else s.policyBindings[p.gradingPolicyVersion := p]
  }

  lemma FinalizeBindsPolicy(s: Repo, auth: Authorization, f: ShortAnswerFinalization)
    ensures FinalizeShortAnswer(s, auth, f).0.policyBindings
      == if Passes(s, auth, f) then Bound(s, f.policy) else s.policyBindings
  {
  }

  lemma ReplacementLeaves(s: Repo, auth: Authorization, f: ReplacementFinalization)
    ensures var t := FinalizeReplacement(s, auth, f).0;
      && t.sessions == s.sessions && t.bundles == s.bundles
      && t.policyBindings ==
           if auth.ownerScopeId == f.ownerScopeId && auth.actorId == f.userId && f.bundleId in s.bundles
           then Bound(s, f.policy) else s.policyBindings
  {
  }

  lemma FencedMeansPasses(calls: seq<Call>, s: Repo, auth: Authorization, f: ShortAnswerFinalization)
    requires OperationTold(calls, s, f.idempotencyKey)
    ensures Passes(s, auth, f) <==> auth.ownerScopeId == f.ownerScopeId && auth.actorId == f.userId && Fenced(calls, f)
  {
  }

  /** Each call binds the policy that it is told to get as far as binding. */
  lemma BindsWhatIsTold(calls: seq<Call>, s: Repo, step: Step)
    requires Told(calls, s)
    ensures var p := PolicyOf(calls, step);
      Apply(s, step).0.policyBindings == if p.Some? then Bound(s, p.value) else s.policyBindings
  {
    match step
    case ClaimStep(auth, req, now) => ClaimEffects(s, auth, req, now);
    case FinalizeStep(auth, f) =>
      assert OperationTold(calls, s, f.idempotencyKey);
      FencedMeansPasses(calls, s, auth, f);
      FinalizeBindsPolicy(s, auth, f);
    case ReplacementStep(auth, f) =>
      assert KeyTold(calls, s, f.bundleId);
      ReplacementLeaves(s, auth, f);
    case _ =>
  }

  lemma BindingToldAfterStep(calls: seq<Call>, s: Repo, step: Step, v: string)
    requires Told(calls, s)
    ensures var t, c := Apply(s, step).0, Call(step, AnswerTo(s, step));
      && Get(t.policyBindings, v) == BoundIn(calls + [c], v)
      && (v in t.policyBindings ==> t.policyBindings[v].gradingPolicyVersion == v)
  {
    OneMoreCall(calls, Call(step, AnswerTo(s, step)));
    assert KeyTold(calls, s, v);
    BindsWhatIsTold(calls, s, step);
  }

  lemma SessionAndBundleTold(calls: seq<Call>, s: Repo, step: Step, k: string)
    requires KeyTold(calls, s, k)
    ensures var t, c := Apply(s, step).0, Call(step, AnswerTo(s, step));
      Get(t.sessions, k) == SessionIn(calls + [c], k) && Get(t.bundles, k) == BundleIn(calls + [c], k)
  {
    OneMoreCall(calls, Call(step, AnswerTo(s, step)));
    match step
    case ClaimStep(auth, req, now) => ClaimEffects(s, auth, req, now);
    case FinalizeStep(auth, f) => FinalizeLeaves(s, auth, f);
    case ReplacementStep(auth, f) => ReplacementLeaves(s, auth, f);
    case _ =>
  }

  lemma GrantsCounted(calls: seq<Call>, s: Repo, step: Step)
    requires s.claimSequence == GrantCount(calls)
    ensures Apply(s, step).0.claimSequence == GrantCount(calls + [Call(step, AnswerTo(s, step))])
  {
    OneMoreCall(calls, Call(step, AnswerTo(s, step)));
    match step
    case ClaimStep(auth, req, now) => ClaimOperations(s, auth, req, now);
    case FinalizeStep(auth, f) => FinalizeGrantsNothing(s, auth, f);
    case ReplacementStep(auth, f) => ReplacementGrantsNothing(s, auth, f);
    case _ =>
  }

  lemma FinalizeGrantsNothing(s: Repo, auth: Authorization, f: ShortAnswerFinalization)
    ensures FinalizeShortAnswer(s, auth, f).0.claimSequence == s.claimSequence
  {
  }

  lemma ReplacementGrantsNothing(s: Repo, auth: Authorization, f: ReplacementFinalization)
    ensures FinalizeReplacement(s, auth, f).0.claimSequence == s.claimSequence
  {
  }

  // ----- Presented prompts ------------------------------------------------------------------

  lemma FirstPresents(s: Repo, auth: Authorization, req: ClaimRequest, now: int)
    ensures var (t, r) := ClaimFirst(s, auth, req, now);
      if WasGranted(r) then
        t.presented == s.presented[req.sessionId := PresentedIn(s, req.sessionId) + PromptsOf(r.value.snapshot)]
      else if r == Err(FallbackUnavailable) && req.sessionId in s.presented then
        && req.sessionId in s.sessions && req.questionId in s.sessions[req.sessionId].questions
        && var session := s.sessions[req.sessionId];
           var question := session.questions[req.questionId];
           && session.actorId == auth.actorId && session.ownerScopeId == auth.ownerScopeId
           && t.presented == s.presented[req.sessionId :=
                Pick(question.rubrics, question, session.fallbackCandidates, s.presented[req.sessionId]).0]
      else t.presented == s.presented
  {
    var r := ClaimFirst(s, auth, req, now).1;
    if WasGranted(r) {
      var session := s.sessions[req.sessionId];
      var question := session.questions[req.questionId];
      var before := PresentedIn(s, req.sessionId);
      PickReservesUnseen(question.rubrics, question, session.fallbackCandidates, before);
      var snapshot := r.value.snapshot;
      assert FallbackPrompts(snapshot) == Elements(PromptHashes(snapshot.fallbackCandidates));
      assert Pick(question.rubrics, question, session.fallbackCandidates, before).0 + {question.normalizedPromptHash}
        == before + PromptsOf(snapshot);
    }
  }

  lemma AgainPresentsNothing(s: Repo, req: ClaimRequest, now: int)
    requires req.idempotencyKey in s.operations
    ensures var (t, r) := ClaimAgain(s, req, now); t.presented == s.presented && r != Err(FallbackUnavailable)
  {
  }

  lemma ShownToldAfterClaim(calls: seq<Call>, s: Repo, auth: Authorization, req: ClaimRequest, now: int, sid: string)
    requires ShownTold(calls, s, sid) && KeyTold(calls, s, sid) && OperationTold(calls, s, req.idempotencyKey)
    ensures var step := ClaimStep(auth, req, now);
      ShownTold(calls + [Call(step, AnswerTo(s, step))], Apply(s, step).0, sid)
  {
    var c := Call(ClaimStep(auth, req, now), AnswerTo(s, ClaimStep(auth, req, now)));
    OneMoreCall(calls, c);
    ClaimPresents(s, auth, req, now);
  }

  lemma ClaimPresents(s: Repo, auth: Authorization, req: ClaimRequest, now: int)
    ensures var (t, r) := Claim(s, auth, req, now);
      if WasGranted(r) && req.idempotencyKey !in s.operations then
        t.presented == s.presented[req.sessionId := PresentedIn(s, req.sessionId) + PromptsOf(r.value.snapshot)]
      else if r == Err(FallbackUnavailable) && req.sessionId in s.presented then
        && req.sessionId in s.sessions && req.questionId in s.sessions[req.sessionId].questions
        && var session := s.sessions[req.sessionId];
           var question := session.questions[req.questionId];
           && session.actorId == auth.actorId && session.ownerScopeId == auth.ownerScopeId
           && t.presented == s.presented[req.sessionId :=
                Pick(question.rubrics, question, session.fallbackCandidates, s.presented[req.sessionId]).0]
      else t.presented == s.presented
  {
    var bound := BindPolicy(s, req.policy);
    if bound.Some? {
      if req.idempotencyKey in s.operations {
        AgainPresentsNothing(bound.value, req, now);
      } else {
        FirstPresents(bound.value, auth, req, now);
      }
    }
  }

  lemma ShownToldAfterFinalize(calls: seq<Call>, s: Repo, auth: Authorization, f: ShortAnswerFinalization, sid: string)
    requires ShownTold(calls, s, sid) && OperationTold(calls, s, f.idempotencyKey) && Sound(s)
    ensures var step := FinalizeStep(auth, f);
      ShownTold(calls + [Call(step, AnswerTo(s, step))], Apply(s, step).0, sid)
  {
    var c := Call(FinalizeStep(auth, f), AnswerTo(s, FinalizeStep(auth, f)));
    OneMoreCall(calls, c);
    if FinalizeShortAnswer(s, auth, f).1.Ok? {
      SuccessfulFinalize(s, auth, f);
      HolderFinalizes(s, auth, f);
      assert SoundOperation(s, f.idempotencyKey);
    } else {
      RefusedFinalize(s, auth, f);
    }
  }

  lemma ReplacementPresentsNothing(s: Repo, auth: Authorization, f: ReplacementFinalization)
    ensures FinalizeReplacement(s, auth, f).0.presented == s.presented
  {
  }

  lemma ShownToldAfterStep(calls: seq<Call>, s: Repo, step: Step, sid: string)
    requires Told(calls, s) && Sound(s)
    ensures ShownTold(calls + [Call(step, AnswerTo(s, step))], Apply(s, step).0, sid)
  {
    OneMoreCall(calls, Call(step, AnswerTo(s, step)));
    assert ShownTold(calls, s, sid) && KeyTold(calls, s, sid);
    match step
    case ClaimStep(auth, req, now) =>
      assert OperationTold(calls, s, req.idempotencyKey);
      ShownToldAfterClaim(calls, s, auth, req, now, sid);
    case FinalizeStep(auth, f) =>
      assert OperationTold(calls, s, f.idempotencyKey);
      ShownToldAfterFinalize(calls, s, auth, f, sid);
    case _ => ShownToldAfterOthers(calls, s, step, sid);
  }

  lemma ShownToldAfterOthers(calls: seq<Call>, s: Repo, step: Step, sid: string)
    requires (step.Seed? || step.ReplacementStep? || step.ReleaseStep?) && ShownTold(calls, s, sid)
    ensures ShownTold(calls + [Call(step, AnswerTo(s, step))], Apply(s, step).0, sid)
  {
    var c := Call(step, AnswerTo(s, step));
    OneMoreCall(calls, c);
    OthersPresentNothing(s, step, sid);
    assert ShownIn(calls + [c], sid) == ShownIn(calls, sid);
    assert UsedIn(calls + [c], sid) == UsedIn(calls, sid);
  }

  lemma OthersPresentNothing(s: Repo, step: Step, sid: string)
    requires step.Seed? || step.ReplacementStep? || step.ReleaseStep?
    ensures var t := Apply(s, step).0; t.presented == s.presented && PresentedIn(t, sid) == PresentedIn(s, sid)
  {
    if step.ReplacementStep? {
      ReplacementPresentsNothing(s, step.auth, step.replacement);
    }
  }

  lemma ToldAfterStep(calls: seq<Call>, s: Repo, step: Step)
    requires Told(calls, s) && Sound(s)
    ensures Told(calls + [Call(step, AnswerTo(s, step))], Apply(s, step).0)
  {
    var t, longer := Apply(s, step).0, calls + [Call(step, AnswerTo(s, step))];
    GrantsCounted(calls, s, step);
    forall sid
      ensures ShownTold(longer, t, sid)
    {
      ShownToldAfterStep(calls, s, step, sid);
    }
    forall k
      ensures OperationTold(longer, t, k)
    {
      OperationToldAfterStep(calls, s, step, k);
    }
    forall k
      ensures StoredTold(longer, t, k)
    {
      StoredToldAfterStep(calls, s, step, k);
    }
    forall k
      ensures KeyTold(longer, t, k)
    {
      assert KeyTold(calls, s, k);
      SessionAndBundleTold(calls, s, step, k);
      BindingToldAfterStep(calls, s, step, k);
    }
  }

  /** In every run the repository holds exactly what its calls and answers say. */
  lemma {:induction false} EveryRunIsTold(steps: seq<Step>)
    ensures Told(Calls(steps), Execute(steps))
  {
    if steps != [] {
      var before := steps[..|steps| - 1];
      EveryRunIsTold(before);
      ReservationsStayDisjoint(before);
      ToldAfterStep(Calls(before), Execute(before), steps[|steps| - 1]);
    }
  }

  // ----- What each call is answered ---------------------------------------------------------

  /** The answer to a claim. Under a known key the digest must be that of the first claim; a finalized key
      returns what was stored, a leased one makes its caller wait until the lease runs out, and otherwise
      the same work is handed out again. An unknown key needs a session of the asker's, an unseen question
      and a fallback for each of its rubrics. */
  function ClaimTold(calls: seq<Call>, auth: Authorization, req: ClaimRequest, now: int): Result<ClaimReply, Error> {
    var k := req.idempotencyKey;
    var opening, lease, stored := OpeningIn(calls, k), LeaseIn(calls, k), StoredIn(calls, k);
    var asked, shown := AskedFor(calls, auth, req), ShownIn(calls, req.sessionId);
    if Contradicts(calls, req.policy) then Err(InvalidConfiguration)
    else if opening.Some? then
      if req.requestDigest != opening.value.digest then Err(ConflictingDuplicate)
      else if WasFinalized(calls, k) && stored.Some? then Ok(AlreadyFinalized(stored.value.view))
      else if lease.Some? && now < lease.value.until then Ok(Pending)
      else Ok(Claimed(GrantCount(calls) + 1, opening.value.snapshot))
    else if asked.None? then Err(AuthorizationDenied)
    else if asked.value.normalizedPromptHash in shown then Err(QuestionUnavailable)
    else
      var candidates := SessionIn(calls, req.sessionId).value.fallbackCandidates;
      match Pick(asked.value.rubrics, asked.value, candidates, shown).1
      case None => Err(FallbackUnavailable)
      case Some(picks) => Ok(Claimed(GrantCount(calls) + 1, Snapshot(asked.value, picks)))
  }

  function WasFinalized(calls: seq<Call>, k: string): (r: bool)
    ensures r == FinalizedIn(calls, k)
  {
    exists i :: 0 <= i < |calls| && Finalizes(calls[i], k)
  }

  lemma ClaimsAreAnsweredAsTold(steps: seq<Step>, auth: Authorization, req: ClaimRequest, now: int)
    ensures Claim(Execute(steps), auth, req, now).1 == ClaimTold(Calls(steps), auth, req, now)
  {
    var s, calls, k := Execute(steps), Calls(steps), req.idempotencyKey;
    EveryRunIsTold(steps);
    ReservationsStayDisjoint(steps);
    assert OperationTold(calls, s, k) && StoredTold(calls, s, k);
    assert KeyTold(calls, s, req.policy.gradingPolicyVersion);
    assert KeyTold(calls, s, req.sessionId) && ShownTold(calls, s, req.sessionId);
    if k in s.operations {
      assert SoundOperation(s, k);
      AgainAsTold(calls, s, auth, req, now);
    } else {
      FirstAsTold(calls, s, auth, req, now);
    }
  }

  lemma AgainAsTold(calls: seq<Call>, s: Repo, auth: Authorization, req: ClaimRequest, now: int)
    requires s.claimSequence == GrantCount(calls)
    requires OperationTold(calls, s, req.idempotencyKey) && StoredTold(calls, s, req.idempotencyKey)
    requires KeyTold(calls, s, req.policy.gradingPolicyVersion)
    requires req.idempotencyKey in s.operations && SoundOperation(s, req.idempotencyKey)
    ensures Claim(s, auth, req, now).1 == ClaimTold(calls, auth, req, now)
  {
  }

  lemma FirstAsTold(calls: seq<Call>, s: Repo, auth: Authorization, req: ClaimRequest, now: int)
    requires s.claimSequence == GrantCount(calls) && OperationTold(calls, s, req.idempotencyKey)
    requires KeyTold(calls, s, req.policy.gradingPolicyVersion)
    requires KeyTold(calls, s, req.sessionId) && ShownTold(calls, s, req.sessionId)
    requires req.idempotencyKey !in s.operations
    ensures Claim(s, auth, req, now).1 == ClaimTold(calls, auth, req, now)
  {
  }

  /** The answer to a finalization: only for oneself and only under the current lease; a result that was
      stored before under the key must have the same digest, and is then returned in place of the new one. */
  function FinalizeTold(calls: seq<Call>, auth: Authorization, f: ShortAnswerFinalization): Result<View, Error> {
    var stored := StoredIn(calls, f.idempotencyKey);
    if auth.ownerScopeId != f.ownerScopeId || auth.actorId != f.userId then Err(AuthorizationDenied)
    else if !Fenced(calls, f) then Err(ConflictingDuplicate)
    else if Contradicts(calls, f.policy) then Err(InvalidConfiguration)
    else if stored.Some? && stored.value.digest != f.requestDigest then Err(ConflictingDuplicate)
    else Ok(if stored.Some? then stored.value.view else ShortAnswerView(f))
  }

  /** The view of a submitted result: everything that was submitted for the learner, except the keys. */
  ghost predicate IsViewOf(f: ShortAnswerFinalization, v: View) {
    && v.attemptId == f.attemptId && v.evidence == f.evidence && v.outcome == f.outcome
    && v.requestDigest == f.requestDigest && v.replacementForAttemptId.None?
    && (v.fallback.None? <==> f.fallback.None?)
    && (v.fallback.Some? ==> ShowsAllButKeys(f.fallback.value, v.fallback.value))
  }

  lemma SubmittedViewShowsAllButKeys(f: ShortAnswerFinalization, v: View)
    ensures v == ShortAnswerView(f) <==> IsViewOf(f, v)
  {
    if f.fallback.Some? {
      SanitizedExactlyWhenAllButKeysIsShown(f.fallback.value, SanitizeBundle(f.fallback.value));
      if v.fallback.Some? {
        SanitizedExactlyWhenAllButKeysIsShown(f.fallback.value, v.fallback.value);
      }
    }
  }

  lemma FinalizationsAreAnsweredAsTold(steps: seq<Step>, auth: Authorization, f: ShortAnswerFinalization)
    ensures FinalizeShortAnswer(Execute(steps), auth, f).1 == FinalizeTold(Calls(steps), auth, f)
  {
    var s, calls := Execute(steps), Calls(steps);
    EveryRunIsTold(steps);
    assert OperationTold(calls, s, f.idempotencyKey) && StoredTold(calls, s, f.idempotencyKey);
    assert KeyTold(calls, s, f.policy.gradingPolicyVersion);
    FencedMeansPasses(calls, s, auth, f);
    PassingAsTold(calls, s, auth, f);
  }

  lemma PassingAsTold(calls: seq<Call>, s: Repo, auth: Authorization, f: ShortAnswerFinalization)
    requires StoredTold(calls, s, f.idempotencyKey) && KeyTold(calls, s, f.policy.gradingPolicyVersion)
    requires Passes(s, auth, f) <==> auth.ownerScopeId == f.ownerScopeId && auth.actorId == f.userId && Fenced(calls, f)
    ensures FinalizeShortAnswer(s, auth, f).1 == FinalizeTold(calls, auth, f)
  {
  }

  /** The answer to a replacement result: only for oneself and only against a kept bundle, whose original
      attempt it then names. */
  function ReplacementTold(calls: seq<Call>, auth: Authorization, f: ReplacementFinalization): Result<View, Error> {
    var stored, bundle := StoredIn(calls, f.idempotencyKey), BundleIn(calls, f.bundleId);
    if auth.ownerScopeId != f.ownerScopeId || auth.actorId != f.userId || bundle.None? then Err(AuthorizationDenied)
    else if Contradicts(calls, f.policy) then Err(InvalidConfiguration)
    else if stored.Some? && stored.value.digest != f.requestDigest then Err(ConflictingDuplicate)
    else if stored.Some? then Ok(stored.value.view)
    else Ok(View(f.attemptId, [f.evidence], None, Graded, Some(bundle.value.originalAttemptId), f.requestDigest))
  }

  lemma ReplacementsAreAnsweredAsTold(steps: seq<Step>, auth: Authorization, f: ReplacementFinalization)
    ensures FinalizeReplacement(Execute(steps), auth, f).1 == ReplacementTold(Calls(steps), auth, f)
  {
    var s, calls := Execute(steps), Calls(steps);
    EveryRunIsTold(steps);
    assert StoredTold(calls, s, f.idempotencyKey) && KeyTold(calls, s, f.bundleId);
    assert KeyTold(calls, s, f.policy.gradingPolicyVersion);
    ReplacementAsTold(calls, s, auth, f);
  }

  lemma ReplacementAsTold(calls: seq<Call>, s: Repo, auth: Authorization, f: ReplacementFinalization)
    requires StoredTold(calls, s, f.idempotencyKey) && KeyTold(calls, s, f.bundleId)
    requires KeyTold(calls, s, f.policy.gradingPolicyVersion)
    ensures FinalizeReplacement(s, auth, f).1 == ReplacementTold(calls, auth, f)
  {
  }

  // ----- Leases -----------------------------------------------------------------------------

  /** The call ends the lease that was granted under this token: it supersedes it, finalizes the key, or
      gives the lease back on behalf of the session's owner. */
  predicate EndsLease(before: seq<Call>, c: Call, k: string, token: nat) {
    || Grants(c, k) || Finalizes(c, k)
    || (&& c.step.ReleaseStep? && c.step.key == k && c.step.token == token
        && OpeningIn(before, k).Some? && Owns(before, c.step.auth, OpeningIn(before, k).value.sessionId))
  }

  /** The lease granted by call `i` is still held. */
  predicate StillLeased(calls: seq<Call>, i: nat, k: string)
    requires i < |calls| && Grants(calls[i], k)
  {
    forall j :: i < j < |calls| ==> !EndsLease(calls[..j], calls[j], k, calls[i].answer.claim.value.claimToken)
  }

  lemma {:induction false} StillLeasedIsTheLease(calls: seq<Call>, i: nat, k: string)
    requires i < |calls| && Grants(calls[i], k) && StillLeased(calls, i, k)
    ensures LeaseIn(calls, k)
      == Some(Lease(calls[i].answer.claim.value.claimToken, calls[i].step.now + calls[i].step.req.leaseMs))
    ensures OpeningIn(calls, k).Some?
  {
    var n := |calls| - 1;
    if i < n {
      var before := calls[..n];
      forall j | i < j < n
        ensures !EndsLease(before[..j], before[j], k, before[i].answer.claim.value.claimToken)
      {
        assert before[..j] == calls[..j] && before[j] == calls[j];
      }
      StillLeasedIsTheLease(before, i, k);
      assert !EndsLease(calls[..n], calls[n], k, calls[i].answer.claim.value.claimToken);
    }
  }

  lemma {:induction false} GrantedWithTheOpeningsDigest(steps: seq<Step>, i: nat, k: string)
    requires i < |steps| && Grants(Calls(steps)[i], k)
    ensures OpeningIn(Calls(steps), k).Some?
    ensures OpeningIn(Calls(steps), k).value.digest == Calls(steps)[i].step.req.requestDigest
    ensures OpeningIn(Calls(steps), k).value.snapshot == Calls(steps)[i].answer.claim.value.snapshot
  {
    var before := steps[..|steps| - 1];
    if i < |before| {
      GrantedWithTheOpeningsDigest(before, i, k);
    } else {
      var req := steps[i].req;
      ClaimsAreAnsweredAsTold(before, steps[i].auth, req, steps[i].now);
    }
  }

  lemma {:induction false} FinalizedEndsLeases(steps: seq<Step>, k: string)
    ensures FinalizedIn(Calls(steps), k) ==> LeaseIn(Calls(steps), k).None?
  {
    EveryRunIsTold(steps);
    ReservationsStayDisjoint(steps);
    assert OperationTold(Calls(steps), Execute(steps), k);
    assert k in Execute(steps).operations ==> SoundOperation(Execute(steps), k);
  }

  /** As long as nobody supersedes a granted lease, finalizes its key or gives it back, a claim with the same
      digest and a policy that contradicts no binding waits exactly while the lease lasts; from then on it is
      handed the same work under a fresh token. */
  lemma PendingExactlyWhileLeased(steps: seq<Step>, i: nat, auth: Authorization, req: ClaimRequest, now: int)
    requires i < |steps| && Grants(Calls(steps)[i], req.idempotencyKey)
    requires StillLeased(Calls(steps), i, req.idempotencyKey)
    requires req.requestDigest == Calls(steps)[i].step.req.requestDigest && !Contradicts(Calls(steps), req.policy)
    ensures var answer, granted := Claim(Execute(steps), auth, req, now).1, Calls(steps)[i];
      if now < granted.step.now + granted.step.req.leaseMs then answer == Ok(Pending)
      else answer == Ok(Claimed(GrantCount(Calls(steps)) + 1, granted.answer.claim.value.snapshot))
  {
    var calls, k := Calls(steps), req.idempotencyKey;
    StillLeasedIsTheLease(calls, i, k);
    GrantedWithTheOpeningsDigest(steps, i, k);
    FinalizedEndsLeases(steps, k);
    ClaimsAreAnsweredAsTold(steps, auth, req, now);
    LeasedIsTold(calls, auth, req, now);
  }

  lemma LeasedIsTold(calls: seq<Call>, auth: Authorization, req: ClaimRequest, now: int)
    requires var opening := OpeningIn(calls, req.idempotencyKey);
      opening.Some? && opening.value.digest == req.requestDigest
    requires LeaseIn(calls, req.idempotencyKey).Some? && !FinalizedIn(calls, req.idempotencyKey)
    requires !Contradicts(calls, req.policy)
    ensures var lease, opening := LeaseIn(calls, req.idempotencyKey).value, OpeningIn(calls, req.idempotencyKey).value;
      ClaimTold(calls, auth, req, now)
        == if now < lease.until then Ok(Pending) else Ok(Claimed(GrantCount(calls) + 1, opening.snapshot))
  {
  }
}
