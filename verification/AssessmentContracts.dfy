/** The values that pass between the grading service and its repository. Claim tokens are
    rendered from a counter by the source; here a token is that number. Confidences, scores and
    thresholds are counted in hundred-thousandths. */
module AssessmentContracts {
  import opened Wrappers

  datatype Error =
    | AuthorizationDenied
    | ConflictingDuplicate
    | FallbackUnavailable
    | GradingInProgress
    | GradingUnavailable
    | InvalidConfiguration
    | InvalidInput
    | InvalidResult
    | QuestionUnavailable

  datatype Authorization = Authorization(actorId: string, ownerScopeId: string)

  datatype Rubric = Rubric(
    conceptId: string, rubricId: string, rubricVersion: string,
    requiredCriteria: seq<string>, materialContradictions: seq<string>, sourceSpanIds: seq<string>)

  datatype ShortAnswerQuestion = ShortAnswerQuestion(
    id: string, courseId: string, normalizedPromptHash: string,
    conceptIds: seq<string>, rubrics: seq<Rubric>, sourceSpanIds: seq<string>)

  datatype KeyedQuestion = KeyedQuestion(
    id: string, courseId: string, conceptIds: seq<string>, rubricId: string, rubricVersion: string,
    normalizedPromptHash: string, responseOptions: seq<string>, keyedAnswer: string,
    sourceSpanIds: seq<string>)

  datatype LearnerQuestion = LearnerQuestion(
    id: string, courseId: string, conceptIds: seq<string>, rubricId: string, rubricVersion: string,
    normalizedPromptHash: string, responseOptions: seq<string>, sourceSpanIds: seq<string>)

  datatype Snapshot = Snapshot(question: ShortAnswerQuestion, fallbackCandidates: seq<KeyedQuestion>)

  datatype Policy = Policy(
    gradingPolicyVersion: string, confidenceThreshold: nat, expectedProvenance: map<string, string>)

  datatype Band = Correct | PartiallyCorrect | Incorrect

  datatype Ineligibility = AttemptAbstained | BelowThreshold | SemanticUnanswerable

  datatype Rating = Again | Good // the source's 1 and 3

  datatype Evidence = Evidence(
    conceptId: string, rubricId: string, rubricVersion: string,
    eligibleForMastery: bool, fsrsRating: Option<Rating>, graderConfidence: Option<nat>,
    ineligibilityReason: Option<Ineligibility>, rubricBand: Option<Band>, score: Option<nat>)

  datatype BundleItem<Q> = BundleItem(conceptId: string, id: string, question: Q)

  datatype Bundle<Q> = Bundle(id: string, items: seq<BundleItem<Q>>, originalAttemptId: string)

  datatype Outcome = Graded | Abstained

  datatype View = View(
    attemptId: string, evidence: seq<Evidence>, fallback: Option<Bundle<LearnerQuestion>>,
    outcome: Outcome, replacementForAttemptId: Option<string>, requestDigest: string)

  datatype ShortAnswerFinalization = ShortAnswerFinalization(
    attemptId: string, claimToken: nat, evidence: seq<Evidence>,
    fallback: Option<Bundle<KeyedQuestion>>, idempotencyKey: string, outcome: Outcome,
    ownerScopeId: string, policy: Policy, requestDigest: string, userId: string)

  datatype ReplacementFinalization = ReplacementFinalization(
    attemptId: string, bundleId: string, evidence: Evidence, idempotencyKey: string,
    ownerScopeId: string, policy: Policy, requestDigest: string, userId: string)

  datatype Finalization =
    | ShortAnswer(short: ShortAnswerFinalization)
    | Replacement(replacement: ReplacementFinalization)
  {
    function RequestDigest(): string {
      match this
      case ShortAnswer(f) => f.requestDigest
      case Replacement(f) => f.requestDigest
    }
  }

  datatype Session = Session(
    actorId: string, ownerScopeId: string,
    questions: map<string, ShortAnswerQuestion>, fallbackCandidates: seq<KeyedQuestion>)

  datatype ClaimRequest = ClaimRequest(
    idempotencyKey: string, leaseMs: int, policy: Policy, questionId: string,
    requestDigest: string, sessionId: string)

  datatype ClaimReply =
    | AlreadyFinalized(finalization: View)
    | Pending
    | Claimed(claimToken: nat, snapshot: Snapshot)

  /** Drops the keyed answers before a bundle reaches the learner. */
  function SanitizeBundle(b: Bundle<KeyedQuestion>): (r: Bundle<LearnerQuestion>)
    ensures |r.items| == |b.items|
    ensures forall i :: 0 <= i < |b.items| ==>
      && r.items[i].id == b.items[i].id
      && r.items[i].question.normalizedPromptHash == b.items[i].question.normalizedPromptHash
  {
    Bundle(
      b.id,
      seq(|b.items|, i requires 0 <= i < |b.items| =>
        BundleItem(b.items[i].conceptId, b.items[i].id, WithoutKey(b.items[i].question))),
      b.originalAttemptId)
  }

  function WithoutKey(q: KeyedQuestion): LearnerQuestion {
    LearnerQuestion(q.id, q.courseId, q.conceptIds, q.rubricId, q.rubricVersion,
                    q.normalizedPromptHash, q.responseOptions, q.sourceSpanIds)
  }

  /** A learner's question is the keyed one without its key. */
  ghost predicate ShowsAllButTheKey(q: KeyedQuestion, shown: LearnerQuestion) {
    q == KeyedQuestion(shown.id, shown.courseId, shown.conceptIds, shown.rubricId, shown.rubricVersion,
                       shown.normalizedPromptHash, shown.responseOptions, q.keyedAnswer, shown.sourceSpanIds)
  }

  ghost predicate ShowsAllButKeys(b: Bundle<KeyedQuestion>, shown: Bundle<LearnerQuestion>) {
    && shown.id == b.id && shown.originalAttemptId == b.originalAttemptId && |shown.items| == |b.items|
    && forall i :: 0 <= i < |b.items| ==>
         && shown.items[i].conceptId == b.items[i].conceptId && shown.items[i].id == b.items[i].id
         && ShowsAllButTheKey(b.items[i].question, shown.items[i].question)
  }

  lemma SanitizedExactlyWhenAllButKeysIsShown(b: Bundle<KeyedQuestion>, shown: Bundle<LearnerQuestion>)
    ensures shown == SanitizeBundle(b) <==> ShowsAllButKeys(b, shown)
  {
    if ShowsAllButKeys(b, shown) {
      assert forall i :: 0 <= i < |b.items| ==> shown.items[i].question == WithoutKey(b.items[i].question);
      assert shown.items == SanitizeBundle(b).items;
    }
  }

  function PromptHashes(cs: seq<KeyedQuestion>): (r: seq<string>)
    ensures |r| == |cs|
    ensures forall i :: 0 <= i < |cs| ==> r[i] == cs[i].normalizedPromptHash
  {
    seq(|cs|, i requires 0 <= i < |cs| => cs[i].normalizedPromptHash)
  }
}
