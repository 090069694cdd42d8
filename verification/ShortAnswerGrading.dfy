/** What a worker does with a claimed short answer: it checks the frozen snapshot, prepares the
    replacement bundle, and turns the model's judgments into evidence that either all counts or
    none does. Identifiers come from `uuid`, an uninterpreted function of their parts. */
module ShortAnswerGrading {
  import opened Wrappers
  import opened AssessmentContracts
  import opened AssessmentRepository
  import opened AssessmentProtocol
  import opened Sequences
  import opened StableSort
  import opened TextOrder

  const UNIT_SCALE := 100_000

  /** What the identifiers of a bundle and of its items are derived from. */
  datatype IdentityParts =
    | ItemParts(conceptId: string, originalAttemptId: string, policyVersion: string)
    | BundleParts(conceptIds: seq<string>, originalAttemptId: string, policyVersion: string)

  datatype Judgment =
    | Scored(conceptId: string, rubricBand: Band, confidence: int)
    | Unanswerable(conceptId: string)

  datatype Routed =
    | Judged(judgments: seq<Judgment>, provenance: map<string, string>)
    | InvalidModelResult
    | RouterFailed
    | OtherFailure(error: Error)

  /** What the worker does next: some failures happen before it can give the claim back. */
  datatype Decision =
    | Finalize(finalization: ShortAnswerFinalization)
    | ReleaseAndThrow(error: Error)
    | ThrowStillHolding(error: Error)

  datatype Command = Command(auth: Authorization, idempotencyKey: string, policy: Policy, requestDigest: string)

  function RatingFor(band: Band): Rating {
    if band == Correct then Good else Again
  }

  function ScoreFor(band: Band): nat {
    match band
    case Correct => UNIT_SCALE
    case PartiallyCorrect => UNIT_SCALE / 2
    case Incorrect => 0
  }

  function ConceptsOf(rubrics: seq<Rubric>): (r: seq<string>)
    ensures |r| == |rubrics| && forall i :: 0 <= i < |r| ==> r[i] == rubrics[i].conceptId
  {
    seq(|rubrics|, i requires 0 <= i < |rubrics| => rubrics[i].conceptId)
  }

  function JudgedConcepts(js: seq<Judgment>): (r: seq<string>)
    ensures |r| == |js| && forall i :: 0 <= i < |r| ==> r[i] == js[i].conceptId
  {
    seq(|js|, i requires 0 <= i < |js| => js[i].conceptId)
  }

  predicate IsHex64(s: string) {
    |s| == 64 && forall c :: c in s ==> '0' <= c <= '9' || 'a' <= c <= 'f'
  }

  predicate ValidReplacement(c: KeyedQuestion) {
    && |c.conceptIds| == 1
    && IsHex64(c.normalizedPromptHash)
    && |c.sourceSpanIds| > 0
    && |c.responseOptions| >= 2
    && AllDistinct(c.responseOptions)
    && c.keyedAnswer in c.responseOptions
  }

  predicate ValidRubric(r: Rubric, conceptIds: seq<string>, spanIds: seq<string>) {
    && r.conceptId in conceptIds
    && r.rubricId != [] && r.rubricVersion != []
    && r.requiredCriteria != [] && [] !in r.requiredCriteria && [] !in r.materialContradictions
    && r.sourceSpanIds != [] && forall id :: id in r.sourceSpanIds ==> id in spanIds
  }

  predicate ValidCandidate(c: KeyedQuestion, q: ShortAnswerQuestion) {
    && ValidReplacement(c)
    && c.courseId == q.courseId
    && exists r :: r in q.rubrics && r.conceptId == c.conceptIds[0] && r.rubricId == c.rubricId
         && r.rubricVersion == c.rubricVersion && forall id :: id in c.sourceSpanIds ==> id in r.sourceSpanIds
  }

  predicate ValidSnapshot(snapshot: Snapshot) {
    var q, cs := snapshot.question, snapshot.fallbackCandidates;
    && q.rubrics != [] && |q.conceptIds| == |q.rubrics|
    && AllDistinct(q.conceptIds) && AllDistinct(q.sourceSpanIds)
    && (forall r :: r in q.rubrics ==> ValidRubric(r, q.conceptIds, q.sourceSpanIds))
    && AllDistinct(ConceptsOf(q.rubrics))
    && |cs| == |q.rubrics|
    && (forall c :: c in cs ==> ValidCandidate(c, q))
    && AllDistinct(PromptHashes(cs))
  }

  function FirstForConcept(cs: seq<KeyedQuestion>, conceptId: string): (r: Option<KeyedQuestion>)
    ensures r.Some? ==> r.value in cs && r.value.conceptIds != [] && r.value.conceptIds[0] == conceptId
    ensures r.None? ==> forall c :: c in cs ==> c.conceptIds == [] || c.conceptIds[0] != conceptId
  {
    if cs == [] then None
    else if cs[0].conceptIds != [] && cs[0].conceptIds[0] == conceptId then Some(cs[0])
    else FirstForConcept(cs[1..], conceptId)
  }

  function ReplacementItems(rubrics: seq<Rubric>, cs: seq<KeyedQuestion>, uuid: IdentityParts -> string,
                            policyVersion: string, attemptId: string)
    : (r: Result<seq<BundleItem<KeyedQuestion>>, Error>)
    ensures r.Ok? ==> |r.value| == |rubrics|
    ensures r.Ok? <==> forall i :: 0 <= i < |rubrics| ==> FirstForConcept(cs, rubrics[i].conceptId).Some?
    ensures r.Ok? ==> forall i :: 0 <= i < |rubrics| ==>
      && r.value[i].conceptId == rubrics[i].conceptId
      && FirstForConcept(cs, rubrics[i].conceptId) == Some(r.value[i].question)
  {
    if rubrics == [] then Ok([])
    else
      match FirstForConcept(cs, rubrics[0].conceptId)
      case None => Err(FallbackUnavailable)
      case Some(c) =>
        var rest := ReplacementItems(rubrics[1..], cs, uuid, policyVersion, attemptId);
        if rest.Err? then rest
        else
          Ok([BundleItem(rubrics[0].conceptId, uuid(ItemParts(rubrics[0].conceptId, attemptId, policyVersion)), c)]
            + rest.value)
  }

  function BuildReplacementBundle(snapshot: Snapshot, policy: Policy, uuid: IdentityParts -> string, attemptId: string)
    : Result<Bundle<KeyedQuestion>, Error>
  {
    var v := policy.gradingPolicyVersion;
    match ReplacementItems(snapshot.question.rubrics, snapshot.fallbackCandidates, uuid, v, attemptId)
    case Err(e) => Err(e)
    case Ok(items) =>
      var identity := BundleParts(Sort(TextLeq, ConceptsOf(snapshot.question.rubrics)), attemptId, v);
      Ok(Bundle(uuid(identity), items, attemptId))
  }

  function JudgmentFor(js: seq<Judgment>, conceptId: string): (r: Option<Judgment>)
    ensures r.Some? ==> r.value in js && r.value.conceptId == conceptId
    ensures r.None? ==> forall j :: j in js ==> j.conceptId != conceptId
  {
    if js == [] then None
    else if js[|js| - 1].conceptId == conceptId then Some(js[|js| - 1])
    else JudgmentFor(js[..|js| - 1], conceptId)
  }

  function EvidenceFor(rubric: Rubric, j: Judgment, threshold: nat): Result<Evidence, Error> {
    match j
    case Unanswerable(_) =>
      Ok(Evidence(rubric.conceptId, rubric.rubricId, rubric.rubricVersion, false, None, None,
                  Some(SemanticUnanswerable), None, None))
    case Scored(_, band, confidence) =>
      if confidence < 0 || confidence > UNIT_SCALE then Err(InvalidResult)
      else
        var eligible := confidence >= threshold;
        Ok(Evidence(rubric.conceptId, rubric.rubricId, rubric.rubricVersion, eligible,
                    if eligible then Some(RatingFor(band)) else None, Some(confidence),
                    if eligible then None else Some(BelowThreshold), Some(band), Some(ScoreFor(band))))
  }

  function EvidenceList(rubrics: seq<Rubric>, js: seq<Judgment>, threshold: nat): Result<seq<Evidence>, Error> {
    if rubrics == [] then Ok([])
    else
      match JudgmentFor(js, rubrics[0].conceptId)
      case None => Err(InvalidResult)
      case Some(j) =>
        match EvidenceFor(rubrics[0], j, threshold)
        case Err(e) => Err(e)
        case Ok(evidence) =>
          var rest := EvidenceList(rubrics[1..], js, threshold);
          if rest.Err? then rest else Ok([evidence] + rest.value)
  }

  function NormalizeJudgments(q: ShortAnswerQuestion, js: seq<Judgment>, policy: Policy): Result<seq<Evidence>, Error> {
    var expected := set r | r in q.rubrics :: r.conceptId;
    if |js| != |expected| || |(set j | j in js :: j.conceptId)| != |expected|
       || exists j :: j in js && j.conceptId !in expected
    then Err(InvalidResult)
    else EvidenceList(q.rubrics, js, policy.confidenceThreshold)
  }

  function Withdraw(e: Evidence): Evidence {
    if e.eligibleForMastery && e.score.Some? then
      e.(eligibleForMastery := false, fsrsRating := None, ineligibilityReason := Some(AttemptAbstained))
    else e
  }

  function WithdrawAll(es: seq<Evidence>): (r: seq<Evidence>)
    ensures |r| == |es| && forall i :: 0 <= i < |es| ==> r[i] == Withdraw(es[i])
  {
    seq(|es|, i requires 0 <= i < |es| => Withdraw(es[i]))
  }

  predicate ExpectedProvenance(policy: Policy, actual: map<string, string>) {
    forall key :: key in policy.expectedProvenance ==> key in actual && actual[key] == policy.expectedProvenance[key]
  }

  function Decide(cmd: Command, token: nat, snapshot: Snapshot, uuid: IdentityParts -> string, attemptId: string,
                  routed: Routed): Decision
  {
    if !ValidSnapshot(snapshot) then ThrowStillHolding(InvalidInput)
    else
      match BuildReplacementBundle(snapshot, cmd.policy, uuid, attemptId)
      case Err(e) => ThrowStillHolding(e)
      case Ok(fallback) => DecideWith(cmd, token, snapshot.question, fallback, attemptId, routed)
  }

  function DecideWith(cmd: Command, token: nat, q: ShortAnswerQuestion, fallback: Bundle<KeyedQuestion>,
                      attemptId: string, routed: Routed): Decision
  {
    match routed
    case OtherFailure(e) => ReleaseAndThrow(e)
    case RouterFailed => ReleaseAndThrow(GradingUnavailable)
    case InvalidModelResult => Finalize(Submission(cmd, token, attemptId, [], Some(fallback), Abstained))
    case Judged(js, provenance) =>
      if !ExpectedProvenance(cmd.policy, provenance) then ReleaseAndThrow(InvalidConfiguration)
      else
        match NormalizeJudgments(q, js, cmd.policy)
        case Err(e) => ReleaseAndThrow(e)
        case Ok(evidence) =>
          if exists e :: e in evidence && !e.eligibleForMastery then
            Finalize(Submission(cmd, token, attemptId, WithdrawAll(evidence), Some(fallback), Abstained))
          else
            Finalize(Submission(cmd, token, attemptId, evidence, None, Graded))
  }

  function Submission(cmd: Command, token: nat, attemptId: string, evidence: seq<Evidence>,
                      fallback: Option<Bundle<KeyedQuestion>>, outcome: Outcome): ShortAnswerFinalization
  {
    ShortAnswerFinalization(attemptId, token, evidence, fallback, cmd.idempotencyKey, outcome,
                            cmd.auth.ownerScopeId, cmd.policy, cmd.requestDigest, cmd.auth.actorId)
  }

  // ----- Distinctness by counting ---------------------------------------------------------

  /** As many pairwise distinct elements, all taken from a list: the whole list, reordered. */
  lemma {:induction false} Pigeonhole<T>(chosen: seq<T>, all: seq<T>)
    requires |chosen| == |all| && Distinct(chosen) && forall x :: x in chosen ==> x in all
    ensures multiset(chosen) == multiset(all)
  {
    if chosen != [] {
      var x := chosen[0];
      assert x in all;
      var i :| 0 <= i < |all| && all[i] == x;
      var others := all[..i] + all[i + 1..];
      assert all == all[..i] + [x] + all[i + 1..];
      assert chosen == [x] + chosen[1..];
      forall y | y in chosen[1..] ensures y in others {
        var j :| 0 <= j < |chosen[1..]| && chosen[1..][j] == y;
        assert chosen[j + 1] == y && y != x;
        assert y in all;
      }
      Pigeonhole(chosen[1..], others);
      assert multiset(all) == multiset(all[..i]) + multiset{x} + multiset(all[i + 1..]);
    }
  }

  function QuestionsOf(items: seq<BundleItem<KeyedQuestion>>): (r: seq<KeyedQuestion>)
    ensures |r| == |items| && forall i :: 0 <= i < |items| ==> r[i] == items[i].question
  {
    seq(|items|, i requires 0 <= i < |items| => items[i].question)
  }

  /** Every rubric has a candidate for its concept and every candidate is used once. */
  ghost predicate PairsOneToOne(snapshot: Snapshot, items: seq<BundleItem<KeyedQuestion>>) {
    && |items| == |snapshot.question.rubrics|
    && (forall i :: 0 <= i < |items| ==>
          && items[i].conceptId == snapshot.question.rubrics[i].conceptId
          && items[i].question.conceptIds == [items[i].conceptId])
    && multiset(QuestionsOf(items)) == multiset(snapshot.fallbackCandidates)
  }

  /** The bundle of a valid snapshot, when there is one, pairs rubrics and candidates one to one. */
  lemma BundlePairsRubricsWithCandidates(snapshot: Snapshot, policy: Policy, uuid: IdentityParts -> string,
      attemptId: string)
    ensures var bundle := BuildReplacementBundle(snapshot, policy, uuid, attemptId);
      ValidSnapshot(snapshot) && bundle.Ok? ==> PairsOneToOne(snapshot, bundle.value.items)
  {
    if ValidSnapshot(snapshot) && BuildReplacementBundle(snapshot, policy, uuid, attemptId).Ok? {
      ValidBundlePairs(snapshot, policy, uuid, attemptId);
    }
  }

  lemma ValidBundlePairs(snapshot: Snapshot, policy: Policy, uuid: IdentityParts -> string, attemptId: string)
    requires ValidSnapshot(snapshot) && BuildReplacementBundle(snapshot, policy, uuid, attemptId).Ok?
    ensures PairsOneToOne(snapshot, BuildReplacementBundle(snapshot, policy, uuid, attemptId).value.items)
  {
    var items := BuildReplacementBundle(snapshot, policy, uuid, attemptId).value.items;
    var rubrics, questions := snapshot.question.rubrics, QuestionsOf(items);
    CountingMeansDistinct(ConceptsOf(rubrics));
    forall i | 0 <= i < |items| ensures items[i].question.conceptIds == [items[i].conceptId] {
      assert ValidCandidate(items[i].question, snapshot.question);
    }
    forall i, j | 0 <= i < j < |questions| ensures questions[i] != questions[j] {
      assert ConceptsOf(rubrics)[i] != ConceptsOf(rubrics)[j];
    }
    Pigeonhole(questions, snapshot.fallbackCandidates);
  }

  function CandidateConcepts(cs: seq<KeyedQuestion>): (r: seq<string>)
    requires forall c :: c in cs ==> |c.conceptIds| == 1
    ensures |r| == |cs| && forall i :: 0 <= i < |cs| ==> r[i] == cs[i].conceptIds[0]
  {
    seq(|cs|, i requires 0 <= i < |cs| => cs[i].conceptIds[0])
  }

  lemma CandidatesAnswerRubrics(snapshot: Snapshot)
    requires ValidSnapshot(snapshot)
    ensures forall c :: c in snapshot.fallbackCandidates ==> |c.conceptIds| == 1
    ensures forall x :: x in CandidateConcepts(snapshot.fallbackCandidates) ==>
      x in ConceptsOf(snapshot.question.rubrics)
  {
    var cs, rubrics := snapshot.fallbackCandidates, snapshot.question.rubrics;
    forall c | c in cs ensures |c.conceptIds| == 1 {
      assert ValidCandidate(c, snapshot.question);
    }
    forall x | x in CandidateConcepts(cs) ensures x in ConceptsOf(rubrics) {
      var i :| 0 <= i < |cs| && CandidateConcepts(cs)[i] == x;
      assert ValidCandidate(cs[i], snapshot.question);
      var r :| r in rubrics && r.conceptId == x;
      var j :| 0 <= j < |rubrics| && rubrics[j] == r;
      assert ConceptsOf(rubrics)[j] == x;
    }
  }

  lemma DistinctConceptsSuffice(snapshot: Snapshot, policy: Policy, uuid: IdentityParts -> string, attemptId: string)
    requires ValidSnapshot(snapshot)
    requires forall c :: c in snapshot.fallbackCandidates ==> |c.conceptIds| == 1
    requires Distinct(CandidateConcepts(snapshot.fallbackCandidates))
    ensures BuildReplacementBundle(snapshot, policy, uuid, attemptId).Ok?
  {
    var cs, rubrics := snapshot.fallbackCandidates, snapshot.question.rubrics;
    CandidatesAnswerRubrics(snapshot);
    Pigeonhole(CandidateConcepts(cs), ConceptsOf(rubrics));
    forall i | 0 <= i < |rubrics| ensures FirstForConcept(cs, rubrics[i].conceptId).Some? {
      PigeonholeCovers(CandidateConcepts(cs), ConceptsOf(rubrics), i);
      var j :| 0 <= j < |cs| && CandidateConcepts(cs)[j] == rubrics[i].conceptId;
      assert cs[j] in cs;
    }
  }

  lemma PigeonholeCovers<T>(chosen: seq<T>, all: seq<T>, i: nat)
    requires multiset(chosen) == multiset(all) && i < |all|
    ensures all[i] in chosen
  {
    assert all[i] in multiset(all);
  }

  lemma BundleMeansDistinctConcepts(snapshot: Snapshot, policy: Policy, uuid: IdentityParts -> string,
                                    attemptId: string, i: nat, j: nat)
    requires ValidSnapshot(snapshot) && BuildReplacementBundle(snapshot, policy, uuid, attemptId).Ok?
    requires i < j < |snapshot.fallbackCandidates|
    ensures snapshot.fallbackCandidates[i].conceptIds != snapshot.fallbackCandidates[j].conceptIds
  {
    var cs, rubrics := snapshot.fallbackCandidates, snapshot.question.rubrics;
    BundlePairsRubricsWithCandidates(snapshot, policy, uuid, attemptId);
    var items := BuildReplacementBundle(snapshot, policy, uuid, attemptId).value.items;
    PigeonholeCovers(QuestionsOf(items), cs, i);
    PigeonholeCovers(QuestionsOf(items), cs, j);
    var a :| 0 <= a < |items| && QuestionsOf(items)[a] == cs[i];
    var b :| 0 <= b < |items| && QuestionsOf(items)[b] == cs[j];
    CountingMeansDistinct(PromptHashes(cs));
    assert PromptHashes(cs)[i] != PromptHashes(cs)[j];
    CountingMeansDistinct(ConceptsOf(rubrics));
    assert a != b && ConceptsOf(rubrics)[a] != ConceptsOf(rubrics)[b];
  }

  lemma DistinctPairs(cs: seq<KeyedQuestion>)
    requires forall c :: c in cs ==> |c.conceptIds| == 1
    requires forall i, j :: 0 <= i < j < |cs| ==> cs[i].conceptIds != cs[j].conceptIds
    ensures Distinct(CandidateConcepts(cs))
  {
    forall i, j | 0 <= i < j < |cs| ensures CandidateConcepts(cs)[i] != CandidateConcepts(cs)[j] {
      assert cs[i] in cs && cs[j] in cs;
      assert cs[i].conceptIds == [CandidateConcepts(cs)[i]] && cs[j].conceptIds == [CandidateConcepts(cs)[j]];
    }
  }

  /** A valid snapshot may still lack a bundle: one exists exactly when no two candidates answer
      the same concept. */
  lemma BundleExistsIffConceptsDistinct(snapshot: Snapshot, policy: Policy, uuid: IdentityParts -> string,
      attemptId: string)
    requires ValidSnapshot(snapshot)
    ensures forall c :: c in snapshot.fallbackCandidates ==> |c.conceptIds| == 1
    ensures BuildReplacementBundle(snapshot, policy, uuid, attemptId).Ok? <==>
      Distinct(CandidateConcepts(snapshot.fallbackCandidates))
  {
    CandidatesAnswerRubrics(snapshot);
    var cs := snapshot.fallbackCandidates;
    if BuildReplacementBundle(snapshot, policy, uuid, attemptId).Ok? {
      forall i, j | 0 <= i < j < |cs| ensures cs[i].conceptIds != cs[j].conceptIds {
        BundleMeansDistinctConcepts(snapshot, policy, uuid, attemptId, i, j);
      }
      DistinctPairs(cs);
    } else if Distinct(CandidateConcepts(cs)) {
      DistinctConceptsSuffice(snapshot, policy, uuid, attemptId);
    }
  }

  // ----- All or nothing -------------------------------------------------------------------

  lemma {:induction false} EvidenceFollowsRubrics(rubrics: seq<Rubric>, js: seq<Judgment>, threshold: nat)
    requires EvidenceList(rubrics, js, threshold).Ok?
    ensures var es := EvidenceList(rubrics, js, threshold).value;
      && |es| == |rubrics|
      && forall i :: 0 <= i < |rubrics| ==>
           && JudgmentFor(js, rubrics[i].conceptId).Some?
           && EvidenceFor(rubrics[i], JudgmentFor(js, rubrics[i].conceptId).value, threshold) == Ok(es[i])
  {
    if rubrics != [] {
      EvidenceFollowsRubrics(rubrics[1..], js, threshold);
      var es := EvidenceList(rubrics, js, threshold).value;
      forall i | 0 <= i < |rubrics|
        ensures JudgmentFor(js, rubrics[i].conceptId).Some?
          && EvidenceFor(rubrics[i], JudgmentFor(js, rubrics[i].conceptId).value, threshold) == Ok(es[i])
      {
        if i > 0 { assert rubrics[i] == rubrics[1..][i - 1]; }
      }
    }
  }

  /** Every eligible piece of evidence is rated as its band demands. */
  ghost predicate Counts(e: Evidence) {
    e.eligibleForMastery && e.rubricBand.Some? && e.fsrsRating == Some(RatingFor(e.rubricBand.value))
      && e.ineligibilityReason.None?
  }

  ghost predicate CountsForNothing(e: Evidence) {
    !e.eligibleForMastery && e.fsrsRating.None? && e.ineligibilityReason.Some?
  }

  ghost predicate Confident(j: Judgment, policy: Policy) {
    j.Scored? && policy.confidenceThreshold <= j.confidence <= UNIT_SCALE
  }

  lemma EvidenceCountsOrNot(rubrics: seq<Rubric>, js: seq<Judgment>, threshold: nat)
    requires EvidenceList(rubrics, js, threshold).Ok?
    ensures var es := EvidenceList(rubrics, js, threshold).value;
      && |es| == |rubrics|
      && forall i :: 0 <= i < |es| ==>
           && es[i].conceptId == rubrics[i].conceptId
           && if es[i].eligibleForMastery then Counts(es[i]) && es[i].score.Some? else CountsForNothing(es[i])
  {
    EvidenceFollowsRubrics(rubrics, js, threshold);
    var es := EvidenceList(rubrics, js, threshold).value;
    forall i | 0 <= i < |es|
      ensures es[i].conceptId == rubrics[i].conceptId
      ensures if es[i].eligibleForMastery then Counts(es[i]) && es[i].score.Some? else CountsForNothing(es[i])
    {
      assert EvidenceFor(rubrics[i], JudgmentFor(js, rubrics[i].conceptId).value, threshold) == Ok(es[i]);
    }
  }

  ghost predicate AllCount(es: seq<Evidence>, rubrics: seq<Rubric>) {
    && |es| == |rubrics|
    && Distinct(ConceptsOf(rubrics))
    && forall i :: 0 <= i < |es| ==> es[i].conceptId == rubrics[i].conceptId && Counts(es[i])
  }

  lemma WithdrawnEvidence(rubrics: seq<Rubric>, js: seq<Judgment>, threshold: nat)
    requires EvidenceList(rubrics, js, threshold).Ok?
    ensures forall e :: e in WithdrawAll(EvidenceList(rubrics, js, threshold).value) ==> CountsForNothing(e)
  {
    EvidenceCountsOrNot(rubrics, js, threshold);
  }

  lemma DecisionIsAllOrNothing(cmd: Command, token: nat, q: ShortAnswerQuestion, fallback: Bundle<KeyedQuestion>,
                               attemptId: string, routed: Routed, f: ShortAnswerFinalization)
    requires Distinct(ConceptsOf(q.rubrics)) && DecideWith(cmd, token, q, fallback, attemptId, routed) == Finalize(f)
    ensures f.idempotencyKey == cmd.idempotencyKey
    ensures f.outcome == Graded ==> f.fallback.None? && AllCount(f.evidence, q.rubrics)
    ensures f.outcome == Abstained ==>
      f.fallback == Some(fallback) && forall e :: e in f.evidence ==> CountsForNothing(e)
  {
    if routed.Judged? {
      EvidenceCountsOrNot(q.rubrics, routed.judgments, cmd.policy.confidenceThreshold);
      WithdrawnEvidence(q.rubrics, routed.judgments, cmd.policy.confidenceThreshold);
    }
  }

  /** A worker's finalization is all or nothing. Graded: one eligible, rated item per rubric and
      no fallback. Abstained: no eligible or rated item, and a fallback that pairs rubrics with
      the reserved candidates one to one. */
  lemma FinalizationIsAllOrNothing(cmd: Command, token: nat, snapshot: Snapshot, uuid: IdentityParts -> string,
                                   attemptId: string, routed: Routed)
    ensures var d := Decide(cmd, token, snapshot, uuid, attemptId, routed);
      d.Finalize? ==>
        && d.finalization.idempotencyKey == cmd.idempotencyKey
        && AllOrNothing(snapshot, BuildReplacementBundle(snapshot, cmd.policy, uuid, attemptId), d.finalization)
  {
    var d := Decide(cmd, token, snapshot, uuid, attemptId, routed);
    if d.Finalize? {
      DecidedFinalization(cmd, token, snapshot, uuid, attemptId, routed, d.finalization);
    }
  }

  ghost predicate AllOrNothing(snapshot: Snapshot, bundle: Result<Bundle<KeyedQuestion>, Error>,
      f: ShortAnswerFinalization)
  {
    if f.outcome == Graded then f.fallback.None? && AllCount(f.evidence, snapshot.question.rubrics)
    else
      && (forall e :: e in f.evidence ==> CountsForNothing(e))
      && f.fallback.Some? && Ok(f.fallback.value) == bundle && PairsOneToOne(snapshot, f.fallback.value.items)
  }

  lemma DecidedFinalization(cmd: Command, token: nat, snapshot: Snapshot, uuid: IdentityParts -> string,
                            attemptId: string, routed: Routed, f: ShortAnswerFinalization)
    requires Decide(cmd, token, snapshot, uuid, attemptId, routed) == Finalize(f)
    ensures f.idempotencyKey == cmd.idempotencyKey
    ensures AllOrNothing(snapshot, BuildReplacementBundle(snapshot, cmd.policy, uuid, attemptId), f)
  {
    BundlePairsRubricsWithCandidates(snapshot, cmd.policy, uuid, attemptId);
    CountingMeansDistinct(ConceptsOf(snapshot.question.rubrics));
    var fallback := BuildReplacementBundle(snapshot, cmd.policy, uuid, attemptId).value;
    DecisionIsAllOrNothing(cmd, token, snapshot.question, fallback, attemptId, routed, f);
  }

  /** One judgment per rubric concept, each scored at or above the threshold. */
  ghost predicate AllConfident(q: ShortAnswerQuestion, js: seq<Judgment>, policy: Policy) {
    && |js| == |q.rubrics|
    && Distinct(JudgedConcepts(js))
    && (forall j :: j in js ==> j.conceptId in ConceptsOf(q.rubrics) && Confident(j, policy))
  }

  ghost predicate AllEligible(es: seq<Evidence>) {
    forall e :: e in es ==> e.eligibleForMastery
  }

  lemma AllConfidentIffAllEligible(q: ShortAnswerQuestion, js: seq<Judgment>, policy: Policy)
    requires Distinct(ConceptsOf(q.rubrics))
    ensures AllConfident(q, js, policy) <==>
      NormalizeJudgments(q, js, policy).Ok? && AllEligible(NormalizeJudgments(q, js, policy).value)
  {
    CountingMeansDistinct(ConceptsOf(q.rubrics));
    CountingMeansDistinct(JudgedConcepts(js));
    ConceptSets(q.rubrics, js);
    if AllConfident(q, js, policy) {
      JudgedAreAsked(js, ConceptsOf(q.rubrics));
      Pigeonhole(JudgedConcepts(js), ConceptsOf(q.rubrics));
      CoveredRubrics(q.rubrics, js);
      ConfidentJudgmentsNormalize(q.rubrics, js, policy);
    }
    if NormalizeJudgments(q, js, policy).Ok? {
      EvidenceMeansConfidence(q, js, policy);
    }
  }

  lemma DecisionIsGradedWhenConfident(cmd: Command, token: nat, q: ShortAnswerQuestion, fallback: Bundle<KeyedQuestion>,
                                      attemptId: string, routed: Routed)
    requires Distinct(ConceptsOf(q.rubrics))
    ensures var d := DecideWith(cmd, token, q, fallback, attemptId, routed);
      (d.Finalize? && d.finalization.outcome == Graded) <==>
        && routed.Judged? && ExpectedProvenance(cmd.policy, routed.provenance)
        && AllConfident(q, routed.judgments, cmd.policy)
  {
    if routed.Judged? {
      AllConfidentIffAllEligible(q, routed.judgments, cmd.policy);
    }
  }

  /** An attempt is graded exactly when the model answered under the frozen provenance with one
      judgment per rubric concept and every one of them is scored at or above the threshold. */
  lemma GradedExactlyWhenAllConfident(cmd: Command, token: nat, snapshot: Snapshot, uuid: IdentityParts -> string,
                                      attemptId: string, routed: Routed)
    requires ValidSnapshot(snapshot) && BuildReplacementBundle(snapshot, cmd.policy, uuid, attemptId).Ok?
    ensures var d := Decide(cmd, token, snapshot, uuid, attemptId, routed);
      (d.Finalize? && d.finalization.outcome == Graded) <==>
        && routed.Judged?
        && ExpectedProvenance(cmd.policy, routed.provenance)
        && AllConfident(snapshot.question, routed.judgments, cmd.policy)
  {
    CountingMeansDistinct(ConceptsOf(snapshot.question.rubrics));
    var fallback := BuildReplacementBundle(snapshot, cmd.policy, uuid, attemptId).value;
    DecisionIsGradedWhenConfident(cmd, token, snapshot.question, fallback, attemptId, routed);
  }

  lemma ConceptSets(rubrics: seq<Rubric>, js: seq<Judgment>)
    ensures (set r | r in rubrics :: r.conceptId) == (set c | c in ConceptsOf(rubrics))
    ensures (set j | j in js :: j.conceptId) == (set c | c in JudgedConcepts(js))
  {
    forall c | c in ConceptsOf(rubrics) ensures c in (set r | r in rubrics :: r.conceptId) {
      var i :| 0 <= i < |rubrics| && ConceptsOf(rubrics)[i] == c;
      assert rubrics[i] in rubrics;
    }
    forall r | r in rubrics ensures r.conceptId in ConceptsOf(rubrics) {
      var i :| 0 <= i < |rubrics| && rubrics[i] == r;
      assert ConceptsOf(rubrics)[i] == r.conceptId;
    }
    forall c | c in JudgedConcepts(js) ensures c in (set j | j in js :: j.conceptId) {
      var i :| 0 <= i < |js| && JudgedConcepts(js)[i] == c;
      assert js[i] in js;
    }
    forall j | j in js ensures j.conceptId in JudgedConcepts(js) {
      var i :| 0 <= i < |js| && js[i] == j;
      assert JudgedConcepts(js)[i] == j.conceptId;
    }
  }

  lemma JudgedAreAsked(js: seq<Judgment>, asked: seq<string>)
    requires forall j :: j in js ==> j.conceptId in asked
    ensures forall c :: c in JudgedConcepts(js) ==> c in asked
  {
    forall c | c in JudgedConcepts(js) ensures c in asked {
      var i :| 0 <= i < |js| && JudgedConcepts(js)[i] == c;
      assert js[i] in js;
    }
  }

  lemma ConceptIsJudged(js: seq<Judgment>, conceptId: string)
    requires conceptId in JudgedConcepts(js)
    ensures JudgmentFor(js, conceptId).Some?
  {
    var m :| 0 <= m < |js| && JudgedConcepts(js)[m] == conceptId;
    assert js[m] in js;
  }

  lemma CoveredRubrics(rubrics: seq<Rubric>, js: seq<Judgment>)
    requires multiset(JudgedConcepts(js)) == multiset(ConceptsOf(rubrics))
    ensures forall i :: 0 <= i < |rubrics| ==> JudgmentFor(js, rubrics[i].conceptId).Some?
  {
    forall i | 0 <= i < |rubrics| ensures JudgmentFor(js, rubrics[i].conceptId).Some? {
      PigeonholeCovers(JudgedConcepts(js), ConceptsOf(rubrics), i);
      ConceptIsJudged(js, rubrics[i].conceptId);
    }
  }

  lemma {:induction false} ConfidentJudgmentsNormalize(rubrics: seq<Rubric>, js: seq<Judgment>, policy: Policy)
    requires forall j :: j in js ==> Confident(j, policy)
    requires forall i :: 0 <= i < |rubrics| ==> JudgmentFor(js, rubrics[i].conceptId).Some?
    ensures EvidenceList(rubrics, js, policy.confidenceThreshold).Ok?
  {
    if rubrics != [] {
      forall i | 0 <= i < |rubrics[1..]| ensures JudgmentFor(js, rubrics[1..][i].conceptId).Some? {
        assert rubrics[1..][i] == rubrics[i + 1];
      }
      assert Confident(JudgmentFor(js, rubrics[0].conceptId).value, policy);
      ConfidentJudgmentsNormalize(rubrics[1..], js, policy);
    }
  }

  lemma EligibleEvidenceMeansConfidence(q: ShortAnswerQuestion, js: seq<Judgment>, policy: Policy, j: Judgment)
    requires NormalizeJudgments(q, js, policy).Ok? && Distinct(JudgedConcepts(js)) && j in js
    requires AllEligible(NormalizeJudgments(q, js, policy).value)
    ensures Confident(j, policy)
  {
    EvidenceFollowsRubrics(q.rubrics, js, policy.confidenceThreshold);
    assert j.conceptId in (set r | r in q.rubrics :: r.conceptId);
    var r :| r in q.rubrics && r.conceptId == j.conceptId;
    var i :| 0 <= i < |q.rubrics| && q.rubrics[i] == r;
    OnlyJudgment(js, j);
    assert NormalizeJudgments(q, js, policy).value[i] in NormalizeJudgments(q, js, policy).value;
  }

  lemma ConfidenceMeansEligibleEvidence(q: ShortAnswerQuestion, js: seq<Judgment>, policy: Policy)
    requires NormalizeJudgments(q, js, policy).Ok? && forall j :: j in js ==> Confident(j, policy)
    ensures AllEligible(NormalizeJudgments(q, js, policy).value)
  {
    var es := NormalizeJudgments(q, js, policy).value;
    EvidenceFollowsRubrics(q.rubrics, js, policy.confidenceThreshold);
    forall e | e in es ensures e.eligibleForMastery {
      var i :| 0 <= i < |es| && es[i] == e;
      assert Confident(JudgmentFor(js, q.rubrics[i].conceptId).value, policy);
    }
  }

  lemma EvidenceMeansConfidence(q: ShortAnswerQuestion, js: seq<Judgment>, policy: Policy)
    requires NormalizeJudgments(q, js, policy).Ok? && Distinct(JudgedConcepts(js))
    ensures AllEligible(NormalizeJudgments(q, js, policy).value) <==> forall j :: j in js ==> Confident(j, policy)
  {
    if AllEligible(NormalizeJudgments(q, js, policy).value) {
      forall j | j in js ensures Confident(j, policy) {
        EligibleEvidenceMeansConfidence(q, js, policy, j);
      }
    }
    if forall j :: j in js ==> Confident(j, policy) {
      ConfidenceMeansEligibleEvidence(q, js, policy);
    }
  }

  lemma OnlyJudgment(js: seq<Judgment>, j: Judgment)
    requires Distinct(JudgedConcepts(js)) && j in js
    ensures JudgmentFor(js, j.conceptId) == Some(j)
  {
    var found := JudgmentFor(js, j.conceptId).value;
    var a :| 0 <= a < |js| && js[a] == found;
    var b :| 0 <= b < |js| && js[b] == j;
    assert JudgedConcepts(js)[a] == JudgedConcepts(js)[b];
  }

  // ----- Waiting for a claim --------------------------------------------------------------

  predicate SleepsBetween(clock: nat -> int, n: nat) {
    clock(n + 1) >= clock(n) + 10
  }

  /** Polls while another worker holds the claim: the first other reply is returned, whatever it is,
      if it is asked for before the deadline. `clock(n)` is read before the poll with number `n`, and
      between two polls the worker sleeps ten milliseconds, so it gives up in bounded time. */
  method AcquireShortAnswerClaim(replies: nat -> Result<ClaimReply, Error>, clock: nat -> int, deadlineAt: int)
    returns (r: Result<ClaimReply, Error>, polls: nat)
    requires forall n: nat :: SleepsBetween(clock, n)
    ensures forall i :: 0 <= i < polls ==> clock(i) < deadlineAt
    ensures forall i :: 0 <= i < polls - 1 ==> replies(i) == Ok(Pending)
    ensures
      || (polls > 0 && r == replies(polls - 1) && r != Ok(Pending))
      || (r == Err(GradingInProgress) && clock(polls) >= deadlineAt
        && (polls > 0 ==> replies(polls - 1) == Ok(Pending)))
    ensures polls > 0 ==> clock(0) + 10 * (polls - 1) < deadlineAt
  {
    polls := 0;
    while clock(polls) < deadlineAt
      invariant clock(0) + 10 * polls <= clock(polls)
      invariant forall i :: 0 <= i < polls ==> clock(i) < deadlineAt && replies(i) == Ok(Pending)
      invariant polls > 0 ==> clock(0) + 10 * (polls - 1) < deadlineAt
      decreases deadlineAt - clock(polls)
    {
      var claim := replies(polls);
      assert SleepsBetween(clock, polls);
      polls := polls + 1;
      if claim != Ok(Pending) {
        return claim, polls;
      }
    }
    return Err(GradingInProgress), polls;
  }

  // ----- Together with the repository -----------------------------------------------------

  lemma MatchedCandidatesSuffice(snapshot: Snapshot, policy: Policy, uuid: IdentityParts -> string, attemptId: string)
    requires Matched(snapshot) && Distinct(ConceptsOf(snapshot.question.rubrics))
    ensures var bundle := BuildReplacementBundle(snapshot, policy, uuid, attemptId);
      bundle.Ok? && QuestionsOf(bundle.value.items) == snapshot.fallbackCandidates
  {
    var rubrics, cs := snapshot.question.rubrics, snapshot.fallbackCandidates;
    forall i | 0 <= i < |rubrics| ensures FirstForConcept(cs, rubrics[i].conceptId) == Some(cs[i]) {
      assert Suits(cs[i], rubrics[i], snapshot.question, {});
      assert cs[i] in cs;
      var c := FirstForConcept(cs, rubrics[i].conceptId).value;
      var j :| 0 <= j < |cs| && cs[j] == c;
      assert Suits(cs[j], rubrics[j], snapshot.question, {});
      assert ConceptsOf(rubrics)[i] == ConceptsOf(rubrics)[j];
    }
  }

  /** On a snapshot frozen by the repository the bundle always exists and is exactly the reserved
      candidates in rubric order: the case of a missing fallback cannot occur after a claim. */
  lemma ReservedCandidatesAlwaysSuffice(steps: seq<Step>, k: string, policy: Policy, uuid: IdentityParts -> string,
      attemptId: string)
    requires k in Execute(steps).operations && ValidSnapshot(Execute(steps).operations[k].snapshot)
    ensures var op := Execute(steps).operations[k];
      var bundle := BuildReplacementBundle(op.snapshot, policy, uuid, attemptId);
      && bundle.Ok?
      && QuestionsOf(bundle.value.items) == op.snapshot.fallbackCandidates
      && PromptHashes(QuestionsOf(bundle.value.items)) == op.reservedFallbackHashes
  {
    ReservationsStayDisjoint(steps);
    SnapshotsStayMatched(steps);
    assert SoundOperation(Execute(steps), k);
    var snapshot := Execute(steps).operations[k].snapshot;
    CountingMeansDistinct(ConceptsOf(snapshot.question.rubrics));
    MatchedCandidatesSuffice(snapshot, policy, uuid, attemptId);
  }

  /** The session keeps the prompt for this operation alone. */
  ghost predicate KeptOnlyBy(s: Repo, released: set<string>, k: string, hash: string)
    requires k in s.operations
  {
    && hash in PresentedIn(s, s.operations[k].sessionId)
    && forall l :: l in s.operations && l != k && s.operations[l].sessionId == s.operations[k].sessionId ==>
         hash !in Prompts(s.operations[l], l in released)
  }

  lemma ReservedIsKeptAlone(s: Repo, released: set<string>, k: string, hash: string)
    requires HeldBySession(s, released) && k in s.operations && k !in released
    requires hash in s.operations[k].reservedFallbackHashes
    ensures KeptOnlyBy(s, released, k, hash)
  {
    assert HoldsItsOwn(s, k, false);
    assert hash in Prompts(s.operations[k], false);
    forall l | l in s.operations && l != k && s.operations[l].sessionId == s.operations[k].sessionId
      ensures hash !in Prompts(s.operations[l], l in released)
    {
      assert HoldApart(s.operations[k], false, s.operations[l], l in released);
    }
  }

  lemma StoredFinalization(steps: seq<Step>, auth: Authorization, f: ShortAnswerFinalization)
    requires FinalizeShortAnswer(Execute(steps), auth, f).1.Ok?
    ensures var after := steps + [FinalizeStep(auth, f)];
      var t, released := Execute(after), Released(History(after));
      && HeldBySession(t, released)
      && f.idempotencyKey in t.operations && f.idempotencyKey in Execute(steps).operations
      && t.operations[f.idempotencyKey].reservedFallbackHashes
           == Execute(steps).operations[f.idempotencyKey].reservedFallbackHashes
      && (f.idempotencyKey in released <==> f.fallback.None?)
  {
    var after := steps + [FinalizeStep(auth, f)];
    assert after[..|after| - 1] == steps;
    assert History(after)[..|after| - 1] == History(steps);
    ReservationsStayDisjoint(steps);
    ReservationsStayDisjoint(after);
    var m := FinalizeMoves(Execute(steps), auth, f);
    assert SoundOperation(Execute(steps), f.idempotencyKey);
  }

  lemma StoredBundleIsKept(steps: seq<Step>, auth: Authorization, f: ShortAnswerFinalization)
    requires FinalizeShortAnswer(Execute(steps), auth, f).1.Ok? && f.fallback.Some?
    requires f.idempotencyKey in Execute(steps).operations
    requires PromptHashes(QuestionsOf(f.fallback.value.items))
               == Execute(steps).operations[f.idempotencyKey].reservedFallbackHashes
    ensures var after := steps + [FinalizeStep(auth, f)];
      var t, released := Execute(after), Released(History(after));
      && f.idempotencyKey in t.operations
      && forall i :: 0 <= i < |f.fallback.value.items| ==>
           KeptOnlyBy(t, released, f.idempotencyKey, f.fallback.value.items[i].question.normalizedPromptHash)
  {
    StoredFinalization(steps, auth, f);
    var after := steps + [FinalizeStep(auth, f)];
    var items := f.fallback.value.items;
    forall i | 0 <= i < |items|
      ensures KeptOnlyBy(Execute(after), Released(History(after)), f.idempotencyKey,
        items[i].question.normalizedPromptHash)
    {
      assert PromptHashes(QuestionsOf(items))[i] == items[i].question.normalizedPromptHash;
      ReservedIsKeptAlone(Execute(after), Released(History(after)), f.idempotencyKey,
        items[i].question.normalizedPromptHash);
    }
  }

  /** Graded: the reservations are given back. Abstained: each prompt of the bundle stays marked as
      presented in the session and is held by no other operation there. */
  ghost predicate OutcomeDecides(steps: seq<Step>, f: ShortAnswerFinalization) {
    var t, released := Execute(steps), Released(History(steps));
    && f.idempotencyKey in t.operations
    && (f.outcome == Graded <==> f.idempotencyKey in released)
    && (f.outcome == Abstained ==> f.fallback.Some? && forall i :: 0 <= i < |f.fallback.value.items| ==>
          KeptOnlyBy(t, released, f.idempotencyKey, f.fallback.value.items[i].question.normalizedPromptHash))
  }

  lemma StoredDecision(steps: seq<Step>, cmd: Command, token: nat, snapshot: Snapshot, uuid: IdentityParts -> string,
                       attemptId: string, routed: Routed, f: ShortAnswerFinalization)
    requires cmd.idempotencyKey in Execute(steps).operations
    requires snapshot == Execute(steps).operations[cmd.idempotencyKey].snapshot
    requires Decide(cmd, token, snapshot, uuid, attemptId, routed) == Finalize(f)
    requires FinalizeShortAnswer(Execute(steps), cmd.auth, f).1.Ok?
    ensures OutcomeDecides(steps + [FinalizeStep(cmd.auth, f)], f)
  {
    DecidedFinalization(cmd, token, snapshot, uuid, attemptId, routed, f);
    StoredFinalization(steps, cmd.auth, f);
    if f.fallback.Some? {
      ReservedCandidatesAlwaysSuffice(steps, cmd.idempotencyKey, cmd.policy, uuid, attemptId);
      StoredBundleIsKept(steps, cmd.auth, f);
    }
  }

  /** In every reachable state, whatever the worker decides on a claimed operation's snapshot and the
      repository accepts, decides what the session keeps. */
  lemma StoredOutcomeDecidesReservations(steps: seq<Step>, cmd: Command, token: nat, uuid: IdentityParts -> string,
                                         attemptId: string, routed: Routed)
    requires cmd.idempotencyKey in Execute(steps).operations
    ensures var s := Execute(steps);
      var d := Decide(cmd, token, s.operations[cmd.idempotencyKey].snapshot, uuid, attemptId, routed);
      d.Finalize? && FinalizeShortAnswer(s, cmd.auth, d.finalization).1.Ok? ==>
        OutcomeDecides(steps + [FinalizeStep(cmd.auth, d.finalization)], d.finalization)
  {
    var s := Execute(steps);
    var snapshot := s.operations[cmd.idempotencyKey].snapshot;
    var d := Decide(cmd, token, snapshot, uuid, attemptId, routed);
    if d.Finalize? && FinalizeShortAnswer(s, cmd.auth, d.finalization).1.Ok? {
      StoredDecision(steps, cmd, token, snapshot, uuid, attemptId, routed, d.finalization);
    }
  }
}
