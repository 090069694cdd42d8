/** What a worker decides about a claimed short answer, in terms of the snapshot and the model's judgments
    alone: which snapshots it works on, what every item of evidence says, and how it ends otherwise. */
module ShortAnswerVerdicts {
  import opened Wrappers
  import opened AssessmentContracts
  import opened ShortAnswerGrading
  import opened Sequences
  import opened StableSort
  import opened TextOrder

  // ----- Which snapshots are worked on ------------------------------------------------------

  ghost predicate Within<T>(part: seq<T>, whole: seq<T>) {
    forall x :: x in part ==> x in whole
  }

  /** The rubric names one of the question's concepts, criteria that say something, and its sources. */
  ghost predicate UsableRubric(r: Rubric, q: ShortAnswerQuestion) {
    && r.conceptId in q.conceptIds
    && |r.rubricId| >= 1 && |r.rubricVersion| >= 1
    && |r.requiredCriteria| >= 1 && (forall c :: c in r.requiredCriteria ==> |c| >= 1)
    && (forall c :: c in r.materialContradictions ==> |c| >= 1)
    && |r.sourceSpanIds| >= 1 && Within(r.sourceSpanIds, q.sourceSpanIds)
  }

  ghost predicate IsDigest(s: string) {
    |s| == 64 && forall i :: 0 <= i < 64 ==> s[i] in "0123456789abcdef"
  }

  /** A sourced multiple choice with one correct option, for the one concept of a rubric of the question. */
  ghost predicate UsableCandidate(c: KeyedQuestion, q: ShortAnswerQuestion) {
    && c.courseId == q.courseId && |c.conceptIds| == 1 && IsDigest(c.normalizedPromptHash)
    && |c.responseOptions| >= 2 && Distinct(c.responseOptions) && c.keyedAnswer in c.responseOptions
    && |c.sourceSpanIds| >= 1
    && exists i :: 0 <= i < |q.rubrics| && AnswersRubric(c, q.rubrics[i])
  }

  ghost predicate AnswersRubric(c: KeyedQuestion, r: Rubric) {
    && c.conceptIds == [r.conceptId] && c.rubricId == r.rubricId && c.rubricVersion == r.rubricVersion
    && Within(c.sourceSpanIds, r.sourceSpanIds)
  }

  /** One rubric for each of the question's concepts, and as many candidates, no two with one prompt. */
  ghost predicate Usable(snapshot: Snapshot) {
    var q, cs := snapshot.question, snapshot.fallbackCandidates;
    && 1 <= |q.rubrics| == |q.conceptIds| == |cs|
    && Distinct(q.conceptIds) && Distinct(q.sourceSpanIds)
    && (forall i, j :: 0 <= i < j < |q.rubrics| ==> q.rubrics[i].conceptId != q.rubrics[j].conceptId)
    && (forall i, j :: 0 <= i < j < |cs| ==> cs[i].normalizedPromptHash != cs[j].normalizedPromptHash)
    && (forall i :: 0 <= i < |q.rubrics| ==> UsableRubric(q.rubrics[i], q))
    && (forall i :: 0 <= i < |cs| ==> UsableCandidate(cs[i], q))
  }

  lemma HexDigit(c: char)
    ensures ('0' <= c <= '9' || 'a' <= c <= 'f') <==> c in "0123456789abcdef"
  {
    var hex := "0123456789abcdef";
    if '0' <= c <= '9' {
      assert hex[c as int - '0' as int] == c;
    } else if 'a' <= c <= 'f' {
      assert hex[c as int - 'a' as int + 10] == c;
    }
  }

  lemma DigestsAreHex(s: string)
    ensures IsHex64(s) <==> IsDigest(s)
  {
    if |s| == 64 {
      forall i | 0 <= i < 64
        ensures ('0' <= s[i] <= '9' || 'a' <= s[i] <= 'f') <==> s[i] in "0123456789abcdef"
      {
        HexDigit(s[i]);
      }
      if IsDigest(s) {
        forall c | c in s
          ensures '0' <= c <= '9' || 'a' <= c <= 'f'
        {
          var i :| 0 <= i < 64 && s[i] == c;
        }
      } else if IsHex64(s) {
        forall i | 0 <= i < 64
          ensures s[i] in "0123456789abcdef"
        {
          assert s[i] in s;
        }
      }
    }
  }

  lemma RubricsAreUsable(r: Rubric, q: ShortAnswerQuestion)
    ensures ValidRubric(r, q.conceptIds, q.sourceSpanIds) <==> UsableRubric(r, q)
  {
    assert [] !in r.requiredCriteria <==> forall c :: c in r.requiredCriteria ==> |c| >= 1;
    assert [] !in r.materialContradictions <==> forall c :: c in r.materialContradictions ==> |c| >= 1;
  }

  lemma CandidatesAreUsable(c: KeyedQuestion, q: ShortAnswerQuestion)
    ensures ValidCandidate(c, q) <==> UsableCandidate(c, q)
  {
    DigestsAreHex(c.normalizedPromptHash);
    CountingMeansDistinct(c.responseOptions);
    if ValidCandidate(c, q) {
      var r :| r in q.rubrics && r.conceptId == c.conceptIds[0] && r.rubricId == c.rubricId
        && r.rubricVersion == c.rubricVersion && forall id :: id in c.sourceSpanIds ==> id in r.sourceSpanIds;
      var i :| 0 <= i < |q.rubrics| && q.rubrics[i] == r;
      assert AnswersRubric(c, q.rubrics[i]);
    }
    if UsableCandidate(c, q) {
      var i :| 0 <= i < |q.rubrics| && AnswersRubric(c, q.rubrics[i]);
      assert q.rubrics[i] in q.rubrics;
      assert ValidReplacement(c);
    }
  }

  lemma PartsAreUsable(snapshot: Snapshot)
    ensures var q, cs := snapshot.question, snapshot.fallbackCandidates;
      && ((forall r :: r in q.rubrics ==> ValidRubric(r, q.conceptIds, q.sourceSpanIds)) <==>
          (forall i :: 0 <= i < |q.rubrics| ==> UsableRubric(q.rubrics[i], q)))
      && ((forall c :: c in cs ==> ValidCandidate(c, q)) <==> (forall i :: 0 <= i < |cs| ==> UsableCandidate(cs[i], q)))
  {
    var q, cs := snapshot.question, snapshot.fallbackCandidates;
    forall r
      ensures ValidRubric(r, q.conceptIds, q.sourceSpanIds) <==> UsableRubric(r, q)
    {
      RubricsAreUsable(r, q);
    }
    forall c
      ensures ValidCandidate(c, q) <==> UsableCandidate(c, q)
    {
      CandidatesAreUsable(c, q);
    }
  }

  /** The checks of the snapshot, counting included, accept exactly the usable ones. */
  lemma ValidExactlyWhenUsable(snapshot: Snapshot)
    ensures ValidSnapshot(snapshot) <==> Usable(snapshot)
  {
    var q, cs := snapshot.question, snapshot.fallbackCandidates;
    CountingMeansDistinct(q.conceptIds);
    CountingMeansDistinct(q.sourceSpanIds);
    CountingMeansDistinct(ConceptsOf(q.rubrics));
    CountingMeansDistinct(PromptHashes(cs));
    assert Distinct(ConceptsOf(q.rubrics)) <==>
      forall i, j :: 0 <= i < j < |q.rubrics| ==> q.rubrics[i].conceptId != q.rubrics[j].conceptId by {
      assert forall i :: 0 <= i < |q.rubrics| ==> ConceptsOf(q.rubrics)[i] == q.rubrics[i].conceptId;
    }
    assert Distinct(PromptHashes(cs)) <==>
      forall i, j :: 0 <= i < j < |cs| ==> cs[i].normalizedPromptHash != cs[j].normalizedPromptHash by {
      assert forall i :: 0 <= i < |cs| ==> PromptHashes(cs)[i] == cs[i].normalizedPromptHash;
    }
    PartsAreUsable(snapshot);
  }

  // ----- What the judgments must be ---------------------------------------------------------

  /** A scored judgment's confidence is a unit fraction. */
  ghost predicate InRange(j: Judgment) {
    j.Scored? ==> 0 <= j.confidence <= 100_000
  }

  /** One judgment for each rubric's concept. */
  ghost predicate OneEach(rubrics: seq<Rubric>, js: seq<Judgment>) {
    && |js| == |rubrics|
    && (forall i, j :: 0 <= i < j < |js| ==> js[i].conceptId != js[j].conceptId)
    && (forall k :: 0 <= k < |js| ==> exists i :: 0 <= i < |rubrics| && rubrics[i].conceptId == js[k].conceptId)
  }

  /** And every confidence is in range. */
  ghost predicate WellJudged(rubrics: seq<Rubric>, js: seq<Judgment>) {
    OneEach(rubrics, js) && forall k :: 0 <= k < |js| ==> InRange(js[k])
  }

  ghost predicate ConceptsApart(rubrics: seq<Rubric>) {
    forall i, j :: 0 <= i < j < |rubrics| ==> rubrics[i].conceptId != rubrics[j].conceptId
  }

  lemma {:induction false} ListedExactlyInRange(rubrics: seq<Rubric>, js: seq<Judgment>, threshold: nat)
    requires forall i :: 0 <= i < |rubrics| ==> JudgmentFor(js, rubrics[i].conceptId).Some?
    ensures EvidenceList(rubrics, js, threshold).Ok? <==>
      forall i :: 0 <= i < |rubrics| ==> InRange(JudgmentFor(js, rubrics[i].conceptId).value)
    ensures EvidenceList(rubrics, js, threshold).Err? ==> EvidenceList(rubrics, js, threshold).error == InvalidResult
  {
    if rubrics != [] {
      var rest := rubrics[1..];
      forall i | 0 <= i < |rest|
        ensures JudgmentFor(js, rest[i].conceptId).Some?
      {
        assert rest[i] == rubrics[i + 1];
      }
      ListedExactlyInRange(rest, js, threshold);
      assert forall i :: 1 <= i < |rubrics| ==> rubrics[i] == rest[i - 1];
    }
  }

  lemma ExpectedAreAsked(rubrics: seq<Rubric>)
    requires ConceptsApart(rubrics)
    ensures |(set r | r in rubrics :: r.conceptId)| == |rubrics|
  {
    CountingMeansDistinct(ConceptsOf(rubrics));
    ConceptSets(rubrics, []);
  }

  lemma ExpectedIsAsked(rubrics: seq<Rubric>, c: string)
    ensures c in (set r | r in rubrics :: r.conceptId) <==> exists i :: 0 <= i < |rubrics| && rubrics[i].conceptId == c
  {
    if c in (set r | r in rubrics :: r.conceptId) {
      var r :| r in rubrics && r.conceptId == c;
      var i :| 0 <= i < |rubrics| && rubrics[i] == r;
      assert rubrics[i].conceptId == c;
    }
    if exists i :: 0 <= i < |rubrics| && rubrics[i].conceptId == c {
      var i :| 0 <= i < |rubrics| && rubrics[i].conceptId == c;
      assert rubrics[i] in rubrics;
    }
  }

  /** The judgments are counted, and then looked up: that accepts exactly one judgment per concept. */
  ghost predicate CountsRight(rubrics: seq<Rubric>, js: seq<Judgment>) {
    var expected := set r | r in rubrics :: r.conceptId;
    && |js| == |expected| && |(set j | j in js :: j.conceptId)| == |expected|
    && forall j :: j in js ==> j.conceptId in expected
  }

  lemma CountingMeansOneEach(rubrics: seq<Rubric>, js: seq<Judgment>)
    requires ConceptsApart(rubrics)
    ensures CountsRight(rubrics, js) <==> OneEach(rubrics, js)
  {
    ExpectedAreAsked(rubrics);
    CountingMeansDistinct(JudgedConcepts(js));
    ConceptSets(rubrics, js);
    assert Distinct(JudgedConcepts(js)) <==>
        forall i, j :: 0 <= i < j < |js| ==> js[i].conceptId != js[j].conceptId by {
      assert forall i :: 0 <= i < |js| ==> JudgedConcepts(js)[i] == js[i].conceptId;
    }
    if OneEach(rubrics, js) {
      forall j | j in js
        ensures j.conceptId in (set r | r in rubrics :: r.conceptId)
      {
        var k :| 0 <= k < |js| && js[k] == j;
        ExpectedIsAsked(rubrics, j.conceptId);
      }
    } else if CountsRight(rubrics, js) {
      forall k | 0 <= k < |js|
        ensures exists i :: 0 <= i < |rubrics| && rubrics[i].conceptId == js[k].conceptId
      {
        assert js[k] in js;
        ExpectedIsAsked(rubrics, js[k].conceptId);
      }
    }
  }

  lemma EachIsJudged(rubrics: seq<Rubric>, js: seq<Judgment>)
    requires ConceptsApart(rubrics) && OneEach(rubrics, js)
    ensures forall i :: 0 <= i < |rubrics| ==> JudgmentFor(js, rubrics[i].conceptId).Some?
  {
    forall i, j | 0 <= i < j < |js|
      ensures JudgedConcepts(js)[i] != JudgedConcepts(js)[j]
    {
      assert js[i].conceptId != js[j].conceptId;
    }
    forall c | c in JudgedConcepts(js)
      ensures c in ConceptsOf(rubrics)
    {
      var k :| 0 <= k < |js| && JudgedConcepts(js)[k] == c;
      var i :| 0 <= i < |rubrics| && rubrics[i].conceptId == js[k].conceptId;
      assert ConceptsOf(rubrics)[i] == c;
    }
    Pigeonhole(JudgedConcepts(js), ConceptsOf(rubrics));
    CoveredRubrics(rubrics, js);
  }

  lemma CountedThenListed(q: ShortAnswerQuestion, js: seq<Judgment>, policy: Policy)
    ensures NormalizeJudgments(q, js, policy)
      == if CountsRight(q.rubrics, js) then EvidenceList(q.rubrics, js, policy.confidenceThreshold)
         else Err(InvalidResult)
  {
  }

  lemma JudgmentsNormalizeExactly(q: ShortAnswerQuestion, js: seq<Judgment>, policy: Policy)
    requires ConceptsApart(q.rubrics)
    ensures NormalizeJudgments(q, js, policy).Ok? <==> WellJudged(q.rubrics, js)
    ensures NormalizeJudgments(q, js, policy).Err? ==> NormalizeJudgments(q, js, policy).error == InvalidResult
  {
    CountedThenListed(q, js, policy);
    CountingMeansOneEach(q.rubrics, js);
    if OneEach(q.rubrics, js) {
      EachIsJudged(q.rubrics, js);
      ListedExactlyInRange(q.rubrics, js, policy.confidenceThreshold);
      ScoresInRange(q.rubrics, js);
    }
  }

  lemma JudgedApart(js: seq<Judgment>)
    requires forall i, j :: 0 <= i < j < |js| ==> js[i].conceptId != js[j].conceptId
    ensures Distinct(JudgedConcepts(js))
  {
    forall i, j | 0 <= i < j < |js|
      ensures JudgedConcepts(js)[i] != JudgedConcepts(js)[j]
    {
      assert js[i].conceptId != js[j].conceptId;
    }
  }

  /** Each judgment is the one found for the concept of some rubric. */
  lemma FoundForItsRubric(rubrics: seq<Rubric>, js: seq<Judgment>, k: nat) returns (i: nat)
    requires OneEach(rubrics, js) && k < |js|
    ensures i < |rubrics| && rubrics[i].conceptId == js[k].conceptId
    ensures JudgmentFor(js, rubrics[i].conceptId) == Some(js[k])
  {
    i :| 0 <= i < |rubrics| && rubrics[i].conceptId == js[k].conceptId;
    JudgedApart(js);
    OnlyJudgment(js, js[k]);
  }

  lemma ScoresInRange(rubrics: seq<Rubric>, js: seq<Judgment>)
    requires OneEach(rubrics, js)
    requires forall i :: 0 <= i < |rubrics| ==> JudgmentFor(js, rubrics[i].conceptId).Some?
    ensures (forall i :: 0 <= i < |rubrics| ==> InRange(JudgmentFor(js, rubrics[i].conceptId).value))
      <==> (forall k :: 0 <= k < |js| ==> InRange(js[k]))
  {
    if forall i :: 0 <= i < |rubrics| ==> InRange(JudgmentFor(js, rubrics[i].conceptId).value) {
      forall k | 0 <= k < |js|
        ensures InRange(js[k])
      {
        var i := FoundForItsRubric(rubrics, js, k);
      }
    }
    if forall k :: 0 <= k < |js| ==> InRange(js[k]) {
      forall i | 0 <= i < |rubrics|
        ensures InRange(JudgmentFor(js, rubrics[i].conceptId).value)
      {
        var k :| 0 <= k < |js| && js[k] == JudgmentFor(js, rubrics[i].conceptId).value;
      }
    }
  }

  // ----- What every item of evidence says ---------------------------------------------------

  /** The item says of its rubric what the judgment says: its band, its confidence, and the score that belongs
      to the band. It counts, with the rating that belongs to the band, only if the attempt is graded;
      otherwise it names why not. */
  ghost predicate SaysAsJudged(e: Evidence, r: Rubric, j: Judgment, threshold: nat, graded: bool) {
    && e.conceptId == r.conceptId == j.conceptId && e.rubricId == r.rubricId && e.rubricVersion == r.rubricVersion
    && match j
       case Unanswerable(_) =>
         && !graded && !e.eligibleForMastery && e.fsrsRating.None?
         && e.ineligibilityReason == Some(SemanticUnanswerable)
         && e.graderConfidence.None? && e.rubricBand.None? && e.score.None?
       case Scored(_, band, confidence) =>
         && 0 <= confidence <= 100_000 && e.graderConfidence == Some(confidence) && e.rubricBand == Some(band)
         && (e.score == Some(100_000) <==> band == Correct)
         && (e.score == Some(50_000) <==> band == PartiallyCorrect)
         && (e.score == Some(0) <==> band == Incorrect)
         && (e.eligibleForMastery <==> graded) && (graded ==> confidence >= threshold)
         && (e.fsrsRating == Some(Good) <==> graded && band == Correct)
         && (e.fsrsRating == Some(Again) <==> graded && band != Correct)
         && (e.ineligibilityReason == Some(BelowThreshold) <==> confidence < threshold)
         && (e.ineligibilityReason == Some(AttemptAbstained) <==> !graded && confidence >= threshold)
         && e.ineligibilityReason != Some(SemanticUnanswerable)
  }

  ghost predicate EvidenceSays(es: seq<Evidence>, rubrics: seq<Rubric>, js: seq<Judgment>, threshold: nat,
      graded: bool)
  {
    |es| == |rubrics| && forall i :: 0 <= i < |rubrics| ==>
      exists k :: 0 <= k < |js| && SaysAsJudged(es[i], rubrics[i], js[k], threshold, graded)
  }

  ghost predicate AllSure(js: seq<Judgment>, threshold: nat) {
    forall k :: 0 <= k < |js| ==> js[k].Scored? && js[k].confidence >= threshold
  }

  lemma ListSays(rubrics: seq<Rubric>, js: seq<Judgment>, threshold: nat)
    requires EvidenceList(rubrics, js, threshold).Ok?
    ensures var es := EvidenceList(rubrics, js, threshold).value;
      (forall e :: e in es ==> e.eligibleForMastery) ==> EvidenceSays(es, rubrics, js, threshold, true)
    ensures EvidenceSays(WithdrawAll(EvidenceList(rubrics, js, threshold).value), rubrics, js, threshold, false)
  {
    EvidenceFollowsRubrics(rubrics, js, threshold);
    var es := EvidenceList(rubrics, js, threshold).value;
    forall i | 0 <= i < |rubrics|
      ensures exists k :: 0 <= k < |js| && SaysAsJudged(WithdrawAll(es)[i], rubrics[i], js[k], threshold, false)
      ensures es[i].eligibleForMastery ==>
        exists k :: 0 <= k < |js| && SaysAsJudged(es[i], rubrics[i], js[k], threshold, true)
    {
      var j := JudgmentFor(js, rubrics[i].conceptId).value;
      assert EvidenceFor(rubrics[i], j, threshold) == Ok(es[i]);
      var k :| 0 <= k < |js| && js[k] == j;
      ItemSays(rubrics[i], j, threshold, es[i]);
    }
  }

  lemma ItemSays(r: Rubric, j: Judgment, threshold: nat, e: Evidence)
    requires r.conceptId == j.conceptId && EvidenceFor(r, j, threshold) == Ok(e)
    ensures e.eligibleForMastery ==> SaysAsJudged(e, r, j, threshold, true)
    ensures SaysAsJudged(Withdraw(e), r, j, threshold, false)
    ensures e.eligibleForMastery <==> j.Scored? && j.confidence >= threshold
  {
  }

  lemma SureIsEligible(rubrics: seq<Rubric>, js: seq<Judgment>, threshold: nat, e: Evidence)
    requires EvidenceList(rubrics, js, threshold).Ok? && e in EvidenceList(rubrics, js, threshold).value
    requires AllSure(js, threshold)
    ensures e.eligibleForMastery
  {
    EvidenceFollowsRubrics(rubrics, js, threshold);
    var es := EvidenceList(rubrics, js, threshold).value;
    var i :| 0 <= i < |es| && es[i] == e;
    var j := JudgmentFor(js, rubrics[i].conceptId).value;
    var k :| 0 <= k < |js| && js[k] == j;
    ItemSays(rubrics[i], j, threshold, e);
  }

  lemma EligibleIsSure(rubrics: seq<Rubric>, js: seq<Judgment>, threshold: nat, k: nat)
    requires OneEach(rubrics, js) && EvidenceList(rubrics, js, threshold).Ok? && k < |js|
    requires forall e :: e in EvidenceList(rubrics, js, threshold).value ==> e.eligibleForMastery
    ensures js[k].Scored? && js[k].confidence >= threshold
  {
    EvidenceFollowsRubrics(rubrics, js, threshold);
    var es := EvidenceList(rubrics, js, threshold).value;
    var i := FoundForItsRubric(rubrics, js, k);
    assert EvidenceFor(rubrics[i], js[k], threshold) == Ok(es[i]);
    assert es[i] in es;
    ItemSays(rubrics[i], js[k], threshold, es[i]);
  }

  ghost predicate AllEligibleIn(es: seq<Evidence>) {
    forall e :: e in es ==> e.eligibleForMastery
  }

  lemma EligibleExactlyWhenSure(rubrics: seq<Rubric>, js: seq<Judgment>, threshold: nat)
    requires OneEach(rubrics, js) && EvidenceList(rubrics, js, threshold).Ok?
    ensures AllEligibleIn(EvidenceList(rubrics, js, threshold).value) <==> AllSure(js, threshold)
  {
    if AllSure(js, threshold) {
      forall e | e in EvidenceList(rubrics, js, threshold).value
        ensures e.eligibleForMastery
      {
        SureIsEligible(rubrics, js, threshold, e);
      }
    } else if AllEligibleIn(EvidenceList(rubrics, js, threshold).value) {
      forall k | 0 <= k < |js|
        ensures js[k].Scored? && js[k].confidence >= threshold
      {
        EligibleIsSure(rubrics, js, threshold, k);
      }
    }
  }

  // ----- What is decided --------------------------------------------------------------------

  /** The submission is made for the command, under the claim's token, for the derived attempt. */
  ghost predicate SubmittedFor(f: ShortAnswerFinalization, cmd: Command, token: nat, attemptId: string) {
    && f.attemptId == attemptId && f.claimToken == token && f.idempotencyKey == cmd.idempotencyKey
    && f.requestDigest == cmd.requestDigest && f.policy == cmd.policy
    && f.ownerScopeId == cmd.auth.ownerScopeId && f.userId == cmd.auth.actorId
  }

  /** The bundle that stands for the abstention: derived identifiers, and for each rubric the candidate that
      answers its concept. */
  ghost predicate StandsIn(bundle: Bundle<KeyedQuestion>, snapshot: Snapshot, policy: Policy,
      uuid: IdentityParts -> string,
                           attemptId: string)
  {
    var rubrics, v := snapshot.question.rubrics, policy.gradingPolicyVersion;
    && bundle.originalAttemptId == attemptId
    && bundle.id == uuid(BundleParts(Sort(TextLeq, ConceptsOf(rubrics)), attemptId, v))
    && |bundle.items| == |rubrics|
    && forall i :: 0 <= i < |rubrics| ==>
         && bundle.items[i].conceptId == rubrics[i].conceptId
         && bundle.items[i].id == uuid(ItemParts(rubrics[i].conceptId, attemptId, v))
         && bundle.items[i].question in snapshot.fallbackCandidates
         && bundle.items[i].question.conceptIds == [rubrics[i].conceptId]
  }

  lemma {:induction false} ItemsStandIn(rubrics: seq<Rubric>, cs: seq<KeyedQuestion>, uuid: IdentityParts -> string,
                                        v: string, attemptId: string)
    requires ReplacementItems(rubrics, cs, uuid, v, attemptId).Ok?
    ensures var items := ReplacementItems(rubrics, cs, uuid, v, attemptId).value;
      forall i :: 0 <= i < |rubrics| ==>
        && items[i].id == uuid(ItemParts(rubrics[i].conceptId, attemptId, v))
        && items[i].question in cs && items[i].question.conceptIds != []
        && items[i].question.conceptIds[0] == rubrics[i].conceptId
  {
    if rubrics != [] {
      ItemsStandIn(rubrics[1..], cs, uuid, v, attemptId);
    }
  }

  lemma BundleStandsIn(snapshot: Snapshot, policy: Policy, uuid: IdentityParts -> string, attemptId: string)
    requires ValidSnapshot(snapshot) && BuildReplacementBundle(snapshot, policy, uuid, attemptId).Ok?
    ensures StandsIn(BuildReplacementBundle(snapshot, policy, uuid, attemptId).value, snapshot, policy, uuid, attemptId)
  {
    var bundle := BuildReplacementBundle(snapshot, policy, uuid, attemptId).value;
    var rubrics, cs := snapshot.question.rubrics, snapshot.fallbackCandidates;
    ItemsStandIn(rubrics, cs, uuid, policy.gradingPolicyVersion, attemptId);
    forall i | 0 <= i < |rubrics|
      ensures bundle.items[i].question.conceptIds == [rubrics[i].conceptId]
    {
      assert ValidCandidate(bundle.items[i].question, snapshot.question);
    }
  }

  ghost predicate CandidatesApart(cs: seq<KeyedQuestion>) {
    forall i, j :: 0 <= i < j < |cs| ==> cs[i].conceptIds != cs[j].conceptIds
  }

  lemma BundleExistsExactly(snapshot: Snapshot, policy: Policy, uuid: IdentityParts -> string, attemptId: string)
    requires ValidSnapshot(snapshot)
    ensures BuildReplacementBundle(snapshot, policy, uuid, attemptId).Ok? <==>
      CandidatesApart(snapshot.fallbackCandidates)
    ensures var bundle := BuildReplacementBundle(snapshot, policy, uuid, attemptId);
      bundle.Err? ==> bundle.error == FallbackUnavailable
  {
    var cs := snapshot.fallbackCandidates;
    BundleExistsIffConceptsDistinct(snapshot, policy, uuid, attemptId);
    NoItemsMeansNoFallback(snapshot.question.rubrics, cs, uuid, policy.gradingPolicyVersion, attemptId);
    if CandidatesApart(cs) {
      DistinctPairs(cs);
    }
  }

  lemma {:induction false} NoItemsMeansNoFallback(rubrics: seq<Rubric>, cs: seq<KeyedQuestion>,
                                                  uuid: IdentityParts -> string,
                                                  v: string, attemptId: string)
    ensures var items := ReplacementItems(rubrics, cs, uuid, v, attemptId);
      items.Err? ==> items.error == FallbackUnavailable
  {
    if rubrics != [] {
      NoItemsMeansNoFallback(rubrics[1..], cs, uuid, v, attemptId);
    }
  }

  /** What a worker with a usable snapshot does about the model's answer. */
  ghost predicate DecidedAbout(d: Decision, cmd: Command, token: nat, snapshot: Snapshot, uuid: IdentityParts -> string,
                               attemptId: string, routed: Routed)
  {
    match routed
    case OtherFailure(error) => d == ReleaseAndThrow(error)
    case RouterFailed => d == ReleaseAndThrow(GradingUnavailable)
    case InvalidModelResult => d.Finalize? && SubmittedFor(d.finalization, cmd, token, attemptId)
      && Abstains(d.finalization, snapshot, uuid, attemptId) && d.finalization.evidence == []
    case Judged(js, provenance) =>
      var rubrics, threshold := snapshot.question.rubrics, cmd.policy.confidenceThreshold;
      if !(cmd.policy.expectedProvenance.Items <= provenance.Items) then d == ReleaseAndThrow(InvalidConfiguration)
      else if !WellJudged(rubrics, js) then d == ReleaseAndThrow(InvalidResult)
      else
        && d.Finalize? && SubmittedFor(d.finalization, cmd, token, attemptId)
        && EvidenceSays(d.finalization.evidence, rubrics, js, threshold, AllSure(js, threshold))
        && if AllSure(js, threshold) then d.finalization.outcome == Graded && d.finalization.fallback.None?
           else Abstains(d.finalization, snapshot, uuid, attemptId)
  }

  ghost predicate Abstains(f: ShortAnswerFinalization, snapshot: Snapshot, uuid: IdentityParts -> string,
      attemptId: string)
  {
    f.outcome == Abstained && f.fallback.Some? && StandsIn(f.fallback.value, snapshot, f.policy, uuid, attemptId)
  }

  lemma ProvenanceByItems(policy: Policy, actual: map<string, string>)
    ensures ExpectedProvenance(policy, actual) <==> policy.expectedProvenance.Items <= actual.Items
  {
    var expected := policy.expectedProvenance;
    if ExpectedProvenance(policy, actual) {
      forall item | item in expected.Items
        ensures item in actual.Items
      {
        assert item.0 in expected && expected[item.0] == item.1;
      }
    } else if expected.Items <= actual.Items {
      forall key | key in expected
        ensures key in actual && actual[key] == expected[key]
      {
        assert (key, expected[key]) in expected.Items;
      }
    }
  }

  lemma JudgedEvidenceIsSubmitted(cmd: Command, token: nat, q: ShortAnswerQuestion, fallback: Bundle<KeyedQuestion>,
                                  attemptId: string, routed: Routed)
    requires routed.Judged? && ExpectedProvenance(cmd.policy, routed.provenance)
    requires NormalizeJudgments(q, routed.judgments, cmd.policy).Ok?
    ensures var d := DecideWith(cmd, token, q, fallback, attemptId, routed);
      var es := NormalizeJudgments(q, routed.judgments, cmd.policy).value;
      && d.Finalize? && SubmittedFor(d.finalization, cmd, token, attemptId)
      && if AllEligibleIn(es) then
           d.finalization.outcome == Graded && d.finalization.fallback.None? && d.finalization.evidence == es
         else
           && d.finalization.outcome == Abstained && d.finalization.fallback == Some(fallback)
           && d.finalization.evidence == WithdrawAll(es)
  {
  }

  lemma JudgmentsAreDecided(cmd: Command, token: nat, snapshot: Snapshot, uuid: IdentityParts -> string,
                            attemptId: string, routed: Routed)
    requires ValidSnapshot(snapshot) && BuildReplacementBundle(snapshot, cmd.policy, uuid, attemptId).Ok?
    requires routed.Judged? && ConceptsApart(snapshot.question.rubrics)
    requires ExpectedProvenance(cmd.policy, routed.provenance)
    requires WellJudged(snapshot.question.rubrics, routed.judgments)
    ensures DecidedAbout(Decide(cmd, token, snapshot, uuid, attemptId, routed), cmd, token, snapshot, uuid, attemptId,
                         routed)
  {
    var q, js := snapshot.question, routed.judgments;
    var bundle := BuildReplacementBundle(snapshot, cmd.policy, uuid, attemptId).value;
    ProvenanceByItems(cmd.policy, routed.provenance);
    JudgmentsNormalizeExactly(q, js, cmd.policy);
    BundleStandsIn(snapshot, cmd.policy, uuid, attemptId);
    JudgedEvidenceIsSubmitted(cmd, token, q, bundle, attemptId, routed);
    EvidenceIsAsJudged(q, js, cmd.policy);
    DecisionOfUsable(cmd, token, snapshot, uuid, attemptId, routed);
  }

  lemma EvidenceIsAsJudged(q: ShortAnswerQuestion, js: seq<Judgment>, policy: Policy)
    requires ConceptsApart(q.rubrics) && WellJudged(q.rubrics, js) && NormalizeJudgments(q, js, policy).Ok?
    ensures var es, threshold := NormalizeJudgments(q, js, policy).value, policy.confidenceThreshold;
      && (AllEligibleIn(es) <==> AllSure(js, threshold))
      && EvidenceSays(if AllSure(js, threshold) then es else WithdrawAll(es), q.rubrics, js, threshold,
                      AllSure(js, threshold))
  {
    assert OneEach(q.rubrics, js);
    ListSays(q.rubrics, js, policy.confidenceThreshold);
    EligibleExactlyWhenSure(q.rubrics, js, policy.confidenceThreshold);
  }

  lemma DecisionOfUsable(cmd: Command, token: nat, snapshot: Snapshot, uuid: IdentityParts -> string,
                         attemptId: string, routed: Routed)
    requires ValidSnapshot(snapshot) && BuildReplacementBundle(snapshot, cmd.policy, uuid, attemptId).Ok?
    ensures var bundle := BuildReplacementBundle(snapshot, cmd.policy, uuid, attemptId).value;
      Decide(cmd, token, snapshot, uuid, attemptId, routed)
        == DecideWith(cmd, token, snapshot.question, bundle, attemptId, routed)
  {
  }

  lemma UnusableAnswerIsReleased(cmd: Command, token: nat, snapshot: Snapshot, uuid: IdentityParts -> string,
                                 attemptId: string, routed: Routed)
    requires ValidSnapshot(snapshot) && BuildReplacementBundle(snapshot, cmd.policy, uuid, attemptId).Ok?
    requires routed.Judged? && ConceptsApart(snapshot.question.rubrics)
    requires
      || !ExpectedProvenance(cmd.policy, routed.provenance)
      || !WellJudged(snapshot.question.rubrics, routed.judgments)
    ensures Decide(cmd, token, snapshot, uuid, attemptId, routed)
      == ReleaseAndThrow(if ExpectedProvenance(cmd.policy, routed.provenance) then InvalidResult
                         else InvalidConfiguration)
  {
    JudgmentsNormalizeExactly(snapshot.question, routed.judgments, cmd.policy);
  }

  /** A worker refuses an unusable snapshot and one whose candidates share a concept, still holding the claim;
      of any other it decides by the model's answer alone. */
  lemma DecidedExactlyAsJudged(cmd: Command, token: nat, snapshot: Snapshot, uuid: IdentityParts -> string,
                               attemptId: string, routed: Routed)
    ensures var d := Decide(cmd, token, snapshot, uuid, attemptId, routed);
      if !Usable(snapshot) then d == ThrowStillHolding(InvalidInput)
      else if !CandidatesApart(snapshot.fallbackCandidates) then d == ThrowStillHolding(FallbackUnavailable)
      else DecidedAbout(d, cmd, token, snapshot, uuid, attemptId, routed)
  {
    ValidExactlyWhenUsable(snapshot);
    if Usable(snapshot) {
      BundleExistsExactly(snapshot, cmd.policy, uuid, attemptId);
      if CandidatesApart(snapshot.fallbackCandidates) {
        BundleStandsIn(snapshot, cmd.policy, uuid, attemptId);
        if routed.Judged? {
          ProvenanceByItems(cmd.policy, routed.provenance);
          if && ExpectedProvenance(cmd.policy, routed.provenance)
             && WellJudged(snapshot.question.rubrics, routed.judgments)
          {
            JudgmentsAreDecided(cmd, token, snapshot, uuid, attemptId, routed);
          } else {
            UnusableAnswerIsReleased(cmd, token, snapshot, uuid, attemptId, routed);
          }
        }
      }
    }
  }
}
