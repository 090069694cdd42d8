/** Two runs of the repository that show its failures are reachable: a refused claim that leaks a pick,
    and a replacement result that blocks a claimed answer. */
module AssessmentWitnesses {
  import opened Wrappers
  import opened StableSort
  import opened AssessmentContracts
  import opened AssessmentRepository
  import opened AssessmentProtocol
  import opened AssessmentStoredViews

  const POLICY := Policy("v1", 0, map[])
  const LEARNER := Authorization("learner", "scope")

  function RubricOf(id: string): Rubric {
    Rubric(id, id, "1", ["criterion"], [], ["span"])
  }

  function QuestionOf(id: string, rubrics: seq<Rubric>): ShortAnswerQuestion {
    ShortAnswerQuestion(id, "course", id, seq(|rubrics|, i requires 0 <= i < |rubrics| => rubrics[i].conceptId),
      rubrics, ["span"])
  }

  /** The one candidate that answers the rubric with this identifier. */
  function CandidateOf(rubricId: string, hash: string): KeyedQuestion {
    KeyedQuestion(hash, "course", [rubricId], rubricId, "1", hash, ["yes", "no"], "yes", ["span"])
  }

  function RequestOf(key: string, questionId: string, digest: string): ClaimRequest {
    ClaimRequest(key, 1_000, POLICY, questionId, digest, "session")
  }

  // ----- Picking among candidates ---------------------------------------------------------

  lemma OnlySuitingIsFirst(cs: seq<KeyedQuestion>, rubric: Rubric, question: ShortAnswerQuestion,
      presented: set<string>, c: KeyedQuestion)
    requires c in cs && Suits(c, rubric, question, presented)
    requires forall d :: d in cs && Suits(d, rubric, question, presented) ==> d == c
    ensures FirstSuiting(Sort(ById, cs), rubric, question, presented) == Some(c)
  {
    ByIdIsTotalPreorder();
    SortIsSortedPermutation(ById, cs);
    MembershipFollowsMultiset(Sort(ById, cs), cs);
  }

  lemma NoneSuiting(cs: seq<KeyedQuestion>, rubric: Rubric, question: ShortAnswerQuestion, presented: set<string>)
    requires forall d :: d in cs ==> !Suits(d, rubric, question, presented)
    ensures FirstSuiting(Sort(ById, cs), rubric, question, presented).None?
  {
    ByIdIsTotalPreorder();
    SortIsSortedPermutation(ById, cs);
    MembershipFollowsMultiset(Sort(ById, cs), cs);
  }

  lemma PickOnly(cs: seq<KeyedQuestion>, rubric: Rubric, question: ShortAnswerQuestion, presented: set<string>,
      c: KeyedQuestion)
    requires c in cs && Suits(c, rubric, question, presented)
    requires forall d :: d in cs && Suits(d, rubric, question, presented) ==> d == c
    ensures Pick([rubric], question, cs, presented) == (presented + {c.normalizedPromptHash}, Some([c]))
  {
    OnlySuitingIsFirst(cs, rubric, question, presented, c);
    assert [rubric][1..] == [];
    assert [c] + [] == [c];
  }

  lemma PickFirstThenFail(cs: seq<KeyedQuestion>, r1: Rubric, r2: Rubric, question: ShortAnswerQuestion,
      presented: set<string>, c: KeyedQuestion)
    requires c in cs && Suits(c, r1, question, presented)
    requires forall d :: d in cs && Suits(d, r1, question, presented) ==> d == c
    requires forall d :: d in cs ==> !Suits(d, r2, question, presented + {c.normalizedPromptHash})
    ensures Pick([r1, r2], question, cs, presented) == (presented + {c.normalizedPromptHash}, None)
  {
    OnlySuitingIsFirst(cs, r1, question, presented, c);
    assert [r1, r2][1..] == [r2];
    NoneSuiting(cs, r2, question, presented + {c.normalizedPromptHash});
  }

  // ----- One claim ------------------------------------------------------------------------

  function Opened(s: Repo, req: ClaimRequest, question: ShortAnswerQuestion, c: KeyedQuestion): Repo {
    s.(policyBindings := s.policyBindings[POLICY.gradingPolicyVersion := POLICY],
       presented := s.presented["session" := PresentedIn(s, "session")
         + {c.normalizedPromptHash, question.normalizedPromptHash}],
       operations := s.operations[req.idempotencyKey := Operation(
         Some(s.claimSequence + 1), 1_000, false, req.requestDigest, [c.normalizedPromptHash], "session",
         Snapshot(question, [c]))],
       claimSequence := s.claimSequence + 1)
  }

  /** A session of one learner that offers these questions and candidates. */
  ghost predicate Offers(s: Repo, question: ShortAnswerQuestion, cs: seq<KeyedQuestion>) {
    && "session" in s.sessions && s.sessions["session"].actorId == LEARNER.actorId
    && s.sessions["session"].ownerScopeId == LEARNER.ownerScopeId
    && question.id in s.sessions["session"].questions && s.sessions["session"].questions[question.id] == question
    && s.sessions["session"].fallbackCandidates == cs
    && (POLICY.gradingPolicyVersion in s.policyBindings ==> s.policyBindings[POLICY.gradingPolicyVersion] == POLICY)
  }

  lemma ClaimOpens(s: Repo, req: ClaimRequest, question: ShortAnswerQuestion, rubric: Rubric, cs: seq<KeyedQuestion>,
      c: KeyedQuestion)
    requires Offers(s, question, cs) && req == RequestOf(req.idempotencyKey, question.id, req.requestDigest)
    requires question.rubrics == [rubric] && req.idempotencyKey !in s.operations
    requires question.normalizedPromptHash !in PresentedIn(s, "session")
    requires c in cs && Suits(c, rubric, question, PresentedIn(s, "session"))
    requires forall d :: d in cs && Suits(d, rubric, question, PresentedIn(s, "session")) ==> d == c
    ensures Apply(s, ClaimStep(LEARNER, req, 0)).0 == Opened(s, req, question, c)
  {
    PickOnly(cs, rubric, question, PresentedIn(s, "session"), c);
    assert PromptHashes([c]) == [c.normalizedPromptHash];
    assert PresentedIn(s, "session") + {c.normalizedPromptHash} + {question.normalizedPromptHash}
      == PresentedIn(s, "session") + {c.normalizedPromptHash, question.normalizedPromptHash};
  }

  // ----- The session of both runs ---------------------------------------------------------

  const FIRST := CandidateOf("r1", "f1")
  const SECOND := CandidateOf("r2", "f2")
  const ONE := QuestionOf("q1", [RubricOf("r1")])
  const TWO := QuestionOf("q2", [RubricOf("r2")])
  const THREE := QuestionOf("q3", [RubricOf("r2"), RubricOf("r3")])
  const SESSION := Session("learner", "scope", map["q1" := ONE, "q2" := TWO, "q3" := THREE], [FIRST, SECOND])

  function Seeded(): Repo {
    EMPTY.(sessions := map["session" := SESSION])
  }

  function FirstClaimed(): Repo {
    Opened(Seeded(), RequestOf("a", "q1", "da"), ONE, FIRST)
  }

  lemma FirstSteps()
    ensures var steps := [Seed("session", SESSION), ClaimStep(LEARNER, RequestOf("a", "q1", "da"), 0)];
      Execute(steps) == FirstClaimed()
  {
    var seed, claim := Seed("session", SESSION), ClaimStep(LEARNER, RequestOf("a", "q1", "da"), 0);
    ExecuteOneMore([], seed);
    assert [] + [seed] == [seed];
    ExecuteOneMore([seed], claim);
    assert [seed] + [claim] == [seed, claim];
    ClaimOpens(Seeded(), RequestOf("a", "q1", "da"), ONE, RubricOf("r1"), [FIRST, SECOND], FIRST);
  }

  // ----- A refused claim that leaks a pick ------------------------------------------------

  lemma SecondClaimFails()
    ensures var (t, r) := Claim(FirstClaimed(), LEARNER, RequestOf("b", "q3", "db"), 0);
      && r == Err(FallbackUnavailable) && "f2" in PresentedIn(t, "session") && t.operations == FirstClaimed().operations
  {
    PickFirstThenFail([FIRST, SECOND], RubricOf("r2"), RubricOf("r3"), THREE, PresentedIn(FirstClaimed(), "session"),
      SECOND);
  }

  /** A reachable state in which a prompt is marked as presented although no operation of the session
      holds it and nobody was shown it: the second claim was refused after its first pick. */
  lemma ALeakedPickIsReachable() returns (steps: seq<Step>)
    ensures var s := Execute(steps);
      && "f2" in PresentedIn(s, "session")
      && forall k :: k in s.operations ==> "f2" !in Prompts(s.operations[k], false)
    ensures |steps| == 3 && steps[2].ClaimStep?
    ensures Claim(Execute(steps[..2]), steps[2].auth, steps[2].req, steps[2].now).1 == Err(FallbackUnavailable)
  {
    var seed, claim := Seed("session", SESSION), ClaimStep(LEARNER, RequestOf("a", "q1", "da"), 0);
    var refused := ClaimStep(LEARNER, RequestOf("b", "q3", "db"), 0);
    FirstSteps();
    SecondClaimFails();
    ExecuteOneMore([seed, claim], refused);
    steps := [seed, claim, refused];
    assert [seed, claim] + [refused] == steps && steps[..2] == [seed, claim];
  }

  // ----- A replacement result that blocks a claimed answer --------------------------------

  const BUNDLE := Bundle("bundle", [BundleItem("r1", "item", FIRST)], "attempt")

  function Abstention(): ShortAnswerFinalization {
    ShortAnswerFinalization("attempt", 1, [], Some(BUNDLE), "a", Abstained, "scope", POLICY, "da", "learner")
  }

  function Answer(): ReplacementFinalization {
    ReplacementFinalization("answer", "bundle",
      Evidence("r1", "r1", "1", true, Some(Good), None, None, Some(Correct), Some(100_000)), "b", "scope", POLICY, "dr",
      "learner")
  }

  function AbstentionStored(): Repo {
    FinalizeShortAnswer(FirstClaimed(), LEARNER, Abstention()).0
  }

  lemma AbstentionIsStored()
    ensures var s := AbstentionStored();
      && Offers(s, TWO, [FIRST, SECOND]) && "bundle" in s.bundles && s.bundles["bundle"] == BUNDLE
      && s.operations.Keys == {"a"} && s.finalizations.Keys == {"a"} && s.presented == FirstClaimed().presented
      && s.claimSequence == 1
  {
  }

  function SecondClaimed(): Repo {
    Opened(AbstentionStored(), RequestOf("b", "q2", "db"), TWO, SECOND)
  }

  lemma SecondClaimOpens()
    ensures Apply(AbstentionStored(), ClaimStep(LEARNER, RequestOf("b", "q2", "db"), 0)).0 == SecondClaimed()
  {
    AbstentionIsStored();
    ClaimOpens(AbstentionStored(), RequestOf("b", "q2", "db"), TWO, RubricOf("r2"), [FIRST, SECOND], SECOND);
  }

  lemma AnswerIsStored()
    ensures var s := FinalizeReplacement(SecondClaimed(), LEARNER, Answer()).0;
      && "b" in s.operations && !s.operations["b"].finalized && s.operations["b"].claimToken == Some(2)
      && s.operations["b"].requestDigest == "db" && TakenByAnother(s, "b")
  {
    AbstentionIsStored();
  }

  lemma FourSteps(seed: Step, claim: Step, abstain: Step, again: Step)
    requires seed == Seed("session", SESSION) && claim == ClaimStep(LEARNER, RequestOf("a", "q1", "da"), 0)
    requires abstain == FinalizeStep(LEARNER, Abstention())
      && again == ClaimStep(LEARNER, RequestOf("b", "q2", "db"), 0)
    ensures Execute([seed, claim, abstain, again]) == SecondClaimed()
  {
    FirstSteps();
    ExecuteOneMore([seed, claim], abstain);
    assert [seed, claim] + [abstain] == [seed, claim, abstain];
    SecondClaimOpens();
    ExecuteOneMore([seed, claim, abstain], again);
    assert [seed, claim, abstain] + [again] == [seed, claim, abstain, again];
  }

  lemma ExecuteLast(before: seq<Step>, last: Step, steps: seq<Step>)
    requires steps == before + [last]
    ensures Execute(steps) == Apply(Execute(before), last).0
  {
    ExecuteOneMore(before, last);
  }

  lemma DigestsOfTheRun(seed: Step, claim: Step, abstain: Step, again: Step, replace: Step)
    requires seed.Seed? && abstain.FinalizeStep? && claim.ClaimStep? && again.ClaimStep? && replace.ReplacementStep?
    requires claim.req.requestDigest != replace.replacement.requestDigest
      && again.req.requestDigest != replace.replacement.requestDigest
    ensures DigestsApart([seed, claim, abstain, again, replace])
  {
  }

  /** A reachable state in which a worker holds a claim that no continuation can finalize, although
      claims and replacement answers were requested with different digests throughout. */
  lemma ABlockedAnswerIsReachable() returns (steps: seq<Step>)
    ensures DigestsApart(steps)
    ensures var s := Execute(steps);
      && "b" in s.operations && !s.operations["b"].finalized && s.operations["b"].claimToken.Some?
      && forall more :: !(("b" in Execute(steps + more).operations) && Execute(steps + more).operations["b"].finalized)
  {
    var seed, claim := Seed("session", SESSION), ClaimStep(LEARNER, RequestOf("a", "q1", "da"), 0);
    var abstain, again := FinalizeStep(LEARNER, Abstention()), ClaimStep(LEARNER, RequestOf("b", "q2", "db"), 0);
    var replace := ReplacementStep(LEARNER, Answer());
    steps := [seed, claim, abstain, again, replace];
    FourSteps(seed, claim, abstain, again);
    ExecuteLast([seed, claim, abstain, again], replace, steps);
    DigestsOfTheRun(seed, claim, abstain, again, replace);
    AnswerIsStored();
    CanStillBeFinalizedExactly(steps, "b");
  }
}
