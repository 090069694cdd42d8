/** The exam readiness score: a rounded weighted average of rounded weighted averages, disclosed only
    when the evidence behind it is complete enough. */
module ExamReadiness {
  import opened Wrappers
  import opened FixedPoint

  const EVIDENCE_COVERAGE_MINIMUM: nat := 80_000

  datatype Calibration = Calibration(meanAbsoluteError: string, representative: bool, sampleSize: int)

  datatype Mapping = Mapping(
    active: bool, eligibleOutcomeCount: int, mappingWeight: string, mastery: Option<string>,
    algorithmVersion: Option<string>)

  datatype Objective = Objective(id: string, mappings: seq<Mapping>, weight: string)

  datatype Profile = Profile(
    objectives: Option<seq<Objective>>, calibration: Option<Calibration>, algorithmVersion: string,
    mappingSetVersion: Option<string>)

  datatype CalibrationStatus = CalibrationUnavailable | Adequate | Inadequate

  datatype Reason =
    | BlueprintMissing
    | ReviewedMappingsUnavailable
    | ObjectiveMappingIncomplete
    | ObjectiveEvidenceMissing
    | EvidenceCoverageInsufficient

  datatype Disclosure =
    | Unavailable(calibration: CalibrationStatus, evidenceCoverage: string, reasons: seq<Reason>)
    | Eligible(calibration: CalibrationStatus, evidenceCoverage: string, experimental: bool, score: string)

  datatype Malformed = ObjectiveWeight | MappingWeight | Mastery | MeanAbsoluteError

  // ----- Weights and masteries ------------------------------------------------------------

  function Value(text: string): nat {
    if IsFixed(text) then ParseFixed(text).value else 0
  }

  function Weight(m: Mapping): nat {
    Value(m.mappingWeight)
  }

  function MasteryOf(m: Mapping): nat {
    if m.mastery.Some? then Value(m.mastery.value) else 0
  }

  predicate IsEligible(m: Mapping, version: string) {
    m.eligibleOutcomeCount >= 2 && m.mastery.Some? && m.algorithmVersion == Some(version)
  }

  function ActiveOf(mappings: seq<Mapping>): seq<Mapping> {
    if mappings == [] then []
    else (if mappings[0].active then [mappings[0]] else []) + ActiveOf(mappings[1..])
  }

  function EligibleOf(active: seq<Mapping>, version: string): seq<Mapping> {
    if active == [] then []
    else (if IsEligible(active[0], version) then [active[0]] else []) + EligibleOf(active[1..], version)
  }

  function Evidence(o: Objective, version: string): seq<Mapping> {
    EligibleOf(ActiveOf(o.mappings), version)
  }

  function TotalWeight(mappings: seq<Mapping>): nat {
    if mappings == [] then 0 else Weight(mappings[0]) + TotalWeight(mappings[1..])
  }

  function WeightedMastery(mappings: seq<Mapping>): nat {
    if mappings == [] then 0
    else Weight(mappings[0]) * MasteryOf(mappings[0]) + WeightedMastery(mappings[1..])
  }

  // ----- The evaluation -------------------------------------------------------------------

  predicate Mapped(o: Objective) {
    ActiveOf(o.mappings) != [] && TotalWeight(ActiveOf(o.mappings)) == FIXED_SCALE
  }

  predicate Evidenced(o: Objective, version: string) {
    Evidence(o, version) != [] && TotalWeight(Evidence(o, version)) > 0
  }

  function CoverageNumerator(objectives: seq<Objective>, version: string): nat {
    if objectives == [] then 0
    else Value(objectives[0].weight) * TotalWeight(Evidence(objectives[0], version))
         + CoverageNumerator(objectives[1..], version)
  }

  function ObjectiveScore(o: Objective, version: string): nat
    requires Evidenced(o, version)
  {
    RoundFraction(WeightedMastery(Evidence(o, version)), TotalWeight(Evidence(o, version)))
  }

  predicate AllMapped(objectives: seq<Objective>) {
    forall i :: 0 <= i < |objectives| ==> Mapped(objectives[i])
  }

  predicate AllEvidenced(objectives: seq<Objective>, version: string) {
    forall i :: 0 <= i < |objectives| ==> Evidenced(objectives[i], version)
  }

  function ReadinessNumerator(objectives: seq<Objective>, version: string): nat
    requires AllEvidenced(objectives, version)
  {
    if objectives == [] then 0
    else Value(objectives[0].weight) * ObjectiveScore(objectives[0], version)
         + ReadinessNumerator(objectives[1..], version)
  }

  function Score(objectives: seq<Objective>, version: string): nat
    requires AllEvidenced(objectives, version)
  {
    RoundFraction(ReadinessNumerator(objectives, version), FIXED_SCALE)
  }

  function CalibrationFault(c: Option<Calibration>): bool {
    c.Some? && c.value.representative && c.value.sampleSize >= 100 && !IsFixed(c.value.meanAbsoluteError)
  }

  function CalibrationOf(c: Option<Calibration>): CalibrationStatus {
    if c.None? then CalibrationUnavailable
    else if c.value.representative && c.value.sampleSize >= 100 && Value(c.value.meanAbsoluteError) <= 10_000
    then Adequate
    else Inadequate
  }

  predicate WeightsRead(mappings: seq<Mapping>) {
    forall i :: 0 <= i < |mappings| ==> IsFixed(mappings[i].mappingWeight)
  }

  predicate MasteriesRead(mappings: seq<Mapping>) {
    forall i :: 0 <= i < |mappings| ==> mappings[i].mastery.Some? ==> IsFixed(mappings[i].mastery.value)
  }

  predicate AllMasteriesRead(objectives: seq<Objective>, version: string) {
    forall i :: 0 <= i < |objectives| ==> MasteriesRead(Evidence(objectives[i], version))
  }

  function WeightFault(objectives: seq<Objective>): Option<Malformed> {
    if objectives == [] then None
    else if !IsFixed(objectives[0].weight) then Some(ObjectiveWeight)
    else if !WeightsRead(ActiveOf(objectives[0].mappings)) then Some(MappingWeight)
    else WeightFault(objectives[1..])
  }

  function Reasons(objectives: seq<Objective>, version: string): seq<Reason> {
    (if objectives == [] || !AllMapped(objectives) then [ObjectiveMappingIncomplete] else [])
    + (if objectives == [] || !AllEvidenced(objectives, version) then [ObjectiveEvidenceMissing] else [])
    + (if CoverageNumerator(objectives, version) < EVIDENCE_COVERAGE_MINIMUM * FIXED_SCALE
       then [EvidenceCoverageInsufficient] else [])
  }

  function Coverage(objectives: seq<Objective>, version: string): string {
    FormatFixed(RoundFraction(CoverageNumerator(objectives, version), FIXED_SCALE))
  }

  function Evaluate(input: Profile): Result<Disclosure, Malformed> {
    var status, version := CalibrationOf(input.calibration), input.algorithmVersion;
    if CalibrationFault(input.calibration) then Err(MeanAbsoluteError)
    else if input.objectives.None? then Ok(Unavailable(status, "0.00000", [BlueprintMissing]))
    else if input.mappingSetVersion.None? then Ok(Unavailable(status, "0.00000", [ReviewedMappingsUnavailable]))
    else
      var objectives := input.objectives.value;
      if WeightFault(objectives).Some? then Err(WeightFault(objectives).value)
      else if Reasons(objectives, version) != [] then
        Ok(Unavailable(status, Coverage(objectives, version), Reasons(objectives, version)))
      else if !AllMasteriesRead(objectives, version) then Err(Mastery)
      else
        Ok(Eligible(status, Coverage(objectives, version), status != Adequate, FormatFixed(Score(objectives, version))))
  }

  // ----- The score lies between the masteries behind it -----------------------------------

  function ObjectiveWeights(objectives: seq<Objective>): nat {
    if objectives == [] then 0 else Value(objectives[0].weight) + ObjectiveWeights(objectives[1..])
  }

  /** Every mastery that counts lies between the two bounds. */
  ghost predicate MasteriesWithin(objectives: seq<Objective>, version: string, least: nat, greatest: nat) {
    forall i, m :: 0 <= i < |objectives| && m in Evidence(objectives[i], version) ==> least <= MasteryOf(m) <= greatest
  }

  lemma {:induction false} WeightedMasteryWithin(mappings: seq<Mapping>, least: nat, greatest: nat)
    requires forall m :: m in mappings ==> least <= MasteryOf(m) <= greatest
    ensures TotalWeight(mappings) * least <= WeightedMastery(mappings) <= TotalWeight(mappings) * greatest
  {
    if mappings != [] {
      WeightedMasteryWithin(mappings[1..], least, greatest);
      AddingStaysWithin(Weight(mappings[0]), MasteryOf(mappings[0]),
                        TotalWeight(mappings[1..]), WeightedMastery(mappings[1..]), least, greatest);
    }
  }

  lemma TimesWithin(w: nat, least: nat, x: nat, greatest: nat)
    requires least <= x <= greatest
    ensures w * least <= w * x <= w * greatest
  {
  }

  lemma AddingStaysWithin(w: nat, x: nat, restWeight: nat, rest: nat, least: nat, greatest: nat)
    requires least <= x <= greatest && restWeight * least <= rest <= restWeight * greatest
    ensures (w + restWeight) * least <= w * x + rest <= (w + restWeight) * greatest
  {
    TimesWithin(w, least, x, greatest);
    assert (w + restWeight) * least == w * least + restWeight * least;
    assert (w + restWeight) * greatest == w * greatest + restWeight * greatest;
  }

  lemma ObjectiveScoreWithin(o: Objective, version: string, least: nat, greatest: nat)
    requires Evidenced(o, version)
    requires forall m :: m in Evidence(o, version) ==> least <= MasteryOf(m) <= greatest
    ensures least <= ObjectiveScore(o, version) <= greatest
  {
    var weight := TotalWeight(Evidence(o, version));
    WeightedMasteryWithin(Evidence(o, version), least, greatest);
    FractionWithin(WeightedMastery(Evidence(o, version)), weight, least, greatest);
  }

  lemma FractionWithin(numerator: nat, denominator: nat, least: nat, greatest: nat)
    requires denominator > 0 && denominator * least <= numerator <= denominator * greatest
    ensures least <= RoundFraction(numerator, denominator) <= greatest
  {
    assert denominator * least == least * denominator && denominator * greatest == greatest * denominator;
    RoundingIsMonotone(least * denominator, numerator, denominator);
    RoundingIsMonotone(numerator, greatest * denominator, denominator);
    RoundingIsExactOnMultiples(least, denominator);
    RoundingIsExactOnMultiples(greatest, denominator);
  }

  lemma {:induction false} NumeratorWithin(objectives: seq<Objective>, version: string, least: nat, greatest: nat)
    requires AllEvidenced(objectives, version) && MasteriesWithin(objectives, version, least, greatest)
    ensures ObjectiveWeights(objectives) * least <= ReadinessNumerator(objectives, version)
      <= ObjectiveWeights(objectives) * greatest
  {
    if objectives != [] {
      assert MasteriesWithin(objectives[1..], version, least, greatest);
      NumeratorWithin(objectives[1..], version, least, greatest);
      ObjectiveScoreWithin(objectives[0], version, least, greatest);
      AddingStaysWithin(Value(objectives[0].weight), ObjectiveScore(objectives[0], version),
                        ObjectiveWeights(objectives[1..]), ReadinessNumerator(objectives[1..], version), least,
                        greatest);
    }
  }

  /** Two roundings never push the score outside the range of the masteries it averages. */
  lemma ScoreLiesBetweenMasteries(objectives: seq<Objective>, version: string, least: nat, greatest: nat)
    requires AllEvidenced(objectives, version) && MasteriesWithin(objectives, version, least, greatest)
    requires ObjectiveWeights(objectives) == FIXED_SCALE
    ensures least <= Score(objectives, version) <= greatest
  {
    NumeratorWithin(objectives, version, least, greatest);
    FractionWithin(ReadinessNumerator(objectives, version), FIXED_SCALE, least, greatest);
  }

  /** The evaluation itself does not check that the objective weights sum to 1.00000 (the tables they are
      stored in do), and the range property needs exactly that: with every mastery at 1.00000 the score is
      the sum of the weights. */
  lemma ScoreOfFullMasteryIsTheWeightSum(objectives: seq<Objective>, version: string)
    requires AllEvidenced(objectives, version) && MasteriesWithin(objectives, version, FIXED_SCALE, FIXED_SCALE)
    ensures Score(objectives, version) == ObjectiveWeights(objectives)
    ensures Score(objectives, version) == FIXED_SCALE <==> ObjectiveWeights(objectives) == FIXED_SCALE
  {
    NumeratorWithin(objectives, version, FIXED_SCALE, FIXED_SCALE);
    RoundingIsExactOnMultiples(ObjectiveWeights(objectives), FIXED_SCALE);
  }

  // ----- The score never falls when a mastery rises ---------------------------------------

  ghost predicate Raised(before: seq<Mapping>, after: seq<Mapping>) {
    |before| == |after| && forall i :: 0 <= i < |before| ==>
      Weight(before[i]) == Weight(after[i]) && MasteryOf(before[i]) <= MasteryOf(after[i])
  }

  /** The same blueprint with the same evidence, no mastery lower than before. */
  ghost predicate EvidenceRaised(before: seq<Objective>, after: seq<Objective>, version: string) {
    |before| == |after| && forall i :: 0 <= i < |before| ==>
      Value(before[i].weight) == Value(after[i].weight)
        && Raised(Evidence(before[i], version), Evidence(after[i], version))
  }

  lemma {:induction false} RaisedWeighsMore(before: seq<Mapping>, after: seq<Mapping>)
    requires Raised(before, after)
    ensures TotalWeight(before) == TotalWeight(after) && WeightedMastery(before) <= WeightedMastery(after)
  {
    if before != [] {
      RaisedWeighsMore(before[1..], after[1..]);
      TimesWithin(Weight(before[0]), 0, MasteryOf(before[0]), MasteryOf(after[0]));
    }
  }

  lemma {:induction false} NumeratorRises(before: seq<Objective>, after: seq<Objective>, version: string)
    requires EvidenceRaised(before, after, version) && AllEvidenced(before, version)
    ensures AllEvidenced(after, version)
    ensures ReadinessNumerator(before, version) <= ReadinessNumerator(after, version)
  {
    if before != [] {
      assert EvidenceRaised(before[1..], after[1..], version);
      NumeratorRises(before[1..], after[1..], version);
      RaisedWeighsMore(Evidence(before[0], version), Evidence(after[0], version));
      RoundingIsMonotone(WeightedMastery(Evidence(before[0], version)), WeightedMastery(Evidence(after[0], version)),
                         TotalWeight(Evidence(before[0], version)));
      TimesWithin(Value(before[0].weight), 0, ObjectiveScore(before[0], version), ObjectiveScore(after[0], version));
      assert forall i :: 0 < i < |after| ==> after[i] == after[1..][i - 1];
    }
  }

  lemma RaisingMasteriesNeverLowersTheScore(before: seq<Objective>, after: seq<Objective>, version: string)
    requires EvidenceRaised(before, after, version) && AllEvidenced(before, version)
    ensures AllEvidenced(after, version) && Score(before, version) <= Score(after, version)
  {
    NumeratorRises(before, after, version);
    RoundingIsMonotone(ReadinessNumerator(before, version), ReadinessNumerator(after, version), FIXED_SCALE);
  }

  // ----- Distance to the exact average ----------------------------------------------------

  function ExactObjectiveScore(o: Objective, version: string): real
    requires Evidenced(o, version)
  {
    (WeightedMastery(Evidence(o, version)) as real) / (TotalWeight(Evidence(o, version)) as real)
  }

  function ExactNumerator(objectives: seq<Objective>, version: string): real
    requires AllEvidenced(objectives, version)
  {
    if objectives == [] then 0.0
    else (Value(objectives[0].weight) as real) * ExactObjectiveScore(objectives[0], version)
         + ExactNumerator(objectives[1..], version)
  }

  /** The weighted average of weighted averages, in units of 0.00001, with no rounding at all. */
  function ExactScore(objectives: seq<Objective>, version: string): real
    requires AllEvidenced(objectives, version)
  {
    ExactNumerator(objectives, version) / (FIXED_SCALE as real)
  }

  lemma RealFactorOrder(x: real, y: real, d: real)
    requires d > 0.0
    ensures x * d <= y * d <==> x <= y
  {
  }

  lemma HalfAway(q: real, n: real, d: real)
    requires d > 0.0 && 2.0 * (q * d) <= 2.0 * n + d && 2.0 * n <= 2.0 * (q * d) + d
    ensures n / d - 0.5 <= q <= n / d + 0.5
  {
    var exact := n / d;
    assert exact * d == n;
    assert (2.0 * exact + 1.0) * d == 2.0 * (exact * d) + d;
    assert (2.0 * q + 1.0) * d == 2.0 * (q * d) + d;
    assert (2.0 * q) * d == 2.0 * (q * d) && (2.0 * exact) * d == 2.0 * (exact * d);
    RealFactorOrder(2.0 * q, 2.0 * exact + 1.0, d);
    RealFactorOrder(2.0 * exact, 2.0 * q + 1.0, d);
  }

  lemma ProductAsReal(a: nat, b: nat)
    ensures (a * b) as real == (a as real) * (b as real)
  {
  }

  lemma RoundsWithinHalf(numerator: nat, denominator: nat)
    requires denominator > 0
    ensures var exact := (numerator as real) / (denominator as real);
      exact - 0.5 <= RoundFraction(numerator, denominator) as real <= exact + 0.5
  {
    RoundsToNearest(numerator, denominator);
    ProductAsReal(RoundFraction(numerator, denominator), denominator);
    HalfAway(RoundFraction(numerator, denominator) as real, numerator as real, denominator as real);
  }

  /** `value` is at most half of `slack` away from `exact`. */
  ghost predicate Near(value: nat, exact: real, slack: nat) {
    exact - (slack as real) / 2.0 <= value as real <= exact + (slack as real) / 2.0
  }

  lemma NearTogether(a: nat, exactA: real, slackA: nat, b: nat, exactB: real, slackB: nat)
    requires Near(a, exactA, slackA) && Near(b, exactB, slackB)
    ensures Near(a + b, exactA + exactB, slackA + slackB)
  {
  }

  // Products by a weight, taken as repeated sums.
  function Repeated(w: nat, x: nat): nat {
    if w == 0 then 0 else Repeated(w - 1, x) + x
  }

  function RepeatedReal(w: nat, x: real): real {
    if w == 0 then 0.0 else RepeatedReal(w - 1, x) + x
  }

  lemma {:induction false} RepeatedIsProduct(w: nat, x: nat)
    ensures Repeated(w, x) == w * x
  {
    if w > 0 {
      RepeatedIsProduct(w - 1, x);
      assert w * x == (w - 1) * x + x;
    }
  }

  lemma {:induction false} RepeatedRealIsProduct(w: nat, x: real)
    ensures RepeatedReal(w, x) == (w as real) * x
  {
    if w > 0 {
      RepeatedRealIsProduct(w - 1, x);
      assert (w as real) * x == ((w - 1) as real) * x + x;
    }
  }

  lemma {:induction false} RepeatedIsNear(w: nat, score: nat, exact: real)
    requires Near(score, exact, 1)
    ensures Near(Repeated(w, score), RepeatedReal(w, exact), w)
  {
    if w > 0 {
      RepeatedIsNear(w - 1, score, exact);
    }
  }

  /** A weight stretches a half-unit distance to half its own size. */
  lemma ScaledIsNear(w: nat, score: nat, exact: real)
    requires Near(score, exact, 1)
    ensures Near(w * score, (w as real) * exact, w)
  {
    RepeatedIsNear(w, score, exact);
    RepeatedIsProduct(w, score);
    RepeatedRealIsProduct(w, exact);
  }

  /** One objective's share of the two numerators, and its weight. */
  datatype Term = Term(value: nat, exact: real, weight: nat)

  function TermOf(w: nat, score: nat, exact: real): Term {
    Term(w * score, (w as real) * exact, w)
  }

  ghost predicate NearTerm(t: Term) {
    Near(t.value, t.exact, t.weight)
  }

  lemma TermIsNear(w: nat, score: nat, exact: real)
    requires Near(score, exact, 1)
    ensures NearTerm(TermOf(w, score, exact))
  {
    ScaledIsNear(w, score, exact);
  }

  function Terms(objectives: seq<Objective>, version: string): seq<Term>
    requires AllEvidenced(objectives, version)
  {
    if objectives == [] then []
    else [TermOf(Value(objectives[0].weight), ObjectiveScore(objectives[0], version),
                 ExactObjectiveScore(objectives[0], version))]
         + Terms(objectives[1..], version)
  }

  function SumOf(terms: seq<Term>): Term {
    if terms == [] then Term(0, 0.0, 0) else
    var rest := SumOf(terms[1..]);
    Term(terms[0].value + rest.value, terms[0].exact + rest.exact, terms[0].weight + rest.weight)
  }

  lemma {:induction false} SumIsNear(terms: seq<Term>)
    requires forall t :: t in terms ==> NearTerm(t)
    ensures NearTerm(SumOf(terms))
  {
    if terms != [] {
      var t, rest := terms[0], SumOf(terms[1..]);
      SumIsNear(terms[1..]);
      assert NearTerm(t) && NearTerm(rest);
      NearTogether(t.value, t.exact, t.weight, rest.value, rest.exact, rest.weight);
    }
  }

  lemma {:induction false} TermsAddUp(objectives: seq<Objective>, version: string)
    requires AllEvidenced(objectives, version)
    ensures SumOf(Terms(objectives, version))
      == Term(ReadinessNumerator(objectives, version), ExactNumerator(objectives, version),
        ObjectiveWeights(objectives))
  {
    if objectives != [] {
      TermsAddUp(objectives[1..], version);
      assert Terms(objectives, version)[1..] == Terms(objectives[1..], version);
    }
  }

  lemma ObjectiveIsNear(o: Objective, version: string)
    requires Evidenced(o, version)
    ensures Near(ObjectiveScore(o, version), ExactObjectiveScore(o, version), 1)
  {
    RoundsWithinHalf(WeightedMastery(Evidence(o, version)), TotalWeight(Evidence(o, version)));
  }

  lemma {:induction false} TermsAreNear(objectives: seq<Objective>, version: string)
    requires AllEvidenced(objectives, version)
    ensures forall t :: t in Terms(objectives, version) ==> NearTerm(t)
  {
    if objectives != [] {
      var w, score, exact := Value(objectives[0].weight), ObjectiveScore(objectives[0], version),
        ExactObjectiveScore(objectives[0], version);
      TermsAreNear(objectives[1..], version);
      ObjectiveIsNear(objectives[0], version);
      TermIsNear(w, score, exact);
    }
  }

  /** With weights that sum to 1.00000 both roundings together cost at most one unit of 0.00001. */
  lemma ScoreIsWithinOneUnitOfTheExactAverage(objectives: seq<Objective>, version: string)
    requires AllEvidenced(objectives, version) && ObjectiveWeights(objectives) == FIXED_SCALE
    ensures ExactScore(objectives, version) - 1.0 <= Score(objectives, version) as real
      <= ExactScore(objectives, version) + 1.0
  {
    TermsAddUp(objectives, version);
    TermsAreNear(objectives, version);
    SumIsNear(Terms(objectives, version));
    RoundsWithinHalf(ReadinessNumerator(objectives, version), FIXED_SCALE);
    var scale, exact, numerator := FIXED_SCALE as real, ExactNumerator(objectives, version),
      ReadinessNumerator(objectives, version) as real;
    assert exact / scale - 0.5 <= numerator / scale <= exact / scale + 0.5;
  }

  // ----- What a disclosure means ----------------------------------------------------------

  ghost predicate ProfileReads(input: Profile) {
    && !CalibrationFault(input.calibration)
    && (input.objectives.Some? && input.mappingSetVersion.Some? ==> WeightFault(input.objectives.value).None?)
  }

  /** Every objective fully mapped and evidenced, and at least 80 percent of the blueprint covered. */
  ghost predicate EvidenceSuffices(objectives: seq<Objective>, version: string) {
    && objectives != [] && AllMapped(objectives) && AllEvidenced(objectives, version)
    && CoverageNumerator(objectives, version) >= EVIDENCE_COVERAGE_MINIMUM * FIXED_SCALE
  }

  lemma ScoreIsDisclosedExactlyOnSufficientEvidence(input: Profile)
    requires ProfileReads(input)
    ensures Evaluate(input).Err? || (Evaluate(input).value.Eligible? <==>
      input.objectives.Some? && input.mappingSetVersion.Some?
      && EvidenceSuffices(input.objectives.value, input.algorithmVersion))
    ensures Evaluate(input).Err? ==>
      && input.objectives.Some? && input.mappingSetVersion.Some?
      && EvidenceSuffices(input.objectives.value, input.algorithmVersion)
      && !AllMasteriesRead(input.objectives.value, input.algorithmVersion)
  {
    if input.objectives.Some? && input.mappingSetVersion.Some? {
      ReasonsAreEmptyExactlyWhenEvidenceSuffices(input.objectives.value, input.algorithmVersion);
    }
  }

  lemma ReasonsAreEmptyExactlyWhenEvidenceSuffices(objectives: seq<Objective>, version: string)
    ensures Reasons(objectives, version) == [] <==> EvidenceSuffices(objectives, version)
  {
  }

  /** The printed score of a well-weighted blueprint reads back as a number in the masteries' range,
      at most one unit from the exact average. */
  lemma DisclosedScoreIsFaithful(input: Profile, least: nat, greatest: nat)
    requires Evaluate(input).Ok? && Evaluate(input).value.Eligible?
    requires ObjectiveWeights(input.objectives.value) == FIXED_SCALE && greatest < 2 * FIXED_SCALE
    requires MasteriesWithin(input.objectives.value, input.algorithmVersion, least, greatest)
    ensures AllEvidenced(input.objectives.value, input.algorithmVersion)
    ensures var read := ParseFixed(Evaluate(input).value.score);
      && read.Some? && least <= read.value <= greatest
      && ExactScore(input.objectives.value, input.algorithmVersion) - 1.0 <= read.value as real
      && read.value as real <= ExactScore(input.objectives.value, input.algorithmVersion) + 1.0
  {
    var objectives, version := input.objectives.value, input.algorithmVersion;
    ReasonsAreEmptyExactlyWhenEvidenceSuffices(objectives, version);
    ScoreLiesBetweenMasteries(objectives, version, least, greatest);
    ScoreIsWithinOneUnitOfTheExactAverage(objectives, version);
    FormattedReadsBack(Score(objectives, version));
  }

  // ----- A refusal that reads as sufficient -----------------------------------------------

  /** The profile is refused for its coverage and yet shown a coverage of at least 0.80000. */
  predicate RefusedAsCovered(r: Result<Disclosure, Malformed>) {
    && r.Ok? && r.value.Unavailable? && EvidenceCoverageInsufficient in r.value.reasons
    && ParseFixed(r.value.evidenceCoverage).Some?
    && ParseFixed(r.value.evidenceCoverage).value >= EVIDENCE_COVERAGE_MINIMUM
  }

  /** Less than the minimum by at most half a unit of 0.00001. */
  predicate InLastHalfUnit(numerator: nat) {
    2 * EVIDENCE_COVERAGE_MINIMUM * FIXED_SCALE - FIXED_SCALE <= 2 * numerator
      < 2 * EVIDENCE_COVERAGE_MINIMUM * FIXED_SCALE
  }

  lemma RoundsUpToTheMinimum(numerator: nat)
    requires numerator < EVIDENCE_COVERAGE_MINIMUM * FIXED_SCALE
    ensures RoundFraction(numerator, FIXED_SCALE) <= EVIDENCE_COVERAGE_MINIMUM
    ensures RoundFraction(numerator, FIXED_SCALE) == EVIDENCE_COVERAGE_MINIMUM <==> InLastHalfUnit(numerator)
  {
    RoundsToNearest(numerator, FIXED_SCALE);
  }

  /** The gate compares the exact coverage and the disclosure prints the rounded one: a profile is refused
      for a coverage that reads as sufficient exactly if it can be read, gets as far as the gate, and its
      exact coverage lies in the last half unit below the minimum. */
  lemma RefusedCoverageReadsAsSufficientExactlyInTheLastHalfUnit(input: Profile)
    ensures RefusedAsCovered(Evaluate(input)) <==>
      && ProfileReads(input) && input.objectives.Some? && input.mappingSetVersion.Some?
      && InLastHalfUnit(CoverageNumerator(input.objectives.value, input.algorithmVersion))
  {
    if ProfileReads(input) && input.objectives.Some? && input.mappingSetVersion.Some? {
      var numerator := CoverageNumerator(input.objectives.value, input.algorithmVersion);
      if numerator < EVIDENCE_COVERAGE_MINIMUM * FIXED_SCALE {
        RoundsUpToTheMinimum(numerator);
        FormattedReadsBack(RoundFraction(numerator, FIXED_SCALE));
      }
    }
  }

  lemma BothActive(first: Mapping, second: Mapping)
    requires first.active && second.active
    ensures ActiveOf([first, second]) == [first, second]
    ensures TotalWeight([first, second]) == Weight(first) + Weight(second)
  {
    assert [first, second][1..] == [second] && [second][1..] == [];
    assert ActiveOf([second]) == [second];
    assert TotalWeight([second]) == Weight(second);
  }

  lemma FirstEligible(first: Mapping, second: Mapping, version: string)
    requires IsEligible(first, version) && !IsEligible(second, version)
    ensures EligibleOf([first, second], version) == [first] && TotalWeight([first]) == Weight(first)
  {
    assert [first, second][1..] == [second] && [second][1..] == [] && [first][1..] == [];
    assert EligibleOf([second], version) == [];
  }

  /** What two active mappings, only the first of which has evidence, make of their objective. */
  lemma MappedByTwo(o: Objective, first: Mapping, second: Mapping, version: string)
    requires o.mappings == [first, second] && first.active && second.active
    requires IsEligible(first, version) && !IsEligible(second, version)
    requires Weight(first) + Weight(second) == FIXED_SCALE && Weight(first) > 0
    requires IsFixed(first.mappingWeight) && IsFixed(second.mappingWeight)
    ensures Mapped(o) && Evidenced(o, version) && TotalWeight(Evidence(o, version)) == Weight(first)
    ensures WeightsRead(ActiveOf(o.mappings))
  {
    BothActive(first, second);
    FirstEligible(first, second, version);
  }

  function PrintedMapping(weight: nat, mastery: Option<string>, version: string): Mapping {
    Mapping(true, 2, FormatFixed(weight), mastery, Some(version))
  }

  lemma PrintedWeight(weight: nat, mastery: Option<string>, version: string)
    requires weight <= FIXED_SCALE
    ensures var m := PrintedMapping(weight, mastery, version);
      m.active && IsFixed(m.mappingWeight) && Weight(m) == weight && (IsEligible(m, version) <==> mastery.Some?)
  {
    FormattedReadsBack(weight);
  }

  /** An objective fully mapped by two mappings, the first of which has evidence. */
  function HalfEvidenced(id: string, evidenced: nat, version: string): Objective
    requires evidenced <= FIXED_SCALE
  {
    Objective(id, [ PrintedMapping(evidenced, Some("0.50000"), version),
                    PrintedMapping(FIXED_SCALE - evidenced, None, version) ],
              FormatFixed(50_000))
  }

  lemma HalfEvidencedIsMapped(id: string, evidenced: nat, version: string)
    requires 0 < evidenced <= FIXED_SCALE
    ensures var o := HalfEvidenced(id, evidenced, version);
      && Mapped(o) && Evidenced(o, version) && TotalWeight(Evidence(o, version)) == evidenced
      && Value(o.weight) == 50_000 && IsFixed(o.weight) && WeightsRead(ActiveOf(o.mappings))
  {
    FormattedReadsBack(50_000);
    PrintedWeight(evidenced, Some("0.50000"), version);
    PrintedWeight(FIXED_SCALE - evidenced, None, version);
    MappedByTwo(HalfEvidenced(id, evidenced, version), PrintedMapping(evidenced, Some("0.50000"), version),
                PrintedMapping(FIXED_SCALE - evidenced, None, version), version);
  }

  predicate WellEvidenced(o: Objective, version: string) {
    Mapped(o) && Evidenced(o, version) && IsFixed(o.weight) && WeightsRead(ActiveOf(o.mappings))
  }

  /** One objective's share of the coverage. */
  function Covered(o: Objective, version: string): nat {
    Value(o.weight) * TotalWeight(Evidence(o, version))
  }

  lemma CoverageOfTwo(one: Objective, two: Objective, version: string)
    ensures CoverageNumerator([one, two], version) == Covered(one, version) + Covered(two, version)
    ensures ObjectiveWeights([one, two]) == Value(one.weight) + Value(two.weight)
  {
    assert [one, two][1..] == [two] && [two][1..] == [];
    assert ObjectiveWeights([two]) == Value(two.weight);
    assert CoverageNumerator([], version) == 0;
    assert CoverageNumerator([two], version) == Covered(two, version) + CoverageNumerator([], version);
  }

  lemma WeightsOfTwo(one: Objective, two: Objective, version: string)
    requires WellEvidenced(one, version) && WellEvidenced(two, version)
    ensures WeightFault([one, two]).None?
  {
    assert [one, two][1..] == [two] && [two][1..] == [];
    assert WeightFault([two]).None?;
  }

  /** Two objectives fully mapped and evidenced can be refused for their coverage alone. */
  lemma RefusedForCoverageAlone(one: Objective, two: Objective, version: string)
    requires WellEvidenced(one, version) && WellEvidenced(two, version)
    requires InLastHalfUnit(Covered(one, version) + Covered(two, version))
    ensures var r := Evaluate(Profile(Some([one, two]), None, version, Some("mappings")));
      RefusedAsCovered(r) && r.value.reasons == [EvidenceCoverageInsufficient]
  {
    var input := Profile(Some([one, two]), None, version, Some("mappings"));
    CoverageOfTwo(one, two, version);
    WeightsOfTwo(one, two, version);
    RefusedCoverageReadsAsSufficientExactlyInTheLastHalfUnit(input);
    assert Reasons([one, two], version) == [EvidenceCoverageInsufficient];
  }

  lemma HalfEvidencedCovers(id: string, evidenced: nat, version: string)
    requires 0 < evidenced <= FIXED_SCALE
    ensures var o := HalfEvidenced(id, evidenced, version);
      WellEvidenced(o, version) && Covered(o, version) == 50_000 * evidenced && Value(o.weight) == 50_000
  {
    HalfEvidencedIsMapped(id, evidenced, version);
  }

  /** Two objectives of equal weight, evidenced to 0.80000 and 0.79999: coverage is the only reason for
      refusing the profile, and it is shown as 0.80000. */
  lemma ARefusedProfileShownAsCovered(version: string) returns (input: Profile)
    ensures RefusedAsCovered(Evaluate(input)) && Evaluate(input).value.reasons == [EvidenceCoverageInsufficient]
    ensures input.objectives.Some? && ObjectiveWeights(input.objectives.value) == FIXED_SCALE
  {
    var one, two := HalfEvidenced("one", 80_000, version), HalfEvidenced("two", 79_999, version);
    input := Profile(Some([one, two]), None, version, Some("mappings"));
    HalfEvidencedCovers("one", 80_000, version);
    HalfEvidencedCovers("two", 79_999, version);
    CoverageOfTwo(one, two, version);
    RefusedForCoverageAlone(one, two, version);
  }
}
