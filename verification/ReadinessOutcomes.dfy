/** Every answer of the readiness evaluation, told from the numbers that were written into the profile. */
module ReadinessOutcomes {
  import opened Wrappers
  import opened FixedPoint
  import opened ExamReadiness

  // ----- What a profile holds -------------------------------------------------------------

  /** A mapping counts if it is active, two outcomes at least stand behind its mastery, and the current
      algorithm computed that. */
  predicate Counts(m: Mapping, version: string) {
    m.active && m.eligibleOutcomeCount >= 2 && m.mastery.Some? && m.algorithmVersion == Some(version)
  }

  ghost function ActiveWeight(mappings: seq<Mapping>): int {
    if mappings == [] then 0
    else (if mappings[0].active then Worth(mappings[0].mappingWeight) else 0) + ActiveWeight(mappings[1..])
  }

  ghost function CountedWeight(mappings: seq<Mapping>, version: string): int {
    if mappings == [] then 0
    else (if Counts(mappings[0], version) then Worth(mappings[0].mappingWeight) else 0)
         + CountedWeight(mappings[1..], version)
  }

  ghost function CountedMastery(mappings: seq<Mapping>, version: string): int {
    if mappings == [] then 0
    else (if Counts(mappings[0], version)
          then Worth(mappings[0].mappingWeight) * Worth(mappings[0].mastery.value) else 0)
         + CountedMastery(mappings[1..], version)
  }

  /** How much of the blueprint is covered, of 10_000_000_000 units. */
  ghost function CoveredWeight(objectives: seq<Objective>, version: string): int {
    if objectives == [] then 0
    else Worth(objectives[0].weight) * CountedWeight(objectives[0].mappings, version)
         + CoveredWeight(objectives[1..], version)
  }

  /** The weighted sum of what each objective scored. */
  ghost function Weighted(objectives: seq<Objective>, scores: seq<nat>): int
    requires |objectives| == |scores|
  {
    if objectives == [] then 0
    else Worth(objectives[0].weight) * scores[0] + Weighted(objectives[1..], scores[1..])
  }

  /** `q` is the nearest whole number to the fraction, the upper one of two. */
  ghost predicate HalfUp(q: int, numerator: int, denominator: int) {
    2 * (q * denominator) <= 2 * numerator + denominator < 2 * (q * denominator) + 2 * denominator
  }

  // ----- The evaluation's own words for them ----------------------------------------------

  lemma ValueIsWorth(text: string)
    ensures Value(text) == Worth(text) && (IsFixed(text) <==> IsWritten(text))
  {
    ReadsWhatIsWritten(text);
  }

  lemma {:induction false} ActiveAreThoseThatAreActive(mappings: seq<Mapping>)
    ensures forall m :: m in ActiveOf(mappings) <==> m in mappings && m.active
    ensures TotalWeight(ActiveOf(mappings)) == ActiveWeight(mappings)
  {
    if mappings != [] {
      ActiveAreThoseThatAreActive(mappings[1..]);
      ValueIsWorth(mappings[0].mappingWeight);
      assert mappings == [mappings[0]] + mappings[1..];
      if mappings[0].active {
        assert ActiveOf(mappings)[1..] == ActiveOf(mappings[1..]);
      } else {
        assert ActiveOf(mappings) == ActiveOf(mappings[1..]);
      }
    }
  }

  lemma EvidenceGrows(m: Mapping, rest: seq<Mapping>, version: string)
    ensures EligibleOf(ActiveOf([m] + rest), version)
      == (if Counts(m, version) then [m] else []) + EligibleOf(ActiveOf(rest), version)
  {
    assert ([m] + rest)[1..] == rest;
    if m.active {
      assert ActiveOf([m] + rest) == [m] + ActiveOf(rest);
      assert ([m] + ActiveOf(rest))[1..] == ActiveOf(rest);
    } else {
      assert ActiveOf([m] + rest) == ActiveOf(rest);
    }
  }

  lemma EvidenceWeighs(m: Mapping, rest: seq<Mapping>)
    requires m.mastery.Some?
    ensures TotalWeight([m] + rest) == Worth(m.mappingWeight) + TotalWeight(rest)
    ensures WeightedMastery([m] + rest) == Worth(m.mappingWeight) * Worth(m.mastery.value) + WeightedMastery(rest)
  {
    ValueIsWorth(m.mappingWeight);
    ValueIsWorth(m.mastery.value);
    assert ([m] + rest)[1..] == rest;
    assert Weight(m) == Worth(m.mappingWeight) && MasteryOf(m) == Worth(m.mastery.value);
  }

  lemma {:induction false} EvidenceIsWhatCounts(mappings: seq<Mapping>, version: string)
    ensures var evidence := EligibleOf(ActiveOf(mappings), version);
      && (forall m :: m in evidence <==> m in mappings && Counts(m, version))
      && TotalWeight(evidence) == CountedWeight(mappings, version)
      && WeightedMastery(evidence) == CountedMastery(mappings, version)
  {
    if mappings != [] {
      var m, rest := mappings[0], mappings[1..];
      assert mappings == [m] + rest;
      EvidenceIsWhatCounts(rest, version);
      EvidenceGrows(m, rest, version);
      if Counts(m, version) {
        EvidenceWeighs(m, EligibleOf(ActiveOf(rest), version));
      } else {
        assert EligibleOf(ActiveOf(mappings), version) == EligibleOf(ActiveOf(rest), version);
      }
    }
  }

  lemma {:induction false} CoverageIsCoveredWeight(objectives: seq<Objective>, version: string)
    ensures CoverageNumerator(objectives, version) == CoveredWeight(objectives, version)
  {
    if objectives != [] {
      CoverageIsCoveredWeight(objectives[1..], version);
      EvidenceIsWhatCounts(objectives[0].mappings, version);
      ValueIsWorth(objectives[0].weight);
    }
  }

  // ----- When the evaluation fails --------------------------------------------------------

  ghost predicate CalibrationCounts(c: Option<Calibration>) {
    c.Some? && c.value.representative && c.value.sampleSize >= 100
  }

  ghost predicate CalibrationUnreadable(input: Profile) {
    CalibrationCounts(input.calibration) && !IsWritten(input.calibration.value.meanAbsoluteError)
  }

  ghost predicate HasTables(input: Profile) {
    input.objectives.Some? && input.mappingSetVersion.Some?
  }

  ghost predicate ActiveWeightsWritten(o: Objective) {
    forall m :: m in o.mappings && m.active ==> IsWritten(m.mappingWeight)
  }

  ghost predicate Readable(o: Objective) {
    IsWritten(o.weight) && ActiveWeightsWritten(o)
  }

  /** The objective at `i` is the first whose weights cannot be read. */
  ghost predicate FirstUnreadable(objectives: seq<Objective>, i: int) {
    && 0 <= i < |objectives| && !Readable(objectives[i])
    && forall k :: 0 <= k < i ==> Readable(objectives[k])
  }

  ghost predicate AllReadable(input: Profile) {
    && !CalibrationUnreadable(input) && HasTables(input)
    && forall o :: o in input.objectives.value ==> Readable(o)
  }

  ghost predicate FullyMapped(o: Objective) {
    ActiveWeight(o.mappings) == 100_000
  }

  ghost predicate Supported(o: Objective, version: string) {
    CountedWeight(o.mappings, version) > 0
  }

  ghost predicate Sufficient(objectives: seq<Objective>, version: string) {
    && objectives != [] && (forall o :: o in objectives ==> FullyMapped(o) && Supported(o, version))
    && CoveredWeight(objectives, version) >= 8_000_000_000
  }

  ghost predicate MasteriesWritten(o: Objective, version: string) {
    forall m :: m in o.mappings && Counts(m, version) ==> IsWritten(m.mastery.value)
  }

  ghost predicate MasteryUnreadable(objectives: seq<Objective>, version: string) {
    exists o :: o in objectives && !MasteriesWritten(o, version)
  }

  lemma ObjectiveIsToldAlike(o: Objective, version: string)
    ensures Readable(o) <==> IsFixed(o.weight) && WeightsRead(ActiveOf(o.mappings))
    ensures IsFixed(o.weight) <==> IsWritten(o.weight)
    ensures Mapped(o) <==> FullyMapped(o)
    ensures Evidenced(o, version) <==> Supported(o, version)
    ensures MasteriesRead(Evidence(o, version)) <==> MasteriesWritten(o, version)
  {
    ValueIsWorth(o.weight);
    ActiveAreThoseThatAreActive(o.mappings);
    EvidenceIsWhatCounts(o.mappings, version);
    WeightsAreReadWhenWritten(o);
    MasteriesAreReadWhenWritten(o, version);
  }

  lemma WeightsAreReadWhenWritten(o: Objective)
    ensures WeightsRead(ActiveOf(o.mappings)) <==> ActiveWeightsWritten(o)
  {
    var active := ActiveOf(o.mappings);
    ActiveAreThoseThatAreActive(o.mappings);
    forall m: Mapping
      ensures IsFixed(m.mappingWeight) <==> IsWritten(m.mappingWeight)
    {
      ValueIsWorth(m.mappingWeight);
    }
    if WeightsRead(active) {
      forall m | m in o.mappings && m.active
        ensures IsWritten(m.mappingWeight)
      {
        assert m in active;
      }
    } else {
      var i :| 0 <= i < |active| && !IsFixed(active[i].mappingWeight);
      assert active[i] in active;
    }
  }

  lemma MasteriesAreReadWhenWritten(o: Objective, version: string)
    ensures MasteriesRead(Evidence(o, version)) <==> MasteriesWritten(o, version)
  {
    var evidence := Evidence(o, version);
    EvidenceIsWhatCounts(o.mappings, version);
    forall m: Mapping | m.mastery.Some?
      ensures IsFixed(m.mastery.value) <==> IsWritten(m.mastery.value)
    {
      ValueIsWorth(m.mastery.value);
    }
    if MasteriesRead(evidence) {
      forall m | m in o.mappings && Counts(m, version)
        ensures IsWritten(m.mastery.value)
      {
        assert m in evidence;
      }
    } else {
      var i :| 0 <= i < |evidence| && evidence[i].mastery.Some? && !IsFixed(evidence[i].mastery.value);
      assert evidence[i] in evidence;
    }
  }

  ghost predicate WeightUnreadable(objectives: seq<Objective>) {
    exists i :: FirstUnreadable(objectives, i) && !IsWritten(objectives[i].weight)
  }

  ghost predicate MappingUnreadable(objectives: seq<Objective>) {
    exists i :: FirstUnreadable(objectives, i) && IsWritten(objectives[i].weight)
  }

  lemma {:induction false} FaultIsTheFirst(objectives: seq<Objective>)
    ensures WeightFault(objectives).None? <==> forall o :: o in objectives ==> Readable(o)
    ensures WeightFault(objectives).Some? ==>
      WeightFault(objectives).value.ObjectiveWeight? || WeightFault(objectives).value.MappingWeight?
    ensures WeightFault(objectives) == Some(ObjectiveWeight) <==> WeightUnreadable(objectives)
    ensures WeightFault(objectives) == Some(MappingWeight) <==> MappingUnreadable(objectives)
  {
    if objectives != [] {
      var rest := objectives[1..];
      ObjectiveIsToldAlike(objectives[0], "");
      if Readable(objectives[0]) {
        FaultIsTheFirst(rest);
        forall i
          ensures FirstUnreadable(objectives, i) <==> FirstUnreadable(rest, i - 1)
        {
          FirstUnreadableShifts(objectives, i);
        }
        forall i | FirstUnreadable(rest, i)
          ensures FirstUnreadable(objectives, i + 1) && objectives[i + 1] == rest[i]
        {
          FirstUnreadableShifts(objectives, i + 1);
        }
      } else {
        assert FirstUnreadable(objectives, 0);
      }
    }
  }

  lemma FirstUnreadableShifts(objectives: seq<Objective>, i: int)
    requires objectives != [] && Readable(objectives[0])
    ensures FirstUnreadable(objectives, i) <==> FirstUnreadable(objectives[1..], i - 1)
  {
    var rest := objectives[1..];
    if FirstUnreadable(rest, i - 1) {
      forall k | 0 <= k < i
        ensures Readable(objectives[k])
      {
        assert k > 0 ==> objectives[k] == rest[k - 1];
      }
    }
  }

  /** Each failure of the evaluation has exactly this cause. */
  lemma FailsExactlyForItsCause(input: Profile)
    ensures Evaluate(input) == Err(MeanAbsoluteError) <==> CalibrationUnreadable(input)
    ensures Evaluate(input) == Err(ObjectiveWeight) <==>
      !CalibrationUnreadable(input) && HasTables(input) && WeightUnreadable(input.objectives.value)
    ensures Evaluate(input) == Err(MappingWeight) <==>
      !CalibrationUnreadable(input) && HasTables(input) && MappingUnreadable(input.objectives.value)
    ensures Evaluate(input) == Err(Mastery) <==>
      && AllReadable(input) && Sufficient(input.objectives.value, input.algorithmVersion)
      && MasteryUnreadable(input.objectives.value, input.algorithmVersion)
  {
    CalibrationIsToldAlike(input.calibration);
    if !CalibrationUnreadable(input) && HasTables(input) {
      var objectives, version := input.objectives.value, input.algorithmVersion;
      FaultIsTheFirst(objectives);
      if WeightFault(objectives).None? {
        ReasonsAreToldAlike(objectives, version);
        ObjectivesAreToldAlike(objectives, version);
      }
    }
  }

  lemma CalibrationIsToldAlike(c: Option<Calibration>)
    ensures CalibrationFault(c) <==> CalibrationCounts(c) && !IsWritten(c.value.meanAbsoluteError)
    ensures CalibrationOf(c) == CalibrationUnavailable <==> c.None?
    ensures CalibrationOf(c) == Adequate <==> CalibrationCounts(c) && Worth(c.value.meanAbsoluteError) <= 10_000
  {
    if c.Some? {
      ValueIsWorth(c.value.meanAbsoluteError);
    }
  }

  // ----- What is refused, and why ---------------------------------------------------------

  ghost predicate Refused(input: Profile, reason: Reason) {
    Evaluate(input).Ok? && Evaluate(input).value.Unavailable? && reason in Evaluate(input).value.reasons
  }

  /** Reasons are listed in one order. */
  function Turn(reason: Reason): nat {
    match reason
    case BlueprintMissing => 0
    case ReviewedMappingsUnavailable => 1
    case ObjectiveMappingIncomplete => 2
    case ObjectiveEvidenceMissing => 3
    case EvidenceCoverageInsufficient => 4
  }

  ghost predicate InTurn(reasons: seq<Reason>) {
    forall i, j :: 0 <= i < j < |reasons| ==> Turn(reasons[i]) < Turn(reasons[j])
  }

  ghost predicate Incomplete(objectives: seq<Objective>) {
    objectives == [] || exists o :: o in objectives && !FullyMapped(o)
  }

  ghost predicate EvidenceMissing(objectives: seq<Objective>, version: string) {
    objectives == [] || exists o :: o in objectives && !Supported(o, version)
  }

  lemma ObjectivesAreToldAlike(objectives: seq<Objective>, version: string)
    ensures objectives == [] || !AllMapped(objectives) <==> Incomplete(objectives)
    ensures objectives == [] || !AllEvidenced(objectives, version) <==> EvidenceMissing(objectives, version)
    ensures !AllMasteriesRead(objectives, version) <==> MasteryUnreadable(objectives, version)
  {
    forall o | o in objectives
      ensures (Mapped(o) <==> FullyMapped(o)) && (Evidenced(o, version) <==> Supported(o, version))
      ensures MasteriesRead(Evidence(o, version)) <==> MasteriesWritten(o, version)
    {
      ObjectiveIsToldAlike(o, version);
    }
  }

  function Listed(incomplete: bool, missing: bool, insufficient: bool): seq<Reason> {
    (if incomplete then [ObjectiveMappingIncomplete] else [])
    + (if missing then [ObjectiveEvidenceMissing] else [])
    + (if insufficient then [EvidenceCoverageInsufficient] else [])
  }

  lemma ListedInTurn(incomplete: bool, missing: bool, insufficient: bool)
    ensures var reasons := Listed(incomplete, missing, insufficient);
      && (ObjectiveMappingIncomplete in reasons <==> incomplete)
      && (ObjectiveEvidenceMissing in reasons <==> missing)
      && (EvidenceCoverageInsufficient in reasons <==> insufficient)
      && BlueprintMissing !in reasons && ReviewedMappingsUnavailable !in reasons && InTurn(reasons)
      && (reasons == [] <==> !incomplete && !missing && !insufficient)
  {
  }

  lemma ReasonsAreListed(objectives: seq<Objective>, version: string)
    ensures Reasons(objectives, version)
      == Listed(Incomplete(objectives), EvidenceMissing(objectives, version),
                CoveredWeight(objectives, version) < 8_000_000_000)
  {
    CoverageIsCoveredWeight(objectives, version);
    ObjectivesAreToldAlike(objectives, version);
  }

  lemma SufficientExactlyWithoutReason(objectives: seq<Objective>, version: string)
    ensures Sufficient(objectives, version) <==>
      && !Incomplete(objectives) && !EvidenceMissing(objectives, version)
      && CoveredWeight(objectives, version) >= 8_000_000_000
  {
  }

  lemma ReasonsAreToldAlike(objectives: seq<Objective>, version: string)
    ensures var reasons := Reasons(objectives, version);
      && (ObjectiveMappingIncomplete in reasons <==> Incomplete(objectives))
      && (ObjectiveEvidenceMissing in reasons <==> EvidenceMissing(objectives, version))
      && (EvidenceCoverageInsufficient in reasons <==> CoveredWeight(objectives, version) < 8_000_000_000)
      && BlueprintMissing !in reasons && ReviewedMappingsUnavailable !in reasons && InTurn(reasons)
      && (reasons == [] <==> Sufficient(objectives, version))
  {
    ReasonsAreListed(objectives, version);
    SufficientExactlyWithoutReason(objectives, version);
    ListedInTurn(Incomplete(objectives), EvidenceMissing(objectives, version),
                 CoveredWeight(objectives, version) < 8_000_000_000);
  }

  /** Each reason is given exactly when it holds, and none twice. */
  lemma RefusedExactlyForItsReasons(input: Profile)
    ensures Refused(input, BlueprintMissing) <==> !CalibrationUnreadable(input) && input.objectives.None?
    ensures Refused(input, ReviewedMappingsUnavailable) <==>
      !CalibrationUnreadable(input) && input.objectives.Some? && input.mappingSetVersion.None?
    ensures Refused(input, ObjectiveMappingIncomplete) <==>
      AllReadable(input) && Incomplete(input.objectives.value)
    ensures Refused(input, ObjectiveEvidenceMissing) <==>
      AllReadable(input) && EvidenceMissing(input.objectives.value, input.algorithmVersion)
    ensures Refused(input, EvidenceCoverageInsufficient) <==>
      AllReadable(input) && CoveredWeight(input.objectives.value, input.algorithmVersion) < 8_000_000_000
    ensures Evaluate(input).Ok? && Evaluate(input).value.Unavailable? ==>
      Evaluate(input).value.reasons != [] && InTurn(Evaluate(input).value.reasons)
  {
    CalibrationIsToldAlike(input.calibration);
    if !CalibrationUnreadable(input) && HasTables(input) {
      FaultIsTheFirst(input.objectives.value);
      ReasonsAreToldAlike(input.objectives.value, input.algorithmVersion);
    }
  }

  // ----- What is disclosed ----------------------------------------------------------------

  ghost predicate Disclosed(input: Profile) {
    Evaluate(input).Ok? && Evaluate(input).value.Eligible?
  }

  /** A score is disclosed exactly for sufficient evidence of which everything can be read. */
  lemma DisclosedExactly(input: Profile)
    ensures Disclosed(input) <==>
      && AllReadable(input) && Sufficient(input.objectives.value, input.algorithmVersion)
      && !MasteryUnreadable(input.objectives.value, input.algorithmVersion)
  {
    CalibrationIsToldAlike(input.calibration);
    if !CalibrationUnreadable(input) && HasTables(input) {
      var objectives, version := input.objectives.value, input.algorithmVersion;
      FaultIsTheFirst(objectives);
      ReasonsAreToldAlike(objectives, version);
      ObjectivesAreToldAlike(objectives, version);
    }
  }

  /** It is called experimental unless the calibration is representative, rests on a hundred samples at least
      and errs by 0.10000 at most. */
  lemma ExperimentalUnlessCalibrated(input: Profile)
    requires Evaluate(input).Ok?
    ensures Evaluate(input).value.calibration == CalibrationUnavailable <==> input.calibration.None?
    ensures Evaluate(input).value.calibration == Adequate <==>
      CalibrationCounts(input.calibration) && Worth(input.calibration.value.meanAbsoluteError) <= 10_000
    ensures Disclosed(input) ==>
      (Evaluate(input).value.experimental <==> Evaluate(input).value.calibration != Adequate)
  {
    CalibrationIsToldAlike(input.calibration);
  }

  /** The printed coverage is the covered part of the blueprint, to the nearest 0.00001. */
  ghost predicate ShowsCoverage(text: string, covered: int) {
    exists q: nat :: HalfUp(q, covered, 100_000) && Spells(text, q)
  }

  lemma RoundedIsHalfUp(numerator: nat, denominator: nat)
    requires denominator > 0
    ensures HalfUp(RoundFraction(numerator, denominator), numerator, denominator)
  {
    RoundsToNearest(numerator, denominator);
  }

  lemma RoundedIsShown(covered: nat)
    ensures ShowsCoverage(FormatFixed(RoundFraction(covered, FIXED_SCALE)), covered)
  {
    RoundedIsHalfUp(covered, FIXED_SCALE);
    PrintsEveryDigit(RoundFraction(covered, FIXED_SCALE));
  }

  lemma CoverageOfTables(input: Profile)
    requires Evaluate(input).Ok?
    ensures Evaluate(input).value.evidenceCoverage
      == if HasTables(input) then Coverage(input.objectives.value, input.algorithmVersion) else "0.00000"
  {
  }

  lemma CoverageIsShown(input: Profile)
    requires Evaluate(input).Ok?
    ensures HasTables(input) ==>
      ShowsCoverage(Evaluate(input).value.evidenceCoverage,
                    CoveredWeight(input.objectives.value, input.algorithmVersion))
    ensures !HasTables(input) ==> Evaluate(input).value.evidenceCoverage == "0.00000"
  {
    CoverageOfTables(input);
    if HasTables(input) {
      CoverageIsCoveredWeight(input.objectives.value, input.algorithmVersion);
      RoundedIsShown(CoverageNumerator(input.objectives.value, input.algorithmVersion));
    }
  }

  /** Each objective's score is its counted masteries' average under the mapping weights, to the nearest
      0.00001. */
  ghost predicate Scored(objectives: seq<Objective>, version: string, scores: seq<nat>) {
    |scores| == |objectives| && forall i :: 0 <= i < |scores| ==>
      HalfUp(scores[i], CountedMastery(objectives[i].mappings, version), CountedWeight(objectives[i].mappings, version))
  }

  /** The printed score is the average of these under the objective weights, to the nearest 0.00001. */
  ghost predicate ShowsScore(text: string, objectives: seq<Objective>, scores: seq<nat>) {
    && |objectives| == |scores|
    && exists q: nat :: HalfUp(q, Weighted(objectives, scores), 100_000) && Spells(text, q)
  }

  lemma {:induction false} ScoresAreWeighted(objectives: seq<Objective>, version: string) returns (scores: seq<nat>)
    requires AllEvidenced(objectives, version)
    ensures Scored(objectives, version, scores)
    ensures ReadinessNumerator(objectives, version) == Weighted(objectives, scores)
  {
    if objectives == [] {
      scores := [];
    } else {
      var o := objectives[0];
      var rest := ScoresAreWeighted(objectives[1..], version);
      scores := [ObjectiveScore(o, version)] + rest;
      EvidenceIsWhatCounts(o.mappings, version);
      RoundedIsHalfUp(WeightedMastery(Evidence(o, version)), TotalWeight(Evidence(o, version)));
      ValueIsWorth(o.weight);
      assert scores[1..] == rest;
    }
  }

  lemma ScoreIsShown(input: Profile) returns (scores: seq<nat>)
    requires Disclosed(input)
    ensures HasTables(input) && Scored(input.objectives.value, input.algorithmVersion, scores)
    ensures ShowsScore(Evaluate(input).value.score, input.objectives.value, scores)
  {
    var objectives, version := input.objectives.value, input.algorithmVersion;
    ReasonsAreEmptyExactlyWhenEvidenceSuffices(objectives, version);
    scores := ScoresAreWeighted(objectives, version);
    RoundedIsHalfUp(ReadinessNumerator(objectives, version), FIXED_SCALE);
    PrintsEveryDigit(Score(objectives, version));
  }
}
