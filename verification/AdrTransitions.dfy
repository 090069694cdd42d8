/** The checks that compare a record with its merged predecessor at every merge, and what a
    history of merges without diagnostics keeps. */
module AdrTransitions {
  import opened Wrappers
  import opened AdrModel
  import opened AdrLifecycle
  import opened AdrSuccession

  /** Text comparisons that the validator delegates to regular expressions and a differ. */
  datatype TextRules = TextRules(
    formattingEquivalent: (string, string) -> bool,
    navigationEquivalent: (string, string) -> bool,
    changedCharacters: (string, string) -> nat,
    isPullRequest: string -> bool)

  datatype TransitionFault =
    | InvalidStatusChange
    | FileRenamed
    | MetadataChanged
    | SupersedesChanged
    | SupersededByChanged
    | DeprecationChanged
    | MaintenanceRewritten
    | BodyChangedInTransition
    | BodyChangedUnmarked
    | MaintenanceWithoutChange
    | SectionsMisdeclared
    | FormattingChangedContent
    | NavigationChangedContent
    | TypoTooLarge

  const SECTION_FIELD_NAMES: seq<string> :=
    ["Context", "Options", "Authorized verdict", "Rationale", "Verification", "Reversal criteria"]

  const MAX_TYPO_DELTA := 120

  function SectionOf(a: Adr, name: string): Option<string> {
    if name in a.sections then Some(a.sections[name]) else None
  }

  function TextOf(a: Adr, name: string): string {
    if name in a.sections then a.sections[name] else []
  }

  /** The named body sections on which the two versions differ, in the fixed order of names. */
  function SectionDelta(prev: Adr, next: Adr, names: seq<string>): (r: seq<string>)
    ensures forall n :: n in r <==> n in names && SectionOf(prev, n) != SectionOf(next, n)
  {
    if names == [] then []
    else if SectionOf(prev, names[0]) == SectionOf(next, names[0]) then SectionDelta(prev, next, names[1..])
    else [names[0]] + SectionDelta(prev, next, names[1..])
  }

  predicate BodyChanged(prev: Adr, next: Adr) {
    exists n :: n in SECTION_FIELD_NAMES && SectionOf(prev, n) != SectionOf(next, n)
  }

  function ChangedCharacters(prev: Adr, next: Adr, names: seq<string>, rules: TextRules): nat {
    if names == [] then 0
    else rules.changedCharacters(TextOf(prev, names[0]), TextOf(next, names[0]))
         + ChangedCharacters(prev, next, names[1..], rules)
  }

  function BaselineSize(prev: Adr, names: seq<string>): nat {
    if names == [] then 0 else |TextOf(prev, names[0])| + BaselineSize(prev, names[1..])
  }

  function AllowedTypoDelta(baseline: nat): nat {
    var scaled := if baseline / 50 > 4 then baseline / 50 else 4;
    if scaled < MAX_TYPO_DELTA then scaled else MAX_TYPO_DELTA
  }

  predicate AuthorityTransfer(prev: Adr, next: Adr, rules: TextRules) {
    var p, q := prev.provenance, next.provenance;
    && p.kind == q.kind == "prd-mandate"
    && p.authorityState == Some("staged") && p.cutoverPr.None?
    && q.authorityState == Some("transferred") && q.cutoverPr.Some? && rules.isPullRequest(q.cutoverPr.value)
    && p.rest == q.rest
    && prev.sections == next.sections
    && prev.identity == next.identity
  }

  predicate AppendsMaintenance(prev: Adr, next: Adr) {
    && prev.status == next.status == Accepted
    && |next.maintenance| == |prev.maintenance| + 1
    && next.maintenance[..|next.maintenance| - 1] == prev.maintenance
  }

  /** The kind of an entry covers the change of the declared sections. */
  ghost predicate KindCovers(prev: Adr, next: Adr, entry: MaintenanceEntry, rules: TextRules) {
    match entry.kind
    case Formatting => forall n :: n in entry.sections ==> rules.formattingEquivalent(TextOf(prev, n), TextOf(next, n))
    case Navigation => forall n :: n in entry.sections ==> rules.navigationEquivalent(TextOf(prev, n), TextOf(next, n))
    case Typo =>
      var changed := SectionDelta(prev, next, SECTION_FIELD_NAMES);
      ChangedCharacters(prev, next, changed, rules) <= AllowedTypoDelta(BaselineSize(prev, changed))
    case UnknownKind => true
  }

  ghost predicate DeclaresChanges(prev: Adr, next: Adr, entry: MaintenanceEntry) {
    forall n :: n in entry.sections <==> n in SECTION_FIELD_NAMES && SectionOf(prev, n) != SectionOf(next, n)
  }

  /** The entry declares exactly the changed sections and its kind covers the change. */
  ghost predicate DeltaAllowed(prev: Adr, next: Adr, entry: MaintenanceEntry, rules: TextRules) {
    BodyChanged(prev, next) && DeclaresChanges(prev, next, entry) && KindCovers(prev, next, entry, rules)
  }

  // ----- When each diagnostic is due ------------------------------------------------------

  /** The diagnostic on an appended entry is due. */
  ghost predicate DeltaFault(prev: Adr, next: Adr, entry: MaintenanceEntry, rules: TextRules, f: TransitionFault) {
    match f
    case MaintenanceWithoutChange => !BodyChanged(prev, next)
    case SectionsMisdeclared => BodyChanged(prev, next) && !DeclaresChanges(prev, next, entry)
    case FormattingChangedContent =>
      BodyChanged(prev, next) && DeclaresChanges(prev, next, entry) && KindFault(prev, next, entry, rules, f)
    case NavigationChangedContent =>
      BodyChanged(prev, next) && DeclaresChanges(prev, next, entry) && KindFault(prev, next, entry, rules, f)
    case TypoTooLarge =>
      BodyChanged(prev, next) && DeclaresChanges(prev, next, entry) && KindFault(prev, next, entry, rules, f)
    case _ => false
  }

  ghost predicate KindFault(prev: Adr, next: Adr, entry: MaintenanceEntry, rules: TextRules, f: TransitionFault) {
    match f
    case FormattingChangedContent => entry.kind == Formatting && !KindCovers(prev, next, entry, rules)
    case NavigationChangedContent => entry.kind == Navigation && !KindCovers(prev, next, entry, rules)
    case TypoTooLarge => entry.kind == Typo && !KindCovers(prev, next, entry, rules)
    case _ => false
  }

  /** The diagnostic on a whole transition is due. */
  ghost predicate TransitionHas(prev: Adr, next: Adr, rules: TextRules, f: TransitionFault) {
    match f
    case InvalidStatusChange => !StatusMayBecome(prev.status, next.status)
    case FileRenamed => next.fileName != prev.fileName
    case MetadataChanged =>
      && (next.identity != prev.identity || next.provenance != prev.provenance)
      && !AuthorityTransfer(prev, next, rules)
    case SupersedesChanged => next.supersedes != prev.supersedes
    case SupersededByChanged => prev.status == Superseded && next.supersededBy != prev.supersededBy
    case DeprecationChanged => prev.status == Deprecated && next.deprecation != prev.deprecation
    case MaintenanceRewritten => next.maintenance != prev.maintenance && !AppendsMaintenance(prev, next)
    case BodyChangedInTransition => BodyChanged(prev, next) && next.status != prev.status
    case BodyChangedUnmarked => BodyChanged(prev, next) && !AppendsMaintenance(prev, next)
    case MaintenanceWithoutChange => false
    case _ =>
      && BodyChanged(prev, next) && AppendsMaintenance(prev, next)
      && DeltaFault(prev, next, next.maintenance[|next.maintenance| - 1], rules, f)
  }

  method ValidateMaintenanceDelta(prev: Adr, next: Adr, entry: MaintenanceEntry, rules: TextRules)
    returns (ds: seq<TransitionFault>)
    ensures forall f :: f in ds <==> DeltaFault(prev, next, entry, rules, f)
    ensures ds == [] <==> DeltaAllowed(prev, next, entry, rules)
  {
    var changed := SectionDelta(prev, next, SECTION_FIELD_NAMES);
    DeltaIsTheChange(prev, next, entry);
    if changed == [] {
      return [MaintenanceWithoutChange];
    }
    if (set n | n in changed) != (set n | n in entry.sections) {
      return [SectionsMisdeclared];
    }
    ds := ValidateKind(prev, next, entry, changed, rules);
  }

  lemma DeltaIsTheChange(prev: Adr, next: Adr, entry: MaintenanceEntry)
    ensures var changed := SectionDelta(prev, next, SECTION_FIELD_NAMES);
      && (changed == [] <==> !BodyChanged(prev, next))
      && ((set n | n in changed) == (set n | n in entry.sections) <==> DeclaresChanges(prev, next, entry))
      && (DeclaresChanges(prev, next, entry) ==> forall n :: n in changed <==> n in entry.sections)
  {
    var changed := SectionDelta(prev, next, SECTION_FIELD_NAMES);
    var declared := set n | n in entry.sections;
    assert forall n :: n in declared <==> n in entry.sections;
    if changed != [] {
      assert changed[0] in changed;
    }
    if (set n | n in changed) == declared {
      assert forall n :: n in changed <==> n in declared;
    }
  }

  method ValidateKind(prev: Adr, next: Adr, entry: MaintenanceEntry, changed: seq<string>, rules: TextRules)
    returns (ds: seq<TransitionFault>)
    requires changed == SectionDelta(prev, next, SECTION_FIELD_NAMES)
    requires forall n :: n in changed <==> n in entry.sections
    ensures forall f :: f in ds <==> KindFault(prev, next, entry, rules, f)
    ensures ds == [] <==> KindCovers(prev, next, entry, rules)
  {
    match entry.kind {
      case Formatting =>
        if exists n :: n in changed && !rules.formattingEquivalent(TextOf(prev, n), TextOf(next, n)) {
          assert !KindCovers(prev, next, entry, rules);
          return [FormattingChangedContent];
        }
      case Navigation =>
        if exists n :: n in changed && !rules.navigationEquivalent(TextOf(prev, n), TextOf(next, n)) {
          assert !KindCovers(prev, next, entry, rules);
          return [NavigationChangedContent];
        }
      case Typo =>
        if ChangedCharacters(prev, next, changed, rules) > AllowedTypoDelta(BaselineSize(prev, changed)) {
          return [TypoTooLarge];
        }
      case UnknownKind =>
    }
    return [];
  }

  predicate StatusMayBecome(prev: Status, next: Status) {
    match prev
    case Accepted => next != UnknownStatus
    case Deprecated => next == Deprecated
    case Superseded => next == Superseded
    case UnknownStatus => false
  }

  /** What a merge without diagnostics guarantees about one record. */
  ghost predicate CleanTransition(prev: Adr, next: Adr, rules: TextRules) {
    && StatusMayBecome(prev.status, next.status)
    && next.fileName == prev.fileName
    && next.identity == prev.identity
    && next.supersedes == prev.supersedes
    && (next.provenance == prev.provenance || AuthorityTransfer(prev, next, rules))
    && (prev.status == Superseded ==> next.supersededBy == prev.supersededBy)
    && (prev.status == Deprecated ==> next.deprecation == prev.deprecation)
    && (next.maintenance == prev.maintenance || AppendsMaintenance(prev, next))
    && (BodyChanged(prev, next) ==> MarkedCorrection(prev, next, rules))
  }

  ghost predicate MarkedCorrection(prev: Adr, next: Adr, rules: TextRules) {
    AppendsMaintenance(prev, next) && DeltaAllowed(prev, next, next.maintenance[|next.maintenance| - 1], rules)
  }

  predicate IsBodyFault(f: TransitionFault) {
    || f.BodyChangedInTransition? || f.BodyChangedUnmarked? || f.MaintenanceWithoutChange? || f.SectionsMisdeclared?
    || f.FormattingChangedContent? || f.NavigationChangedContent? || f.TypoTooLarge?
  }

  predicate IsFieldFault(f: TransitionFault) {
    f.InvalidStatusChange? || f.FileRenamed? || f.MetadataChanged? || f.SupersedesChanged?
  }

  method ValidateTransition(prev: Adr, next: Adr, rules: TextRules) returns (ds: seq<TransitionFault>)
    ensures forall f :: f in ds <==> TransitionHas(prev, next, rules, f)
    ensures ds == [] <==> CleanTransition(prev, next, rules)
  {
    var transfer := AuthorityTransfer(prev, next, rules);
    var fields := ValidateFields(prev, next, transfer, rules);
    var history := ValidateHistory(prev, next, rules);
    var body := ValidateBody(prev, next, transfer, rules);
    ds := fields + history + body;
    CleanExactlyWithoutFaults(prev, next, rules);
    assert ds != [] ==> ds[0] in ds;
  }

  /** The first part of the transition check: what a record may never change. */
  method ValidateFields(prev: Adr, next: Adr, transfer: bool, rules: TextRules) returns (ds: seq<TransitionFault>)
    requires transfer == AuthorityTransfer(prev, next, rules)
    ensures forall f :: f in ds <==> IsFieldFault(f) && TransitionHas(prev, next, rules, f)
  {
    ds := [];
    if !StatusMayBecome(prev.status, next.status) {
      ds := ds + [InvalidStatusChange];
    }
    if prev.fileName != next.fileName {
      ds := ds + [FileRenamed];
    }
    if (prev.identity != next.identity || prev.provenance != next.provenance) && !transfer {
      ds := ds + [MetadataChanged];
    }
    if prev.supersedes != next.supersedes {
      ds := ds + [SupersedesChanged];
    }
  }

  /** The second part: what a record may not change any more, or only extend. */
  method ValidateHistory(prev: Adr, next: Adr, rules: TextRules) returns (ds: seq<TransitionFault>)
    ensures forall f :: f in ds <==> !IsFieldFault(f) && !IsBodyFault(f) && TransitionHas(prev, next, rules, f)
  {
    ds := [];
    if prev.status == Superseded && prev.supersededBy != next.supersededBy {
      ds := ds + [SupersededByChanged];
    }
    if prev.status == Deprecated && prev.deprecation != next.deprecation {
      ds := ds + [DeprecationChanged];
    }
    if !AppendsMaintenance(prev, next) && next.maintenance != prev.maintenance {
      ds := ds + [MaintenanceRewritten];
    }
  }

  /** A transition is clean exactly if no diagnostic is due. */
  lemma CleanExactlyWithoutFaults(prev: Adr, next: Adr, rules: TextRules)
    ensures (forall f :: !TransitionHas(prev, next, rules, f)) <==> CleanTransition(prev, next, rules)
  {
    if forall f :: !TransitionHas(prev, next, rules, f) {
      assert !TransitionHas(prev, next, rules, InvalidStatusChange) && !TransitionHas(prev, next, rules, FileRenamed);
      assert !TransitionHas(prev, next, rules, MetadataChanged) && !TransitionHas(prev, next, rules, SupersedesChanged);
      assert !TransitionHas(prev, next, rules, SupersededByChanged);
      assert !TransitionHas(prev, next, rules, DeprecationChanged);
      assert !TransitionHas(prev, next, rules, MaintenanceRewritten);
      NoBodyFault(prev, next, rules);
    } else {
      var f :| TransitionHas(prev, next, rules, f);
      if CleanTransition(prev, next, rules) {
        CleanHasNoFault(prev, next, rules, f);
      }
    }
  }

  lemma NoKindFault(prev: Adr, next: Adr, entry: MaintenanceEntry, rules: TextRules)
    requires !KindFault(prev, next, entry, rules, FormattingChangedContent)
    requires !KindFault(prev, next, entry, rules, NavigationChangedContent)
    requires !KindFault(prev, next, entry, rules, TypoTooLarge)
    ensures KindCovers(prev, next, entry, rules)
  {
  }

  lemma NoBodyFault(prev: Adr, next: Adr, rules: TextRules)
    requires !TransitionHas(prev, next, rules, BodyChangedUnmarked)
    requires !TransitionHas(prev, next, rules, SectionsMisdeclared)
    requires !TransitionHas(prev, next, rules, FormattingChangedContent)
    requires !TransitionHas(prev, next, rules, NavigationChangedContent)
    requires !TransitionHas(prev, next, rules, TypoTooLarge)
    ensures BodyChanged(prev, next) ==> MarkedCorrection(prev, next, rules)
  {
    if BodyChanged(prev, next) {
      var entry := next.maintenance[|next.maintenance| - 1];
      assert DeclaresChanges(prev, next, entry);
      NoKindFault(prev, next, entry, rules);
    }
  }

  lemma CleanHasNoFault(prev: Adr, next: Adr, rules: TextRules, f: TransitionFault)
    requires CleanTransition(prev, next, rules)
    ensures !TransitionHas(prev, next, rules, f)
  {
  }

  /** The last part of the transition check: a changed body needs a marked correction. */
  method ValidateBody(prev: Adr, next: Adr, transfer: bool, rules: TextRules) returns (ds: seq<TransitionFault>)
    requires transfer == AuthorityTransfer(prev, next, rules)
    ensures forall f :: f in ds <==> IsBodyFault(f) && TransitionHas(prev, next, rules, f)
    ensures ds == [] <==> (BodyChanged(prev, next) ==> MarkedCorrection(prev, next, rules))
  {
    ds := [];
    var changed := SectionDelta(prev, next, SECTION_FIELD_NAMES);
    if changed != [] {
      assert changed[0] in changed;
      if prev.status != next.status {
        ds := [BodyChangedInTransition, BodyChangedUnmarked];
      } else if AppendsMaintenance(prev, next) {
        ds := ValidateMaintenanceDelta(prev, next, next.maintenance[|next.maintenance| - 1], rules);
      } else if !transfer {
        ds := [BodyChangedUnmarked];
      }
    }
  }

  // ----- The history of one record --------------------------------------------------------

  ghost predicate CleanHistory(vs: seq<Adr>, rules: TextRules) {
    forall i :: 0 <= i < |vs| - 1 ==> CleanTransition(vs[i], vs[i + 1], rules)
  }

  ghost function BodyChanges(vs: seq<Adr>): nat {
    if |vs| < 2 then 0
    else BodyChanges(vs[..|vs| - 1]) + if BodyChanged(vs[|vs| - 2], vs[|vs| - 1]) then 1 else 0
  }

  ghost function ProvenanceChanges(vs: seq<Adr>): nat {
    if |vs| < 2 then 0
    else ProvenanceChanges(vs[..|vs| - 1]) + if vs[|vs| - 2].provenance != vs[|vs| - 1].provenance then 1 else 0
  }

  /** From the first to the last version: no way back from Deprecated or Superseded, identity and
      outgoing links fixed, the maintenance list only extended, at least one appended entry for
      each version that changed body text, and at most one provenance change, which is the
      transfer of authority. */
  lemma {:induction false} HistoryKeeps(vs: seq<Adr>, rules: TextRules)
    requires vs != [] && CleanHistory(vs, rules)
    ensures var first, last := vs[0], vs[|vs| - 1];
      && (first.status == Deprecated || first.status == Superseded ==> last.status == first.status)
      && (last.fileName, last.identity, last.supersedes) == (first.fileName, first.identity, first.supersedes)
      && (first.status == Superseded ==> last.supersededBy == first.supersededBy)
      && (first.status == Deprecated ==> last.deprecation == first.deprecation)
      && first.maintenance <= last.maintenance
      && BodyChanges(vs) <= |last.maintenance| - |first.maintenance|
      && (ProvenanceChanges(vs) == 0 ==> last.provenance == first.provenance)
      && (ProvenanceChanges(vs) > 0 ==>
            && ProvenanceChanges(vs) == 1
            && first.provenance.authorityState == Some("staged")
            && last.provenance.authorityState == Some("transferred"))
  {
    if |vs| > 1 {
      var before := vs[..|vs| - 1];
      assert CleanHistory(before, rules) by {
        forall i | 0 <= i < |before| - 1 ensures CleanTransition(before[i], before[i + 1], rules) {
          assert before[i] == vs[i] && before[i + 1] == vs[i + 1];
        }
      }
      HistoryKeeps(before, rules);
      assert CleanTransition(vs[|vs| - 2], vs[|vs| - 2 + 1], rules);
      assert before[|before| - 1] == vs[|vs| - 2];
    }
  }

  /** An appended entry need not come with a body change: the check that would say so is only
      reached when the body did change. */
  lemma IdleMaintenanceIsClean(a: Adr, entry: MaintenanceEntry, rules: TextRules)
    requires a.status == Accepted
    ensures var b := a.(maintenance := a.maintenance + [entry]);
      CleanTransition(a, b, rules) && !BodyChanged(a, b) && b.maintenance != a.maintenance
  {
    var b := a.(maintenance := a.maintenance + [entry]);
    assert b.maintenance[..|b.maintenance| - 1] == a.maintenance;
    assert |b.maintenance| == |a.maintenance| + 1;
  }

  // ----- The history of a collection ------------------------------------------------------

  /** A merge keeps every record and every record's own rules. */
  ghost predicate CleanMerge(before: Collection, after: Collection, rules: TextRules) {
    forall x :: x in before ==> x in after && CleanTransition(before[x], after[x], rules)
  }

  lemma {:induction false} ChainExtends(before: Collection, after: Collection, rules: TextRules, x: string, fuel: nat)
    requires WellLinked(before) && CleanMerge(before, after, rules) && x in before
    ensures Chain(before, x, fuel) <= Chain(after, x, fuel)
    decreases fuel
  {
    if fuel > 0 && before[x].supersededBy.Some? {
      var s := before[x].supersededBy.value;
      assert Edge(before, s, x);
      assert CleanTransition(before[x], after[x], rules);
      ChainExtends(before, after, rules, s, fuel - 1);
    }
  }

  lemma ChainToHead(adrs: Collection, x: string, i: nat)
    requires Clean(adrs) && x in adrs && i < |Chain(adrs, x, |adrs|)|
    ensures Chain(adrs, x, |adrs|)[i] in adrs
    ensures Head(adrs, Chain(adrs, x, |adrs|)[i]) == Head(adrs, x)
  {
    CleanMeansForest(adrs);
    EveryRecordHasAHead(adrs, x);
    ChainClimbs(adrs, x, |adrs|);
    HeadIsUnique(adrs, Chain(adrs, x, |adrs|));
  }

  lemma {:induction false} ChainNeedsNoMore(adrs: Collection, x: string, small: nat, large: nat)
    requires |Chain(adrs, x, small)| <= small <= large
    ensures Chain(adrs, x, large) == Chain(adrs, x, small)
    decreases large - small
  {
    if small < large {
      ChainIsStable(adrs, x, small);
      ChainNeedsNoMore(adrs, x, small + 1, large);
    }
  }

  lemma MergeAdvancesHeads(before: Collection, after: Collection, rules: TextRules, x: string)
    requires Clean(before) && Clean(after) && CleanMerge(before, after, rules) && x in before
    ensures x in after && Head(before, x) in after
    ensures Head(after, x) == Head(after, Head(before, x))
  {
    CleanMeansForest(before);
    CleanMeansForest(after);
    EveryRecordHasAHead(before, x);
    var n := |before| + |after|;
    ChainFits(before, x, |before|);
    ChainFits(after, x, |after|);
    ChainNeedsNoMore(before, x, |before|, n);
    ChainNeedsNoMore(after, x, |after|, n);
    ChainExtends(before, after, rules, x, n);
    var i := |Chain(before, x, |before|)| - 1;
    assert Chain(after, x, |after|)[i] == Head(before, x);
    ChainToHead(after, x, i);
  }

  /** Over any run of clean merges of clean collections, the current head of a record is the
      current head of whatever was its head at any earlier time: heads only move forward. */
  lemma {:induction false} HeadsOnlyMoveForward(cs: seq<Collection>, rules: TextRules, x: string)
    requires cs != [] && (forall i :: 0 <= i < |cs| ==> Clean(cs[i]))
    requires forall i :: 0 <= i < |cs| - 1 ==> CleanMerge(cs[i], cs[i + 1], rules)
    requires x in cs[0]
    ensures var last := cs[|cs| - 1];
      && x in last && Head(cs[0], x) in last
      && Head(last, x) == Head(last, Head(cs[0], x))
  {
    EveryRecordHasAHead(cs[0], x);
    if |cs| == 1 {
      EveryRecordHasAHead(cs[0], Head(cs[0], x));
    } else {
      var init := cs[..|cs| - 1];
      var prev, last := cs[|cs| - 2], cs[|cs| - 1];
      forall i | 0 <= i < |init| - 1 ensures CleanMerge(init[i], init[i + 1], rules) {
        assert init[i] == cs[i] && init[i + 1] == cs[i + 1];
      }
      HeadsOnlyMoveForward(init, rules, x);
      assert init[|init| - 1] == prev && CleanMerge(prev, cs[|cs| - 2 + 1], rules);
      MergeAdvancesHeads(prev, last, rules, x);
      MergeAdvancesHeads(prev, last, rules, Head(cs[0], x));
    }
  }
}
