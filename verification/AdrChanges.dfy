/** Which changes of a record the checks allow, told from the two texts alone, and which diagnostic each
    single change and each single broken link is told with. */
module AdrChanges {
  import opened Wrappers
  import opened AdrModel
  import opened AdrLifecycle
  import opened AdrSuccession
  import opened AdrTransitions
  import opened Sequences

  // ----- What a transition may change -----------------------------------------------------

  ghost predicate IsBodySection(name: string) {
    || name == "Context" || name == "Options" || name == "Authorized verdict"
    || name == "Rationale" || name == "Verification" || name == "Reversal criteria"
  }

  lemma SixBodySections(name: string)
    ensures name in SECTION_FIELD_NAMES <==> IsBodySection(name)
  {
    assert SECTION_FIELD_NAMES[0] == "Context" && SECTION_FIELD_NAMES[1] == "Options";
    assert SECTION_FIELD_NAMES[2] == "Authorized verdict" && SECTION_FIELD_NAMES[3] == "Rationale";
    assert SECTION_FIELD_NAMES[4] == "Verification" && SECTION_FIELD_NAMES[5] == "Reversal criteria";
  }

  /** The section was added, removed or rewritten. */
  ghost predicate Differs(prev: Adr, next: Adr, name: string) {
    if name in prev.sections then name !in next.sections || next.sections[name] != prev.sections[name]
    else name in next.sections
  }

  ghost predicate SameBody(prev: Adr, next: Adr) {
    forall name :: IsBodySection(name) ==> !Differs(prev, next, name)
  }

  lemma BodyIsToldAlike(prev: Adr, next: Adr)
    ensures BodyChanged(prev, next) <==> !SameBody(prev, next)
    ensures forall n ::
      (n in SECTION_FIELD_NAMES && SectionOf(prev, n) != SectionOf(next, n))
      == (IsBodySection(n) && Differs(prev, next, n))
  {
    forall n
      ensures n in SECTION_FIELD_NAMES && SectionOf(prev, n) != SectionOf(next, n)
        <==> IsBodySection(n) && Differs(prev, next, n)
    {
      SixBodySections(n);
    }
  }

  ghost function Written(a: Adr, name: string): string {
    if name in a.sections then a.sections[name] else ""
  }

  /** What one section adds to the number of characters changed, and to the size of the text they were in. */
  ghost function Edits(prev: Adr, next: Adr, rules: TextRules, name: string): int {
    if Differs(prev, next, name) then rules.changedCharacters(Written(prev, name), Written(next, name)) else 0
  }

  ghost function Size(prev: Adr, next: Adr, name: string): int {
    if Differs(prev, next, name) then |Written(prev, name)| else 0
  }

  ghost function AllEdits(prev: Adr, next: Adr, rules: TextRules): int {
    Edits(prev, next, rules, "Context") + Edits(prev, next, rules, "Options")
    + Edits(prev, next, rules, "Authorized verdict") + Edits(prev, next, rules, "Rationale")
    + Edits(prev, next, rules, "Verification") + Edits(prev, next, rules, "Reversal criteria")
  }

  ghost function WholeSize(prev: Adr, next: Adr): int {
    Size(prev, next, "Context") + Size(prev, next, "Options") + Size(prev, next, "Authorized verdict")
    + Size(prev, next, "Rationale") + Size(prev, next, "Verification") + Size(prev, next, "Reversal criteria")
  }

  /** Two characters in a hundred, yet four in a short text and never more than a hundred and twenty. */
  ghost predicate WithinTypo(edits: int, size: int) {
    edits <= 4 || (edits <= 120 && 50 * edits <= size)
  }

  lemma TypoBound(edits: nat, size: nat)
    ensures edits <= AllowedTypoDelta(size) <==> WithinTypo(edits, size)
  {
  }

  lemma DeltaOfOneMore(prev: Adr, next: Adr, rules: TextRules, name: string, rest: seq<string>)
    ensures var delta, before := SectionDelta(prev, next, [name] + rest), SectionDelta(prev, next, rest);
      && ChangedCharacters(prev, next, delta, rules)
         == Edits(prev, next, rules, name) + ChangedCharacters(prev, next, before, rules)
      && BaselineSize(prev, delta) == Size(prev, next, name) + BaselineSize(prev, before)
  {
    assert ([name] + rest)[1..] == rest;
    var before := SectionDelta(prev, next, rest);
    if Differs(prev, next, name) {
      assert SectionDelta(prev, next, [name] + rest) == [name] + before;
      assert ([name] + before)[1..] == before;
    } else {
      assert SectionDelta(prev, next, [name] + rest) == before;
    }
  }

  lemma SumsOverTheBody(prev: Adr, next: Adr, rules: TextRules)
    ensures var delta := SectionDelta(prev, next, SECTION_FIELD_NAMES);
      && ChangedCharacters(prev, next, delta, rules) == AllEdits(prev, next, rules)
      && BaselineSize(prev, delta) == WholeSize(prev, next)
  {
    var e: seq<string> := [];
    var f := ["Reversal criteria"];
    var g := ["Verification"] + f;
    var h := ["Rationale"] + g;
    var i := ["Authorized verdict"] + h;
    var j := ["Options"] + i;
    assert f == ["Reversal criteria"] + e;
    DeltaOfOneMore(prev, next, rules, "Reversal criteria", e);
    DeltaOfOneMore(prev, next, rules, "Verification", f);
    DeltaOfOneMore(prev, next, rules, "Rationale", g);
    DeltaOfOneMore(prev, next, rules, "Authorized verdict", h);
    DeltaOfOneMore(prev, next, rules, "Options", i);
    DeltaOfOneMore(prev, next, rules, "Context", j);
    assert SECTION_FIELD_NAMES == ["Context"] + j;
  }

  ghost predicate Appended(prev: Adr, next: Adr, entry: MaintenanceEntry) {
    prev.status == Accepted && next.status == Accepted && next.maintenance == prev.maintenance + [entry]
  }

  ghost predicate Declares(prev: Adr, next: Adr, entry: MaintenanceEntry) {
    forall name :: name in entry.sections <==> IsBodySection(name) && Differs(prev, next, name)
  }

  /** The kind of change that the entry claims is the kind that was made. */
  ghost predicate IsOfItsKind(prev: Adr, next: Adr, entry: MaintenanceEntry, rules: TextRules) {
    && (entry.kind == Formatting ==> forall name :: name in entry.sections ==>
          rules.formattingEquivalent(Written(prev, name), Written(next, name)))
    && (entry.kind == Navigation ==> forall name :: name in entry.sections ==>
          rules.navigationEquivalent(Written(prev, name), Written(next, name)))
    && (entry.kind == Typo ==> WithinTypo(AllEdits(prev, next, rules), WholeSize(prev, next)))
  }

  ghost predicate Corrects(prev: Adr, next: Adr, rules: TextRules, entry: MaintenanceEntry) {
    Appended(prev, next, entry) && Declares(prev, next, entry) && IsOfItsKind(prev, next, entry, rules)
  }

  /** A staged mandate is transferred by the pull request that is recorded, with no other change of metadata
      or text. */
  ghost predicate TransferredBy(prev: Adr, next: Adr, rules: TextRules, pullRequest: string) {
    && prev.provenance == Provenance("prd-mandate", Some("staged"), None, prev.provenance.rest)
    && next.provenance == Provenance("prd-mandate", Some("transferred"), Some(pullRequest), prev.provenance.rest)
    && rules.isPullRequest(pullRequest) && next.sections == prev.sections && next.identity == prev.identity
  }

  ghost predicate Allowed(prev: Adr, next: Adr, rules: TextRules) {
    && (next.status == prev.status != UnknownStatus
        || (prev.status == Accepted && (next.status == Deprecated || next.status == Superseded)))
    && next.fileName == prev.fileName && next.identity == prev.identity && next.supersedes == prev.supersedes
    && (next.provenance == prev.provenance || exists pullRequest :: TransferredBy(prev, next, rules, pullRequest))
    && (prev.status == Superseded ==> next.supersededBy == prev.supersededBy)
    && (prev.status == Deprecated ==> next.deprecation == prev.deprecation)
    && (next.maintenance == prev.maintenance || exists entry :: Appended(prev, next, entry))
    && (SameBody(prev, next) || exists entry :: Corrects(prev, next, rules, entry))
  }

  lemma AppendingIsToldAlike(prev: Adr, next: Adr)
    ensures AppendsMaintenance(prev, next) <==> exists entry :: Appended(prev, next, entry)
    ensures forall entry :: Appended(prev, next, entry) ==>
      AppendsMaintenance(prev, next) && next.maintenance[|next.maintenance| - 1] == entry
  {
    if AppendsMaintenance(prev, next) {
      var entry := next.maintenance[|next.maintenance| - 1];
      assert next.maintenance == next.maintenance[..|next.maintenance| - 1] + [entry];
      assert Appended(prev, next, entry);
    }
    forall entry | Appended(prev, next, entry)
      ensures AppendsMaintenance(prev, next) && next.maintenance[|next.maintenance| - 1] == entry
    {
      assert next.maintenance[..|next.maintenance| - 1] == prev.maintenance;
    }
  }

  lemma KindIsToldAlike(prev: Adr, next: Adr, entry: MaintenanceEntry, rules: TextRules)
    ensures KindCovers(prev, next, entry, rules) <==> IsOfItsKind(prev, next, entry, rules)
  {
    forall n
      ensures TextOf(prev, n) == Written(prev, n) && TextOf(next, n) == Written(next, n)
    {
    }
    if entry.kind == Typo {
      var delta := SectionDelta(prev, next, SECTION_FIELD_NAMES);
      SumsOverTheBody(prev, next, rules);
      TypoBound(ChangedCharacters(prev, next, delta, rules), BaselineSize(prev, delta));
    }
  }

  lemma CorrectionIsToldAlike(prev: Adr, next: Adr, rules: TextRules)
    requires BodyChanged(prev, next)
    ensures MarkedCorrection(prev, next, rules) <==> exists entry :: Corrects(prev, next, rules, entry)
  {
    BodyIsToldAlike(prev, next);
    AppendingIsToldAlike(prev, next);
    if AppendsMaintenance(prev, next) {
      var entry := next.maintenance[|next.maintenance| - 1];
      KindIsToldAlike(prev, next, entry, rules);
      assert MarkedCorrection(prev, next, rules) <==> Corrects(prev, next, rules, entry);
    }
  }

  lemma TransferIsToldAlike(prev: Adr, next: Adr, rules: TextRules)
    ensures AuthorityTransfer(prev, next, rules) <==>
      exists pullRequest :: TransferredBy(prev, next, rules, pullRequest)
  {
    if AuthorityTransfer(prev, next, rules) {
      assert TransferredBy(prev, next, rules, next.provenance.cutoverPr.value);
    }
  }

  /** The checks pass exactly on the allowed changes. */
  lemma CleanExactlyWhenAllowed(prev: Adr, next: Adr, rules: TextRules)
    ensures CleanTransition(prev, next, rules) <==> Allowed(prev, next, rules)
  {
    BodyIsToldAlike(prev, next);
    TransferIsToldAlike(prev, next, rules);
    AppendingIsToldAlike(prev, next);
    if BodyChanged(prev, next) {
      CorrectionIsToldAlike(prev, next, rules);
    }
  }

  // ----- What a single change is told with ------------------------------------------------

  datatype Edit =
    | Move(status: Status)
    | Rename(fileName: string)
    | Reidentify(identity: Identity)
    | Reprove(provenance: Provenance)
    | Relink(supersedes: seq<string>)
    | Resucceed(supersededBy: Option<string>)
    | Redeprecate(deprecation: Option<string>)
    | Remaintain(maintenance: seq<MaintenanceEntry>)
    | Rewrite(sections: map<string, string>)
    | MoveAndRewrite(status: Status, sections: map<string, string>)

  function Edited(a: Adr, e: Edit): Adr {
    match e
    case Move(status) => a.(status := status)
    case Rename(fileName) => a.(fileName := fileName)
    case Reidentify(identity) => a.(identity := identity)
    case Reprove(provenance) => a.(provenance := provenance)
    case Relink(supersedes) => a.(supersedes := supersedes)
    case Resucceed(supersededBy) => a.(supersededBy := supersededBy)
    case Redeprecate(deprecation) => a.(deprecation := deprecation)
    case Remaintain(maintenance) => a.(maintenance := maintenance)
    case Rewrite(sections) => a.(sections := sections)
    case MoveAndRewrite(status, sections) => a.(status := status, sections := sections)
  }

  ghost predicate MayMove(prev: Status, next: Status) {
    next == prev || (prev == Accepted && (next == Deprecated || next == Superseded))
  }

  /** The diagnostics that a change of `a` is told with. */
  ghost predicate ToldWith(a: Adr, e: Edit, rules: TextRules, f: TransitionFault) {
    var b := Edited(a, e);
    match e
    case Move(status) => f == InvalidStatusChange && !MayMove(a.status, status)
    case Rename(fileName) => f == FileRenamed && fileName != a.fileName
    case Reidentify(identity) => f == MetadataChanged && identity != a.identity
    case Reprove(provenance) =>
      && f == MetadataChanged && provenance != a.provenance
      && !exists pullRequest :: TransferredBy(a, b, rules, pullRequest)
    case Relink(supersedes) => f == SupersedesChanged && supersedes != a.supersedes
    case Resucceed(supersededBy) => f == SupersededByChanged && supersededBy != a.supersededBy && a.status == Superseded
    case Redeprecate(deprecation) => f == DeprecationChanged && deprecation != a.deprecation && a.status == Deprecated
    case Remaintain(maintenance) =>
      && f == MaintenanceRewritten && maintenance != a.maintenance
      && !exists entry :: Appended(a, b, entry)
    case Rewrite(_) => f == BodyChangedUnmarked && !SameBody(a, b)
    case MoveAndRewrite(status, _) =>
      || (f == InvalidStatusChange && !MayMove(a.status, status))
      || ((f == BodyChangedInTransition || f == BodyChangedUnmarked) && !SameBody(a, b))
  }

  /** A record changed in one respect is told exactly what was wrong with that. */
  lemma EachChangeIsToldWithItsOwn(a: Adr, e: Edit, rules: TextRules, f: TransitionFault)
    requires a.status != UnknownStatus && (e.MoveAndRewrite? ==> e.status != a.status)
    ensures TransitionHas(a, Edited(a, e), rules, f) <==> ToldWith(a, e, rules, f)
  {
    var b := Edited(a, e);
    BodyIsToldAlike(a, b);
    if e.Reprove? || e.Reidentify? {
      TransferIsToldAlike(a, b, rules);
    }
    if e.Remaintain? {
      AppendingIsToldAlike(a, b);
    }
  }

  /** What an appended entry is told with: it must declare the changed sections, and their change must be of
      its kind. */
  ghost predicate EntryToldWith(a: Adr, b: Adr, entry: MaintenanceEntry, rules: TextRules, f: TransitionFault) {
    if SameBody(a, b) then false
    else if !Declares(a, b, entry) then f == SectionsMisdeclared
    else if IsOfItsKind(a, b, entry, rules) then false
    else
      || (entry.kind == Formatting && f == FormattingChangedContent)
      || (entry.kind == Navigation && f == NavigationChangedContent)
      || (entry.kind == Typo && f == TypoTooLarge)
  }

  lemma EachCorrectionIsToldWithItsOwn(a: Adr, sections: map<string, string>, entry: MaintenanceEntry,
                                       rules: TextRules, f: TransitionFault)
    requires a.status == Accepted
    ensures var b := a.(sections := sections, maintenance := a.maintenance + [entry]);
      TransitionHas(a, b, rules, f) <==> EntryToldWith(a, b, entry, rules, f)
  {
    var b := a.(sections := sections, maintenance := a.maintenance + [entry]);
    BodyIsToldAlike(a, b);
    AppendingIsToldAlike(a, b);
    KindIsToldAlike(a, b, entry, rules);
    assert Appended(a, b, entry);
    assert DeclaresChanges(a, b, entry) <==> Declares(a, b, entry);
  }

  // ----- What a broken collection is told with --------------------------------------------

  lemma FewerEdgesCloseNoLoop(before: Collection, after: Collection)
    requires Acyclic(before) && forall x, y :: Edge(after, x, y) ==> Edge(before, x, y)
    ensures Acyclic(after)
  {
    forall p
      ensures !Loop(after, p)
    {
      if Loop(after, p) {
        forall i | 0 <= i < |p| - 1
          ensures Edge(before, p[i], p[i + 1])
        {
          assert Edge(after, p[i], p[i + 1]);
        }
        assert forall i :: 0 <= i < |p| ==> p[i] in before by {
          forall i | 0 <= i < |p|
            ensures p[i] in before
          {
            assert i < |p| - 1 ==> Edge(before, p[i], p[i + 1]);
            assert i > 0 ==> Edge(before, p[i - 1], p[i - 1 + 1]);
          }
        }
        assert Loop(before, p);
      }
    }
  }

  /** A collection is clean exactly if its links agree in both directions, it has no cycle, every status is
      known and no link is repeated. */
  lemma CleanExactly(adrs: Collection)
    ensures Clean(adrs) <==>
      && WellLinked(adrs) && Acyclic(adrs)
      && forall x :: x in adrs ==> adrs[x].status != UnknownStatus && Distinct(adrs[x].supersedes)
  {
    if Clean(adrs) {
      CleanMeansForest(adrs);
      forall x | x in adrs
        ensures adrs[x].status != UnknownStatus && Distinct(adrs[x].supersedes)
      {
        assert !Fault(adrs, StatusUnknown(x)) && !Fault(adrs, LinksRepeated(x));
      }
    } else if && WellLinked(adrs) && Acyclic(adrs)
              && forall x :: x in adrs ==> adrs[x].status != UnknownStatus && Distinct(adrs[x].supersedes)
    {
      var d :| Fault(adrs, d);
      SoundHasNoFault(adrs, d);
    }
  }

  lemma SoundHasNoFault(adrs: Collection, d: Diagnostic)
    requires WellLinked(adrs) && Acyclic(adrs)
    requires forall x :: x in adrs ==> adrs[x].status != UnknownStatus && Distinct(adrs[x].supersedes)
    ensures !Fault(adrs, d)
  {
    NoneSupersedesItself(adrs, d.id);
  }

  lemma NoneSupersedesItself(adrs: Collection, x: string)
    requires Acyclic(adrs)
    ensures x in adrs ==> x !in adrs[x].supersedes && !OnCycle(adrs, x)
  {
    if Edge(adrs, x, x) {
      assert Loop(adrs, [x, x]);
    }
  }

  /** One thing broken in a clean collection. */
  datatype Break =
    | ForgetSuccessor(id: string)
    | Restore(id: string, status: Status)
    | ForgetTarget(id: string, target: string, rest: seq<string>)
    | Remove(id: string)
    | Repeat(id: string, target: string)
    | Muddle(id: string)

  ghost predicate CanBreak(adrs: Collection, b: Break) {
    && b.id in adrs
    && match b
       case ForgetSuccessor(x) => adrs[x].status == Superseded
       case Restore(x, status) => adrs[x].status == Superseded && (status == Accepted || status == Deprecated)
       case ForgetTarget(x, target, rest) =>
         && target in adrs[x].supersedes && target !in rest && Distinct(rest)
         && forall y :: y != target ==> (y in rest <==> y in adrs[x].supersedes)
       case Remove(x) => true
       case Repeat(x, target) => target in adrs[x].supersedes
       case Muddle(x) => adrs[x].status != Superseded
  }

  ghost function Broken(adrs: Collection, b: Break): Collection
    requires CanBreak(adrs, b)
  {
    match b
    case ForgetSuccessor(x) => adrs[x := adrs[x].(supersededBy := None)]
    case Restore(x, status) => adrs[x := adrs[x].(status := status)]
    case ForgetTarget(x, _, rest) => adrs[x := adrs[x].(supersedes := rest)]
    case Remove(x) => adrs - {x}
    case Repeat(x, target) => adrs[x := adrs[x].(supersedes := adrs[x].supersedes + [target])]
    case Muddle(x) => adrs[x := adrs[x].(status := UnknownStatus)]
  }

  /** What is said about it. */
  ghost predicate BreakToldWith(adrs: Collection, b: Break, d: Diagnostic)
    requires CanBreak(adrs, b)
  {
    match b
    case ForgetSuccessor(x) =>
      d == SuccessorMissing(x) || (d.TargetDoesNotLinkBack? && d.target == x && adrs[x].supersededBy == Some(d.id))
    case Restore(x, _) =>
      d == SuccessorUnexpected(x) || (d.TargetNotSuperseded? && d.target == x && adrs[x].supersededBy == Some(d.id))
    case ForgetTarget(x, target, _) => d == SuccessorDoesNotLinkBack(target, x)
    case Remove(x) =>
      || (d.TargetDoesNotExist? && d.target == x && adrs[x].supersededBy == Some(d.id))
      || (d.SuccessorDoesNotExist? && d.successor == x && d.id in adrs[x].supersedes)
    case Repeat(x, _) => d == LinksRepeated(x)
    case Muddle(x) => d == StatusUnknown(x)
  }

  lemma BreakingAddsNoEdge(adrs: Collection, b: Break)
    requires CanBreak(adrs, b)
    ensures forall x, y :: Edge(Broken(adrs, b), x, y) ==> Edge(adrs, x, y)
  {
  }

  lemma RepeatedTarget(targets: seq<string>, target: string)
    requires target in targets
    ensures !Distinct(targets + [target])
  {
    var i :| 0 <= i < |targets| && targets[i] == target;
    assert (targets + [target])[i] == (targets + [target])[|targets|];
  }

  ghost predicate BreaksLink(b: Break) {
    b.ForgetTarget? || b.Remove?
  }

  lemma BrokenFieldIsTold(adrs: Collection, b: Break, d: Diagnostic)
    requires Clean(adrs) && CanBreak(adrs, b) && !BreaksLink(b)
    ensures Fault(Broken(adrs, b), d) <==> BreakToldWith(adrs, b, d)
  {
    CleanExactly(adrs);
    BreakingAddsNoEdge(adrs, b);
    FewerEdgesCloseNoLoop(adrs, Broken(adrs, b));
    NoneSupersedesItself(Broken(adrs, b), d.id);
    if b.Repeat? {
      RepeatedTarget(adrs[b.id].supersedes, b.target);
    }
  }

  lemma BrokenLinkIsTold(adrs: Collection, b: Break, d: Diagnostic)
    requires Clean(adrs) && CanBreak(adrs, b) && BreaksLink(b)
    ensures Fault(Broken(adrs, b), d) <==> BreakToldWith(adrs, b, d)
  {
    CleanExactly(adrs);
    BreakingAddsNoEdge(adrs, b);
    FewerEdgesCloseNoLoop(adrs, Broken(adrs, b));
    NoneSupersedesItself(Broken(adrs, b), d.id);
    NoneSupersedesItself(adrs, b.id);
  }

  /** A clean collection in which one thing is broken is told exactly what was broken, on the sides that can
      tell. */
  lemma EachBreakIsToldWithItsOwn(adrs: Collection, b: Break, d: Diagnostic)
    requires Clean(adrs) && CanBreak(adrs, b)
    ensures Fault(Broken(adrs, b), d) <==> BreakToldWith(adrs, b, d)
  {
    if BreaksLink(b) {
      BrokenLinkIsTold(adrs, b, d);
    } else {
      BrokenFieldIsTold(adrs, b, d);
    }
  }
}
