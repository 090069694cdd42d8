/** The supersession graph of a collection: link checks in both directions and a depth-first
    search for cycles along `supersedes`. */
module AdrLifecycle {
  import opened Wrappers
  import opened AdrModel
  import opened Sequences

  datatype Diagnostic =
    | StatusUnknown(id: string)
    | LinksRepeated(id: string)
    | SuccessorMissing(id: string)
    | SuccessorUnexpected(id: string)
    | SupersedesItself(id: string)
    | TargetDoesNotExist(id: string, target: string)
    | TargetDoesNotLinkBack(id: string, target: string)
    | TargetNotSuperseded(id: string, target: string)
    | SuccessorDoesNotExist(id: string, successor: string)
    | SuccessorDoesNotLinkBack(id: string, successor: string)
    | CycleAt(id: string)

  // ----- What the diagnostics mean --------------------------------------------------------

  /** The diagnostic `d` is true of the collection. */
  ghost predicate Fault(adrs: Collection, d: Diagnostic) {
    && d.id in adrs
    && var adr := adrs[d.id];
       match d
       case StatusUnknown(_) => adr.status == UnknownStatus
       case LinksRepeated(_) => !Distinct(adr.supersedes)
       case SuccessorMissing(_) => adr.status == Superseded && adr.supersededBy.None?
       case SuccessorUnexpected(_) => adr.status != Superseded && adr.supersededBy.Some?
       case SupersedesItself(id) => id in adr.supersedes
       case TargetDoesNotExist(_, t) => t in adr.supersedes && t !in adrs
       case TargetDoesNotLinkBack(id, t) => t in adr.supersedes && t in adrs && adrs[t].supersededBy != Some(id)
       case TargetNotSuperseded(_, t) => t in adr.supersedes && t in adrs && adrs[t].status != Superseded
       case SuccessorDoesNotExist(_, s) => adr.supersededBy == Some(s) && s !in adrs
       case SuccessorDoesNotLinkBack(id, s) => adr.supersededBy == Some(s) && s in adrs && id !in adrs[s].supersedes
       case CycleAt(id) => OnCycle(adrs, id)
  }

  predicate IsSchemaCheck(d: Diagnostic) {
    d.StatusUnknown? || d.LinksRepeated? || d.SuccessorMissing? || d.SuccessorUnexpected? || d.SupersedesItself?
  }

  predicate IsTargetCheck(d: Diagnostic) {
    d.TargetDoesNotExist? || d.TargetDoesNotLinkBack? || d.TargetNotSuperseded?
  }

  predicate IsLinkCheck(d: Diagnostic) {
    IsTargetCheck(d) || d.SuccessorDoesNotExist? || d.SuccessorDoesNotLinkBack?
  }

  predicate Edge(adrs: Collection, x: string, y: string) {
    x in adrs && y in adrs && y in adrs[x].supersedes
  }

  ghost predicate Path(adrs: Collection, p: seq<string>) {
    && (forall i :: 0 <= i < |p| ==> p[i] in adrs)
    && (forall i :: 0 <= i < |p| - 1 ==> Edge(adrs, p[i], p[i + 1]))
  }

  ghost predicate Loop(adrs: Collection, p: seq<string>) {
    Path(adrs, p) && |p| >= 2 && p[0] == p[|p| - 1]
  }

  ghost predicate OnCycle(adrs: Collection, x: string) {
    exists p :: Loop(adrs, p) && p[0] == x
  }

  ghost predicate Acyclic(adrs: Collection) {
    forall p :: !Loop(adrs, p)
  }

  // ----- The schema rules on status and links ---------------------------------------------

  method ValidateAdrSchema(adrs: Collection, id: string) returns (ds: seq<Diagnostic>)
    requires id in adrs
    ensures forall d :: d in ds <==> (IsSchemaCheck(d) && d.id == id && Fault(adrs, d))
  {
    var adr := adrs[id];
    ds := [];
    if adr.status == UnknownStatus {
      ds := ds + [StatusUnknown(id)];
    }
    CountingMeansDistinct(adr.supersedes);
    if !AllDistinct(adr.supersedes) {
      ds := ds + [LinksRepeated(id)];
    }
    if adr.status == Superseded && adr.supersededBy.None? {
      ds := ds + [SuccessorMissing(id)];
    }
    if adr.status != Superseded && adr.supersededBy.Some? {
      ds := ds + [SuccessorUnexpected(id)];
    }
    if id in adr.supersedes {
      ds := ds + [SupersedesItself(id)];
    }
  }

  // ----- Depth-first search ---------------------------------------------------------------

  /** Every existing target of a finished record finished before it. */
  ghost predicate TargetsFirst(adrs: Collection, finished: seq<string>) {
    forall i, y :: 0 <= i < |finished| && Edge(adrs, finished[i], y) ==> y in finished[..i]
  }

  /** `path` leads along `supersedes` from the root of the search to the record `id`. */
  ghost predicate LeadsTo(adrs: Collection, path: seq<string>, id: string) {
    Path(adrs, path + [id])
  }

  /** The sets of the search at any moment: `finished` is `visited` in finishing order. */
  ghost predicate Sensible(adrs: Collection, visiting: set<string>, visited: set<string>, cycles: seq<string>,
      finished: seq<string>)
  {
    && visited == Elements(finished) && visited <= adrs.Keys && visiting <= adrs.Keys && visiting !! visited
    && (forall x :: x in cycles ==> OnCycle(adrs, x))
    && (cycles == [] ==> TargetsFirst(adrs, finished))
  }

  class Walk {
    const adrs: Collection
    var visiting: set<string>
    var visited: set<string>
    var cycles: seq<string>
    ghost var finished: seq<string>

    constructor (adrs: Collection)
      ensures this.adrs == adrs && visiting == {} && visited == {} && cycles == [] && Valid()
    {
      this.adrs, visiting, visited, cycles, finished := adrs, {}, {}, [], [];
    }

    ghost predicate Valid()
      reads this
    {
      Sensible(adrs, visiting, visited, cycles, finished)
    }

    method Visit(id: string, ghost path: seq<string>)
      requires Valid() && id in adrs
      requires visiting == Elements(path) && LeadsTo(adrs, path, id)
      modifies this
      ensures Valid() && visiting == old(visiting)
      ensures old(visited) <= visited && |old(cycles)| <= |cycles|
      ensures cycles == [] ==> id in visited
      decreases |adrs.Keys - visiting|, 0
    {
      if id in visiting {
        ClosesLoop(adrs, path, id);
        cycles := cycles + [id];
        return;
      }
      if id in visited {
        return;
      }
      EntersOneMore(adrs.Keys, visiting, id, path);
      visiting := visiting + {id};
      VisitTargets(id, path + [id]);
      FinishIsSensible(adrs, visiting, visited, cycles, finished, id);
      visiting := visiting - {id};
      visited := visited + {id};
      finished := finished + [id];
    }

    method VisitTargets(id: string, ghost path: seq<string>)
      requires Valid() && id in adrs
      requires visiting == Elements(path) && Path(adrs, path) && path != [] && path[|path| - 1] == id
      modifies this
      ensures Valid() && visiting == old(visiting)
      ensures old(visited) <= visited && |old(cycles)| <= |cycles|
      ensures cycles == [] ==> forall y :: y in adrs[id].supersedes && y in adrs ==> y in visited
      decreases |adrs.Keys - visiting|, 1
    {
      var targets := adrs[id].supersedes;
      for i := 0 to |targets|
        invariant Valid() && visiting == old(visiting)
        invariant old(visited) <= visited && |old(cycles)| <= |cycles|
        invariant cycles == [] ==> forall j :: 0 <= j < i && targets[j] in adrs ==> targets[j] in visited
      {
        if targets[i] in adrs {
          PathGrows(adrs, path, targets[i]);
          Visit(targets[i], path);
        }
      }
    }
  }

  lemma FinishIsSensible(adrs: Collection, visiting: set<string>, visited: set<string>, cycles: seq<string>,
                         finished: seq<string>, id: string)
    requires Sensible(adrs, visiting, visited, cycles, finished) && id in visiting
    requires cycles == [] ==> forall y :: y in adrs[id].supersedes && y in adrs ==> y in visited
    ensures Sensible(adrs, visiting - {id}, visited + {id}, cycles, finished + [id])
  {
    if cycles == [] {
      FinishKeepsTargetsFirst(adrs, finished, id);
    }
  }

  lemma PathGrows(adrs: Collection, path: seq<string>, id: string)
    requires Path(adrs, path) && path != [] && Edge(adrs, path[|path| - 1], id)
    ensures LeadsTo(adrs, path, id)
  {
    var longer := path + [id];
    forall j | 0 <= j < |longer| - 1 ensures Edge(adrs, longer[j], longer[j + 1]) {
      assert longer[j] == path[j];
    }
  }

  lemma FinishKeepsTargetsFirst(adrs: Collection, finished: seq<string>, id: string)
    requires TargetsFirst(adrs, finished) && id in adrs
    requires forall y :: y in adrs[id].supersedes && y in adrs ==> y in finished
    ensures TargetsFirst(adrs, finished + [id])
  {
    var after := finished + [id];
    forall i, y | 0 <= i < |after| && Edge(adrs, after[i], y) ensures y in after[..i] {
      if i < |finished| {
        assert after[i] == finished[i] && after[..i] == finished[..i];
      } else {
        assert after[..i] == finished;
      }
    }
  }

  lemma EntersOneMore(all: set<string>, visiting: set<string>, id: string, path: seq<string>)
    requires id in all && id !in visiting && visiting == Elements(path)
    ensures |all - (visiting + {id})| < |all - visiting|
    ensures visiting + {id} == Elements(path + [id])
  {
    assert all - visiting == (all - (visiting + {id})) + {id};
  }

  lemma ClosesLoop(adrs: Collection, path: seq<string>, id: string)
    requires id in path && LeadsTo(adrs, path, id)
    ensures OnCycle(adrs, id)
  {
    var i :| 0 <= i < |path| && path[i] == id;
    var whole := path + [id];
    var p := whole[i..];
    forall j | 0 <= j < |p| - 1 ensures Edge(adrs, p[j], p[j + 1]) {
      assert p[j] == whole[i + j] && p[j + 1] == whole[i + j + 1];
    }
    assert Loop(adrs, p);
  }

  lemma {:induction false} PathStaysInPrefix(adrs: Collection, finished: seq<string>, p: seq<string>, n: nat)
    requires TargetsFirst(adrs, finished) && Path(adrs, p) && p != [] && n < |finished| && p[0] == finished[n]
    ensures forall i :: 0 < i < |p| ==> p[i] in finished[..n]
    decreases n
  {
    if |p| > 1 {
      assert Edge(adrs, p[0], p[1]);
      var m :| 0 <= m < n && finished[..n][m] == p[1];
      assert Path(adrs, p[1..]) by {
        forall i | 0 <= i < |p[1..]| - 1 ensures Edge(adrs, p[1..][i], p[1..][i + 1]) {
          assert p[1..][i] == p[i + 1] && p[1..][i + 1] == p[i + 2];
        }
      }
      PathStaysInPrefix(adrs, finished, p[1..], m);
      forall i | 0 < i < |p| ensures p[i] in finished[..n] {
        if i > 1 {
          assert p[i] == p[1..][i - 1];
          var k :| 0 <= k < m && finished[..m][k] == p[i];
          assert finished[..n][k] == p[i];
        }
      }
    }
  }

  /** A finishing order in which targets come first leaves no room for a cycle. */
  lemma FinishedMeansAcyclic(adrs: Collection, finished: seq<string>)
    requires TargetsFirst(adrs, finished) && Elements(finished) == adrs.Keys
    ensures Acyclic(adrs)
  {
    forall p ensures !Loop(adrs, p) {
      if Loop(adrs, p) {
        var n := FirstIndex(finished, p[0]);
        PathStaysInPrefix(adrs, finished, p, n);
        assert false;
      }
    }
  }

  lemma FirstIndex(s: seq<string>, x: string) returns (n: nat)
    requires x in s
    ensures n < |s| && s[n] == x && x !in s[..n]
  {
    n := 0;
    while s[n] != x
      invariant n < |s| && x !in s[..n] && x in s[n..]
      decreases |s| - n
    {
      assert s[n..] == [s[n]] + s[n + 1..] && s[..n + 1] == s[..n] + [s[n]];
      n := n + 1;
    }
  }

  // ----- The whole check ------------------------------------------------------------------

  method CheckLinks(adrs: Collection, id: string) returns (ds: seq<Diagnostic>)
    requires id in adrs
    ensures forall d :: d in ds <==> (IsLinkCheck(d) && d.id == id && Fault(adrs, d))
  {
    var adr := adrs[id];
    ds := [];
    for i := 0 to |adr.supersedes|
      invariant forall d :: d in ds <==>
        (IsTargetCheck(d) && d.id == id && Fault(adrs, d) && d.target in adr.supersedes[..i])
    {
      var target := adr.supersedes[i];
      assert adr.supersedes[..i + 1] == adr.supersedes[..i] + [target];
      if target !in adrs {
        ds := ds + [TargetDoesNotExist(id, target)];
        continue;
      }
      if adrs[target].supersededBy != Some(id) {
        ds := ds + [TargetDoesNotLinkBack(id, target)];
      }
      if adrs[target].status != Superseded {
        ds := ds + [TargetNotSuperseded(id, target)];
      }
    }
    assert adr.supersedes[..|adr.supersedes|] == adr.supersedes;
    if adr.supersededBy.Some? {
      var successor := adr.supersededBy.value;
      if successor !in adrs {
        ds := ds + [SuccessorDoesNotExist(id, successor)];
      } else if id !in adrs[successor].supersedes {
        ds := ds + [SuccessorDoesNotLinkBack(id, successor)];
      }
    }
  }

  /** `ids` lists the collection in its iteration order. The link diagnostics are exactly the
      link faults; a cycle is reported if and only if there is one, and only at its members. */
  method ValidateLifecycle(adrs: Collection, ids: seq<string>) returns (ds: seq<Diagnostic>)
    requires Elements(ids) == adrs.Keys
    ensures forall d :: IsLinkCheck(d) ==> (d in ds <==> Fault(adrs, d))
    ensures forall d :: d in ds ==> IsLinkCheck(d) || (d.CycleAt? && Fault(adrs, d))
    ensures (exists id :: CycleAt(id) in ds) <==> !Acyclic(adrs)
  {
    ds := [];
    for i := 0 to |ids|
      invariant forall d :: d in ds <==> IsLinkCheck(d) && Fault(adrs, d) && d.id in ids[..i]
    {
      assert ids[i] in Elements(ids);
      assert ids[..i + 1] == ids[..i] + [ids[i]];
      var found := CheckLinks(adrs, ids[i]);
      ds := ds + found;
    }
    assert ids[..|ids|] == ids;
    ghost var links := ds;
    var walk := new Walk(adrs);
    for i := 0 to |ids|
      invariant walk.adrs == adrs && walk.Valid() && walk.visiting == {}
      invariant walk.cycles == [] ==> Elements(ids[..i]) <= walk.visited
    {
      assert ids[i] in Elements(ids);
      assert ids[..i + 1] == ids[..i] + [ids[i]];
      assert LeadsTo(adrs, [], ids[i]);
      walk.Visit(ids[i], []);
    }
    if walk.cycles == [] {
      assert walk.visited == adrs.Keys;
      FinishedMeansAcyclic(adrs, walk.finished);
    } else {
      assert walk.cycles[0] in walk.cycles;
    }
    for i := 0 to |walk.cycles|
      invariant forall d :: d in ds <==> d in links || (d.CycleAt? && d.id in walk.cycles[..i])
    {
      assert walk.cycles[..i + 1] == walk.cycles[..i] + [walk.cycles[i]];
      ds := ds + [CycleAt(walk.cycles[i])];
    }
    assert walk.cycles[..|walk.cycles|] == walk.cycles;
    assert walk.cycles != [] ==> CycleAt(walk.cycles[0]) in ds;
  }
}
