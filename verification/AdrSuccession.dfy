/** What a collection without diagnostics looks like: following `superseded_by` from any record
    ends at one current record, so the collection is a forest whose trees are its heads. */
module AdrSuccession {
  import opened Wrappers
  import opened AdrModel
  import opened AdrLifecycle
  import opened Sequences

  ghost predicate Clean(adrs: Collection) {
    forall d :: !Fault(adrs, d)
  }

  /** The two checks over a whole collection, in the order they run. */
  method CheckCollection(adrs: Collection, ids: seq<string>) returns (ds: seq<Diagnostic>)
    requires Elements(ids) == adrs.Keys
    ensures forall d :: d in ds ==> Fault(adrs, d)
    ensures ds == [] <==> Clean(adrs)
  {
    ds := [];
    for i := 0 to |ids|
      invariant forall d :: d in ds <==> (IsSchemaCheck(d) && Fault(adrs, d) && d.id in ids[..i])
    {
      assert ids[i] in Elements(ids);
      assert ids[..i + 1] == ids[..i] + [ids[i]];
      var found := ValidateAdrSchema(adrs, ids[i]);
      ds := ds + found;
    }
    assert ids[..|ids|] == ids;
    ghost var schema := ds;
    var links := ValidateLifecycle(adrs, ids);
    ds := ds + links;
    if ds == [] {
      forall d ensures !Fault(adrs, d) {
        if IsSchemaCheck(d) && d.id in adrs {
          assert d.id in Elements(ids);
          assert d !in schema;
        } else if d.CycleAt? {
          assert Acyclic(adrs);
        }
      }
    } else {
      assert ds[0] in ds;
    }
  }

  /** Links agree in both directions and exactly the superseded records have a successor. */
  ghost predicate WellLinked(adrs: Collection) {
    && (forall x :: x in adrs ==> (adrs[x].status == Superseded <==> adrs[x].supersededBy.Some?))
    && (forall x :: x in adrs && adrs[x].supersededBy.Some? ==> Edge(adrs, adrs[x].supersededBy.value, x))
    && (forall x, y :: x in adrs && y in adrs[x].supersedes ==> y in adrs && adrs[y].supersededBy == Some(x))
  }

  lemma CleanMeansForest(adrs: Collection)
    requires Clean(adrs)
    ensures WellLinked(adrs) && Acyclic(adrs)
  {
    forall x | x in adrs ensures adrs[x].status == Superseded <==> adrs[x].supersededBy.Some? {
      assert !Fault(adrs, SuccessorMissing(x)) && !Fault(adrs, SuccessorUnexpected(x));
    }
    forall x | x in adrs && adrs[x].supersededBy.Some? ensures Edge(adrs, adrs[x].supersededBy.value, x) {
      var s := adrs[x].supersededBy.value;
      assert !Fault(adrs, SuccessorDoesNotExist(x, s)) && !Fault(adrs, SuccessorDoesNotLinkBack(x, s));
    }
    forall x, y | x in adrs && y in adrs[x].supersedes ensures y in adrs && adrs[y].supersededBy == Some(x) {
      assert !Fault(adrs, TargetDoesNotExist(x, y)) && !Fault(adrs, TargetDoesNotLinkBack(x, y));
    }
    forall p ensures !Loop(adrs, p) {
      if Loop(adrs, p) {
        assert Fault(adrs, CycleAt(p[0]));
      }
    }
  }

  // ----- Following superseded_by ----------------------------------------------------------

  function Chain(adrs: Collection, x: string, fuel: nat): (c: seq<string>)
    ensures 0 < |c| <= fuel + 1 && c[0] == x
    decreases fuel
  {
    if fuel == 0 || x !in adrs || adrs[x].supersededBy.None? then [x]
    else [x] + Chain(adrs, adrs[x].supersededBy.value, fuel - 1)
  }

  function Head(adrs: Collection, x: string): string {
    var c := Chain(adrs, x, |adrs|);
    c[|c| - 1]
  }

  lemma {:induction false} ChainClimbs(adrs: Collection, x: string, fuel: nat)
    requires WellLinked(adrs) && x in adrs
    ensures var c := Chain(adrs, x, fuel);
      && (forall i :: 0 <= i < |c| ==> c[i] in adrs)
      && (forall i :: 0 <= i < |c| - 1 ==> adrs[c[i]].supersededBy == Some(c[i + 1]))
      && (|c| <= fuel ==> adrs[c[|c| - 1]].supersededBy.None?)
    decreases fuel
  {
    if fuel > 0 && adrs[x].supersededBy.Some? {
      var s := adrs[x].supersededBy.value;
      assert Edge(adrs, s, x);
      ChainClimbs(adrs, s, fuel - 1);
      var c, rest := Chain(adrs, x, fuel), Chain(adrs, s, fuel - 1);
      forall i | 0 <= i < |c| - 1 ensures adrs[c[i]].supersededBy == Some(c[i + 1]) {
        if i > 0 { assert c[i] == rest[i - 1] && c[i + 1] == rest[i]; }
      }
    }
  }

  lemma ChainVisitsOnce(adrs: Collection, x: string, fuel: nat, i: nat, j: nat)
    requires WellLinked(adrs) && Acyclic(adrs) && x in adrs
    requires i < j < |Chain(adrs, x, fuel)|
    ensures Chain(adrs, x, fuel)[i] != Chain(adrs, x, fuel)[j]
  {
    ChainClimbs(adrs, x, fuel);
    var c := Chain(adrs, x, fuel);
    if c[i] == c[j] {
      RepeatedStepMakesLoop(adrs, c, i, j);
    }
  }

  lemma RepeatedStepMakesLoop(adrs: Collection, c: seq<string>, i: nat, j: nat)
    requires WellLinked(adrs) && i < j < |c| && c[i] == c[j]
    requires forall k :: 0 <= k < |c| ==> c[k] in adrs
    requires forall k :: 0 <= k < |c| - 1 ==> adrs[c[k]].supersededBy == Some(c[k + 1])
    ensures !Acyclic(adrs)
  {
    var p := seq(j - i + 1, m requires 0 <= m <= j - i => c[j - m]);
    forall m | 0 <= m < |p| - 1 ensures Edge(adrs, p[m], p[m + 1]) {
      assert adrs[c[j - m - 1]].supersededBy == Some(c[j - m]);
    }
    assert Loop(adrs, p);
  }

  lemma {:induction false} DistinctFits(c: seq<string>, all: set<string>)
    requires forall i, j :: 0 <= i < j < |c| ==> c[i] != c[j]
    requires forall i :: 0 <= i < |c| ==> c[i] in all
    ensures |c| <= |all|
  {
    if c != [] {
      var last := c[|c| - 1];
      DistinctFits(c[..|c| - 1], all - {last});
      assert all == (all - {last}) + {last};
    }
  }

  lemma {:induction false} ChainIsStable(adrs: Collection, x: string, fuel: nat)
    requires |Chain(adrs, x, fuel)| <= fuel
    ensures Chain(adrs, x, fuel + 1) == Chain(adrs, x, fuel)
    decreases fuel
  {
    if fuel > 0 && x in adrs && adrs[x].supersededBy.Some? {
      ChainIsStable(adrs, adrs[x].supersededBy.value, fuel - 1);
    }
  }

  lemma ChainFits(adrs: Collection, x: string, fuel: nat)
    requires WellLinked(adrs) && Acyclic(adrs) && x in adrs
    ensures |Chain(adrs, x, fuel)| <= |adrs|
  {
    ChainClimbs(adrs, x, fuel);
    var c := Chain(adrs, x, fuel);
    forall i, j | 0 <= i < j < |c| ensures c[i] != c[j] {
      ChainVisitsOnce(adrs, x, fuel, i, j);
    }
    DistinctFits(c, adrs.Keys);
  }

  /** In a clean collection of n records every record reaches, in fewer than n steps, a head that
      is not superseded; a superseded record shares its successor's head and any other record is
      its own. */
  lemma EveryRecordHasAHead(adrs: Collection, x: string)
    requires Clean(adrs) && x in adrs
    ensures |Chain(adrs, x, |adrs|)| - 1 < |adrs|
    ensures Head(adrs, x) in adrs && adrs[Head(adrs, x)].status != Superseded
    ensures adrs[x].status != Superseded ==> Head(adrs, x) == x
    ensures adrs[x].status == Superseded ==>
      adrs[x].supersededBy.Some? && adrs[x].supersededBy.value in adrs
      && Head(adrs, x) == Head(adrs, adrs[x].supersededBy.value)
  {
    CleanMeansForest(adrs);
    ChainFits(adrs, x, |adrs|);
    ChainClimbs(adrs, x, |adrs|);
    if adrs[x].supersededBy.Some? {
      var s, n := adrs[x].supersededBy.value, |adrs|;
      assert Edge(adrs, s, x);
      assert Chain(adrs, x, n) == [x] + Chain(adrs, s, n - 1);
      ChainIsStable(adrs, s, n - 1);
    }
  }

  /** A walk along `superseded_by` from `x` that ends at a record which is not superseded. */
  ghost predicate Climb(adrs: Collection, c: seq<string>) {
    && c != [] && (forall i :: 0 <= i < |c| ==> c[i] in adrs)
    && (forall i :: 0 <= i < |c| - 1 ==> adrs[c[i]].supersededBy == Some(c[i + 1]))
    && adrs[c[|c| - 1]].status != Superseded
  }

  /** Every such walk ends at the same head, and records joined by any link lie under one head. */
  lemma {:induction false} HeadIsUnique(adrs: Collection, c: seq<string>)
    requires Clean(adrs) && Climb(adrs, c)
    ensures forall i :: 0 <= i < |c| ==> Head(adrs, c[i]) == c[|c| - 1]
  {
    EveryRecordHasAHead(adrs, c[0]);
    if |c| > 1 {
      CleanMeansForest(adrs);
      assert c[0] in adrs && adrs[c[0]].supersededBy == Some(c[0 + 1]);
      assert Climb(adrs, c[1..]);
      HeadIsUnique(adrs, c[1..]);
      forall i | 0 <= i < |c| ensures Head(adrs, c[i]) == c[|c| - 1] {
        if i > 0 { assert c[i] == c[1..][i - 1]; } else { assert c[1..][0] == c[1]; }
      }
    }
  }

  /** No record is superseded by two. */
  lemma SupersededByOne(adrs: Collection, x: string, y: string, target: string)
    requires Clean(adrs) && x in adrs && y in adrs && target in adrs[x].supersedes && target in adrs[y].supersedes
    ensures x == y && target in adrs && Head(adrs, target) == Head(adrs, x)
  {
    CleanMeansForest(adrs);
    EveryRecordHasAHead(adrs, target);
  }
}
