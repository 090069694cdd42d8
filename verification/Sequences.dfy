/** The elements of a list and whether they repeat. */
module Sequences {

  ghost function Elements<T>(s: seq<T>): set<T> {
    set x | x in s
  }

  ghost predicate Distinct<T>(s: seq<T>) {
    forall i, j :: 0 <= i < j < |s| ==> s[i] != s[j]
  }

  /** The source's test: a set of the elements is as large as the list. */
  predicate AllDistinct(s: seq<string>) {
    |(set x | x in s)| == |s|
  }

  lemma {:induction false} CountingMeansDistinct(s: seq<string>)
    ensures AllDistinct(s) <==> Distinct(s)
    ensures |(set x | x in s)| <= |s|
  {
    if s != [] {
      var init, last := s[..|s| - 1], s[|s| - 1];
      CountingMeansDistinct(init);
      assert (set x | x in s) == (set x | x in init) + {last};
      if last in init {
        var i :| 0 <= i < |init| && init[i] == last;
        assert s[i] == s[|s| - 1];
        assert (set x | x in s) == (set x | x in init);
      } else {
        assert |(set x | x in s)| == |(set x | x in init)| + 1;
        assert Distinct(init) ==> Distinct(s);
      }
    }
  }

  ghost predicate HoldsAt<T>(s: seq<T>, holds: T -> bool, i: int) {
    0 <= i < |s| && holds(s[i])
  }

  /** How many elements it holds of. */
  ghost function HowMany<T>(s: seq<T>, holds: T -> bool): nat {
    |set i | 0 <= i < |s| && HoldsAt(s, holds, i)|
  }

  lemma HowManyWithOneMore<T>(s: seq<T>, x: T, holds: T -> bool)
    ensures HowMany(s + [x], holds) == HowMany(s, holds) + if holds(x) then 1 else 0
  {
    var before := set i | 0 <= i < |s| && HoldsAt(s, holds, i);
    var after := set i | 0 <= i < |s + [x]| && HoldsAt(s + [x], holds, i);
    assert forall i :: 0 <= i < |s| ==> (HoldsAt(s + [x], holds, i) <==> HoldsAt(s, holds, i));
    assert after == before + if holds(x) then {|s|} else {};
  }
}
