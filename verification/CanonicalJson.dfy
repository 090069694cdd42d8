/** The equality test of the redrive: print both envelopes with sorted keys and compare the text.
    `leq` is the collation behind `localeCompare`; it may hold two distinct keys for equal. */
module CanonicalJson {
  import opened StableSort
  import opened JsonText

  // ----- Sorting the keys of an object ----------------------------------------------------

  function InsertMember(leq: (string, string) -> bool, key: string, value: Json, m: Members): Members {
    match m
    case NoMembers => Member(key, value, NoMembers)
    case Member(k, v, rest) =>
      if leq(key, k) then Member(key, value, m) else Member(k, v, InsertMember(leq, key, value, rest))
  }

  function SortMembers(leq: (string, string) -> bool, m: Members): Members {
    match m
    case NoMembers => NoMembers
    case Member(k, v, rest) => InsertMember(leq, k, v, SortMembers(leq, rest))
  }

  function Canon(leq: (string, string) -> bool, v: Json): Json
    decreases v, 1
  {
    match v
    case Arr(items) => Arr(CanonItems(leq, items))
    case Obj(members) => Obj(SortMembers(leq, CanonMembers(leq, members)))
    case _ => v
  }

  function CanonItems(leq: (string, string) -> bool, items: Items): Items
    decreases items, 0
  {
    match items
    case NoItems => NoItems
    case Item(head, tail) => Item(Canon(leq, head), CanonItems(leq, tail))
  }

  function CanonMembers(leq: (string, string) -> bool, m: Members): Members
    decreases m, 0
  {
    match m
    case NoMembers => NoMembers
    case Member(k, v, rest) => Member(k, Canon(leq, v), CanonMembers(leq, rest))
  }

  function CanonicalText(leq: (string, string) -> bool, v: Json): string {
    Text(Canon(leq, v))
  }

  predicate SameEnvelope(leq: (string, string) -> bool, left: Json, right: Json) {
    CanonicalText(leq, left) == CanonicalText(leq, right)
  }

  // ----- What a value means, whatever the order of its keys --------------------------------

  datatype Value =
    | VNull
    | VBool(b: bool)
    | VNumber(text: string)
    | VString(s: string)
    | VArray(items: Values)
    | VObject(members: map<string, Value>)

  datatype Values = VNil | VCons(head: Value, tail: Values)

  function Meaning(v: Json): Value {
    match v
    case Null => VNull
    case Bool(b) => VBool(b)
    case Number(text) => VNumber(text)
    case Str(s) => VString(s)
    case Arr(items) => VArray(ItemsMeaning(items))
    case Obj(members) => VObject(MembersMeaning(members))
  }

  function ItemsMeaning(items: Items): Values {
    match items
    case NoItems => VNil
    case Item(head, tail) => VCons(Meaning(head), ItemsMeaning(tail))
  }

  function MembersMeaning(m: Members): (r: map<string, Value>)
    ensures r.Keys == Keys(m)
  {
    match m
    case NoMembers => map[]
    case Member(k, v, rest) => MembersMeaning(rest)[k := Meaning(v)]
  }

  predicate DistinctKeys(m: Members) {
    m.Member? ==> m.key !in Keys(m.rest) && DistinctKeys(m.rest)
  }

  lemma {:induction false} WellFormedKeysAreDistinct(m: Members)
    requires MembersWellFormed(m)
    ensures DistinctKeys(m)
  {
    if m.Member? {
      WellFormedKeysAreDistinct(m.rest);
    }
  }

  // ----- Sorting and canonical forms keep the meaning --------------------------------------

  lemma {:induction false} InsertKeepsMembers(leq: (string, string) -> bool, key: string, value: Json, m: Members)
    requires key !in Keys(m) && DistinctKeys(m)
    ensures var r := InsertMember(leq, key, value, m);
      Keys(r) == Keys(m) + {key} && DistinctKeys(r)
  {
    if m.Member? && !leq(key, m.key) {
      InsertKeepsMembers(leq, key, value, m.rest);
    }
  }

  lemma {:induction false} InsertKeepsMeaning(leq: (string, string) -> bool, key: string, value: Json, m: Members)
    requires key !in Keys(m)
    ensures MembersMeaning(InsertMember(leq, key, value, m)) == MembersMeaning(m)[key := Meaning(value)]
  {
    if m.Member? && !leq(key, m.key) {
      InsertKeepsMeaning(leq, key, value, m.rest);
    }
  }

  lemma {:induction false} InsertKeepsWellFormed(leq: (string, string) -> bool, key: string, value: Json, m: Members)
    requires key !in Keys(m) && MembersWellFormed(m) && WellFormed(value)
    ensures MembersWellFormed(InsertMember(leq, key, value, m))
      && Keys(InsertMember(leq, key, value, m)) == Keys(m) + {key}
  {
    if m.Member? && !leq(key, m.key) {
      InsertKeepsWellFormed(leq, key, value, m.rest);
    }
  }

  lemma {:induction false} SortKeepsMembers(leq: (string, string) -> bool, m: Members)
    requires DistinctKeys(m)
    ensures var r := SortMembers(leq, m);
      Keys(r) == Keys(m) && DistinctKeys(r) && MembersMeaning(r) == MembersMeaning(m)
    ensures MembersWellFormed(m) ==> MembersWellFormed(SortMembers(leq, m))
  {
    if m.Member? {
      SortKeepsMembers(leq, m.rest);
      InsertKeepsMembers(leq, m.key, m.value, SortMembers(leq, m.rest));
      InsertKeepsMeaning(leq, m.key, m.value, SortMembers(leq, m.rest));
      if MembersWellFormed(m) {
        InsertKeepsWellFormed(leq, m.key, m.value, SortMembers(leq, m.rest));
      }
    }
  }

  lemma {:induction false} CanonKeepsMeaning(leq: (string, string) -> bool, v: Json)
    requires WellFormed(v)
    ensures WellFormed(Canon(leq, v)) && Meaning(Canon(leq, v)) == Meaning(v)
    decreases v, 1
  {
    match v
    case Arr(items) => CanonItemsKeepMeaning(leq, items);
    case Obj(members) =>
      CanonMembersKeepMeaning(leq, members);
      WellFormedKeysAreDistinct(CanonMembers(leq, members));
      SortKeepsMembers(leq, CanonMembers(leq, members));
    case _ =>
  }

  lemma {:induction false} CanonItemsKeepMeaning(leq: (string, string) -> bool, items: Items)
    requires ItemsWellFormed(items)
    ensures ItemsWellFormed(CanonItems(leq, items)) && ItemsMeaning(CanonItems(leq, items)) == ItemsMeaning(items)
    decreases items, 0
  {
    if items.Item? {
      CanonKeepsMeaning(leq, items.head);
      CanonItemsKeepMeaning(leq, items.tail);
    }
  }

  lemma {:induction false} CanonMembersKeepMeaning(leq: (string, string) -> bool, m: Members)
    requires MembersWellFormed(m)
    ensures var r := CanonMembers(leq, m);
      MembersWellFormed(r) && Keys(r) == Keys(m) && MembersMeaning(r) == MembersMeaning(m)
    decreases m, 0
  {
    if m.Member? {
      CanonKeepsMeaning(leq, m.value);
      CanonMembersKeepMeaning(leq, m.rest);
    }
  }

  /** Equal text is never a coincidence: it means the same value, whatever the collation does. */
  lemma SameTextMeansSameValue(leq: (string, string) -> bool, left: Json, right: Json)
    requires WellFormed(left) && WellFormed(right) && SameEnvelope(leq, left, right)
    ensures Meaning(left) == Meaning(right)
  {
    CanonKeepsMeaning(leq, left);
    CanonKeepsMeaning(leq, right);
    TextDeterminesTheValue(Canon(leq, left), Canon(leq, right));
  }

  // ----- Equal values print alike unless the collation ties two of their keys --------------

  predicate Tied(leq: (string, string) -> bool, k: string, l: string) {
    leq(k, l) && leq(l, k)
  }

  predicate TiesNone(leq: (string, string) -> bool, keys: set<string>) {
    forall k, l :: k in keys && l in keys && Tied(leq, k, l) ==> k == l
  }

  /** No object in the value has two distinct keys that the collation holds for equal. */
  predicate NoTiedKeys(leq: (string, string) -> bool, v: Json)
    decreases v, 1
  {
    match v
    case Arr(items) => NoTiedKeysInItems(leq, items)
    case Obj(members) => TiesNone(leq, Keys(members)) && NoTiedKeysInMembers(leq, members)
    case _ => true
  }

  predicate NoTiedKeysInItems(leq: (string, string) -> bool, items: Items)
    decreases items, 0
  {
    items.Item? ==> NoTiedKeys(leq, items.head) && NoTiedKeysInItems(leq, items.tail)
  }

  predicate NoTiedKeysInMembers(leq: (string, string) -> bool, m: Members)
    decreases m, 0
  {
    m.Member? ==> NoTiedKeys(leq, m.value) && NoTiedKeysInMembers(leq, m.rest)
  }

  predicate SortedMembers(leq: (string, string) -> bool, m: Members) {
    m.Member? ==> (forall k :: k in Keys(m.rest) ==> leq(m.key, k)) && SortedMembers(leq, m.rest)
  }

  lemma {:induction false} InsertKeysAre(leq: (string, string) -> bool, key: string, value: Json, m: Members)
    ensures Keys(InsertMember(leq, key, value, m)) == Keys(m) + {key}
  {
    if m.Member? && !leq(key, m.key) {
      InsertKeysAre(leq, key, value, m.rest);
    }
  }

  lemma {:induction false} InsertStaysSorted(leq: (string, string) -> bool, key: string, value: Json, m: Members)
    requires TotalPreorder(leq) && SortedMembers(leq, m)
    ensures SortedMembers(leq, InsertMember(leq, key, value, m))
  {
    if m.Member? {
      if leq(key, m.key) {
        forall k | k in Keys(m)
          ensures leq(key, k)
        {
          assert leq(m.key, m.key);
          assert leq(m.key, k);
        }
      } else {
        InsertStaysSorted(leq, key, value, m.rest);
        InsertKeysAre(leq, key, value, m.rest);
      }
    }
  }

  lemma {:induction false} SortSorts(leq: (string, string) -> bool, m: Members)
    requires TotalPreorder(leq)
    ensures SortedMembers(leq, SortMembers(leq, m))
  {
    if m.Member? {
      SortSorts(leq, m.rest);
      InsertStaysSorted(leq, m.key, m.value, SortMembers(leq, m.rest));
    }
  }

  function Lookup(m: Members, k: string): (v: Json)
    requires k in Keys(m)
    ensures v < m
  {
    if m.key == k then m.value else Lookup(m.rest, k)
  }

  /** Two sorted lists of the same members, no two keys tied, are one list. */
  lemma {:induction false} SortedMembersAreUnique(leq: (string, string) -> bool, a: Members, b: Members)
    requires DistinctKeys(a) && DistinctKeys(b) && Keys(a) == Keys(b) && TiesNone(leq, Keys(a))
    requires SortedMembers(leq, a) && SortedMembers(leq, b) && TotalPreorder(leq)
    requires forall k :: k in Keys(a) ==> Lookup(a, k) == Lookup(b, k)
    ensures a == b
    decreases a
  {
    if a.Member? {
      assert a.key in Keys(b);
      assert b.key in Keys(a);
      assert Tied(leq, a.key, b.key);
      assert Lookup(a, a.key) == Lookup(b, a.key);
      assert Keys(a.rest) == Keys(a) - {a.key} == Keys(b.rest);
      forall k | k in Keys(a.rest)
        ensures Lookup(a.rest, k) == Lookup(b.rest, k)
      {
        assert Lookup(a, k) == Lookup(b, k);
      }
      SortedMembersAreUnique(leq, a.rest, b.rest);
    } else {
      assert Keys(b) == {};
    }
  }

  lemma {:induction false} InsertLooksUp(leq: (string, string) -> bool, key: string, value: Json, m: Members, k: string)
    requires key !in Keys(m) && (k == key || k in Keys(m))
    ensures k in Keys(InsertMember(leq, key, value, m))
    ensures Lookup(InsertMember(leq, key, value, m), k) == if k == key then value else Lookup(m, k)
  {
    InsertKeysAre(leq, key, value, m);
    if m.Member? && !leq(key, m.key) {
      InsertKeysAre(leq, key, value, m.rest);
      if k != m.key {
        InsertLooksUp(leq, key, value, m.rest, k);
      }
    }
  }

  lemma {:induction false} SortLooksUp(leq: (string, string) -> bool, m: Members, k: string)
    requires DistinctKeys(m) && k in Keys(m)
    ensures k in Keys(SortMembers(leq, m)) && Lookup(SortMembers(leq, m), k) == Lookup(m, k)
  {
    SortKeepsMembers(leq, m.rest);
    InsertLooksUp(leq, m.key, m.value, SortMembers(leq, m.rest), k);
    if k != m.key {
      SortLooksUp(leq, m.rest, k);
    }
  }

  lemma {:induction false} CanonLooksUp(leq: (string, string) -> bool, m: Members, k: string)
    requires k in Keys(m)
    ensures k in Keys(CanonMembers(leq, m)) && Lookup(CanonMembers(leq, m), k) == Canon(leq, Lookup(m, k))
  {
    if k != m.key {
      CanonLooksUp(leq, m.rest, k);
    }
  }

  lemma {:induction false} LookupKeepsWhatMembersHave(leq: (string, string) -> bool, m: Members, k: string)
    requires k in Keys(m)
    ensures MembersMeaning(m)[k] == Meaning(Lookup(m, k))
    ensures MembersWellFormed(m) ==> WellFormed(Lookup(m, k))
    ensures NoTiedKeysInMembers(leq, m) ==> NoTiedKeys(leq, Lookup(m, k))
  {
    if k != m.key {
      LookupKeepsWhatMembersHave(leq, m.rest, k);
    }
  }

  /** The member list that `canonicalJson` prints for an object. */
  function Printed(leq: (string, string) -> bool, m: Members): Members {
    SortMembers(leq, CanonMembers(leq, m))
  }

  lemma PrintedMembers(leq: (string, string) -> bool, m: Members)
    requires MembersWellFormed(m) && TotalPreorder(leq)
    ensures Keys(Printed(leq, m)) == Keys(m) && DistinctKeys(Printed(leq, m)) && SortedMembers(leq, Printed(leq, m))
    ensures forall k :: k in Keys(m) ==> Lookup(Printed(leq, m), k) == Canon(leq, Lookup(m, k))
  {
    CanonMembersKeepMeaning(leq, m);
    WellFormedKeysAreDistinct(CanonMembers(leq, m));
    SortKeepsMembers(leq, CanonMembers(leq, m));
    SortSorts(leq, CanonMembers(leq, m));
    forall k | k in Keys(m)
      ensures Lookup(Printed(leq, m), k) == Canon(leq, Lookup(m, k))
    {
      CanonLooksUp(leq, m, k);
      SortLooksUp(leq, CanonMembers(leq, m), k);
    }
  }

  lemma {:induction false} SameValueHasSameCanon(leq: (string, string) -> bool, a: Json, b: Json)
    requires TotalPreorder(leq) && WellFormed(a) && WellFormed(b) && NoTiedKeys(leq, a) && Meaning(a) == Meaning(b)
    ensures Canon(leq, a) == Canon(leq, b)
    decreases a, 1
  {
    match a
    case Arr(items) => SameItemsHaveSameCanon(leq, items, b.items);
    case Obj(members) =>
      assert Keys(members) == Keys(b.members);
      PrintedMembers(leq, members);
      PrintedMembers(leq, b.members);
      forall k | k in Keys(members)
        ensures Lookup(Printed(leq, members), k) == Lookup(Printed(leq, b.members), k)
      {
        LookupKeepsWhatMembersHave(leq, members, k);
        LookupKeepsWhatMembersHave(leq, b.members, k);
        SameValueHasSameCanon(leq, Lookup(members, k), Lookup(b.members, k));
      }
      SortedMembersAreUnique(leq, Printed(leq, members), Printed(leq, b.members));
    case _ =>
  }

  lemma {:induction false} SameItemsHaveSameCanon(leq: (string, string) -> bool, a: Items, b: Items)
    requires TotalPreorder(leq) && ItemsWellFormed(a) && ItemsWellFormed(b) && NoTiedKeysInItems(leq, a)
    requires ItemsMeaning(a) == ItemsMeaning(b)
    ensures CanonItems(leq, a) == CanonItems(leq, b)
    decreases a, 0
  {
    if a.Item? {
      SameValueHasSameCanon(leq, a.head, b.head);
      SameItemsHaveSameCanon(leq, a.tail, b.tail);
    }
  }

  /** Without tied keys the text comparison is structural equality, in both directions. */
  lemma SameEnvelopeIsStructuralEquality(leq: (string, string) -> bool, left: Json, right: Json)
    requires TotalPreorder(leq) && WellFormed(left) && WellFormed(right) && NoTiedKeys(leq, left)
    ensures SameEnvelope(leq, left, right) <==> Meaning(left) == Meaning(right)
  {
    if Meaning(left) == Meaning(right) {
      SameValueHasSameCanon(leq, left, right);
    } else if SameEnvelope(leq, left, right) {
      SameTextMeansSameValue(leq, left, right);
    }
  }

  // ----- With tied keys it is not: the value with every object's keys listed backwards -----

  function Append(m: Members, key: string, value: Json): Members {
    match m
    case NoMembers => Member(key, value, NoMembers)
    case Member(k, v, rest) => Member(k, v, Append(rest, key, value))
  }

  function Mirror(v: Json): Json {
    match v
    case Arr(items) => Arr(MirrorItems(items))
    case Obj(members) => Obj(MirrorMembers(members))
    case _ => v
  }

  function MirrorItems(items: Items): Items {
    match items
    case NoItems => NoItems
    case Item(head, tail) => Item(Mirror(head), MirrorItems(tail))
  }

  function MirrorMembers(m: Members): Members {
    match m
    case NoMembers => NoMembers
    case Member(k, v, rest) => Append(MirrorMembers(rest), k, Mirror(v))
  }

  lemma {:induction false} AppendKeepsMembers(m: Members, key: string, value: Json)
    requires key !in Keys(m) && MembersWellFormed(m) && WellFormed(value)
    ensures MembersWellFormed(Append(m, key, value)) && Keys(Append(m, key, value)) == Keys(m) + {key}
  {
    if m.Member? {
      AppendKeepsMembers(m.rest, key, value);
    }
  }

  lemma {:induction false} AppendKeepsMeaning(m: Members, key: string, value: Json)
    requires key !in Keys(m)
    ensures MembersMeaning(Append(m, key, value)) == MembersMeaning(m)[key := Meaning(value)]
  {
    if m.Member? {
      AppendKeepsMeaning(m.rest, key, value);
    }
  }

  lemma {:induction false} AppendLooksUp(m: Members, key: string, value: Json, k: string)
    requires key !in Keys(m) && (k == key || k in Keys(m))
    ensures k in Keys(Append(m, key, value))
    ensures Lookup(Append(m, key, value), k) == if k == key then value else Lookup(m, k)
  {
    if m.Member? && k != m.key {
      AppendLooksUp(m.rest, key, value, k);
    }
  }

  lemma {:induction false} MirrorKeepsMeaning(v: Json)
    requires WellFormed(v)
    ensures WellFormed(Mirror(v)) && Meaning(Mirror(v)) == Meaning(v)
  {
    match v
    case Arr(items) => MirrorItemsKeepMeaning(items);
    case Obj(members) => MirrorMembersKeepMeaning(members);
    case _ =>
  }

  lemma {:induction false} MirrorItemsKeepMeaning(items: Items)
    requires ItemsWellFormed(items)
    ensures ItemsWellFormed(MirrorItems(items)) && ItemsMeaning(MirrorItems(items)) == ItemsMeaning(items)
  {
    if items.Item? {
      MirrorKeepsMeaning(items.head);
      MirrorItemsKeepMeaning(items.tail);
    }
  }

  lemma {:induction false} MirrorMembersKeepMeaning(m: Members)
    requires MembersWellFormed(m)
    ensures var r := MirrorMembers(m);
      MembersWellFormed(r) && Keys(r) == Keys(m) && MembersMeaning(r) == MembersMeaning(m)
  {
    if m.Member? {
      MirrorKeepsMeaning(m.value);
      MirrorMembersKeepMeaning(m.rest);
      AppendKeepsMembers(MirrorMembers(m.rest), m.key, Mirror(m.value));
      AppendKeepsMeaning(MirrorMembers(m.rest), m.key, Mirror(m.value));
    }
  }

  lemma {:induction false} MirrorLooksUp(m: Members, k: string)
    requires MembersWellFormed(m) && k in Keys(m)
    ensures k in Keys(MirrorMembers(m)) && Lookup(MirrorMembers(m), k) == Mirror(Lookup(m, k))
  {
    MirrorMembersKeepMeaning(m.rest);
    AppendLooksUp(MirrorMembers(m.rest), m.key, Mirror(m.value), k);
    if k != m.key {
      MirrorLooksUp(m.rest, k);
    }
  }

  /** The keys tied with `k`, in the order in which they are listed. */
  function TiedKeys(leq: (string, string) -> bool, m: Members, k: string): seq<string> {
    match m
    case NoMembers => []
    case Member(key, _, rest) => (if Tied(leq, key, k) then [key] else []) + TiedKeys(leq, rest, k)
  }

  function Backwards(s: seq<string>): seq<string> {
    if s == [] then [] else Backwards(s[1..]) + [s[0]]
  }

  lemma TiesMeet(leq: (string, string) -> bool, key: string, other: string, k: string)
    requires TotalPreorder(leq)
    ensures Tied(leq, key, k) && Tied(leq, other, k) ==> leq(key, other)
  {
    if Tied(leq, key, k) && Tied(leq, other, k) {
      assert leq(key, k) && leq(k, other);
    }
  }

  lemma {:induction false} InsertIsStable(leq: (string, string) -> bool, key: string, value: Json, m: Members,
      k: string)
    requires TotalPreorder(leq)
    ensures TiedKeys(leq, InsertMember(leq, key, value, m), k)
      == (if Tied(leq, key, k) then [key] else []) + TiedKeys(leq, m, k)
  {
    if m.Member? && !leq(key, m.key) {
      InsertIsStable(leq, key, value, m.rest, k);
      TiesMeet(leq, key, m.key, k);
    }
  }

  /** Keys that the collation ties keep the order in which the object lists them. */
  lemma {:induction false} SortIsStable(leq: (string, string) -> bool, m: Members, k: string)
    requires TotalPreorder(leq)
    ensures TiedKeys(leq, SortMembers(leq, m), k) == TiedKeys(leq, m, k)
  {
    if m.Member? {
      SortIsStable(leq, m.rest, k);
      InsertIsStable(leq, m.key, m.value, SortMembers(leq, m.rest), k);
    }
  }

  lemma {:induction false} CanonKeepsKeyOrder(leq: (string, string) -> bool, m: Members, k: string)
    ensures TiedKeys(leq, CanonMembers(leq, m), k) == TiedKeys(leq, m, k)
  {
    if m.Member? {
      CanonKeepsKeyOrder(leq, m.rest, k);
    }
  }

  lemma {:induction false} AppendedTiedKeys(leq: (string, string) -> bool, m: Members, key: string, value: Json,
      k: string)
    ensures TiedKeys(leq, Append(m, key, value), k) == TiedKeys(leq, m, k) + if Tied(leq, key, k) then [key] else []
  {
    if m.Member? {
      AppendedTiedKeys(leq, m.rest, key, value, k);
    }
  }

  lemma {:induction false} MirrorReversesTiedKeys(leq: (string, string) -> bool, m: Members, k: string)
    ensures TiedKeys(leq, MirrorMembers(m), k) == Backwards(TiedKeys(leq, m, k))
  {
    if m.Member? {
      MirrorReversesTiedKeys(leq, m.rest, k);
      AppendedTiedKeys(leq, MirrorMembers(m.rest), m.key, Mirror(m.value), k);
      var rest := TiedKeys(leq, m.rest, k);
      assert ([m.key] + rest)[1..] == rest;
      if !Tied(leq, m.key, k) {
        assert TiedKeys(leq, m, k) == rest;
      }
    }
  }

  lemma {:induction false} BackwardsEnds(s: seq<string>)
    ensures |Backwards(s)| == |s| && (s != [] ==> Backwards(s)[|s| - 1] == s[0])
  {
    if s != [] {
      BackwardsEnds(s[1..]);
    }
  }

  lemma {:induction false} TiedKeysAreListedOnce(leq: (string, string) -> bool, m: Members, k: string)
    requires DistinctKeys(m)
    ensures forall i, j :: 0 <= i < j < |TiedKeys(leq, m, k)| ==> TiedKeys(leq, m, k)[i] != TiedKeys(leq, m, k)[j]
    ensures forall x :: x in TiedKeys(leq, m, k) <==> x in Keys(m) && Tied(leq, x, k)
  {
    if m.Member? {
      TiedKeysAreListedOnce(leq, m.rest, k);
    }
  }

  lemma TiedKeysAreNotTheirOwnReverse(leq: (string, string) -> bool, m: Members, k: string, l: string)
    requires DistinctKeys(m) && TotalPreorder(leq) && k in Keys(m) && l in Keys(m) && Tied(leq, k, l) && k != l
    ensures TiedKeys(leq, m, k) != Backwards(TiedKeys(leq, m, k))
  {
    var tied := TiedKeys(leq, m, k);
    TiedKeysAreListedOnce(leq, m, k);
    BackwardsEnds(tied);
    assert k in tied && l in tied;
    assert |tied| > 1;
    assert tied[|tied| - 1] != tied[0];
  }

  lemma MirroredObjectPrintsAlikeOnlyWithoutTies(leq: (string, string) -> bool, m: Members)
    requires TotalPreorder(leq) && MembersWellFormed(m) && Printed(leq, MirrorMembers(m)) == Printed(leq, m)
    ensures TiesNone(leq, Keys(m))
  {
    WellFormedKeysAreDistinct(m);
    forall k, l | k in Keys(m) && l in Keys(m) && Tied(leq, k, l)
      ensures k == l
    {
      if k != l {
        TiedKeysAreNotTheirOwnReverse(leq, m, k, l);
        MirrorReversesTiedKeys(leq, m, k);
        CanonKeepsKeyOrder(leq, m, k);
        CanonKeepsKeyOrder(leq, MirrorMembers(m), k);
        SortIsStable(leq, CanonMembers(leq, m), k);
        SortIsStable(leq, CanonMembers(leq, MirrorMembers(m)), k);
        assert false;
      }
    }
  }

  lemma {:induction false} MirroredPrintsAlikeOnlyWithoutTies(leq: (string, string) -> bool, v: Json)
    requires TotalPreorder(leq) && WellFormed(v) && Canon(leq, Mirror(v)) == Canon(leq, v)
    ensures NoTiedKeys(leq, v)
    decreases v, 2
  {
    match v
    case Arr(items) => MirroredItemsPrintAlikeOnlyWithoutTies(leq, items);
    case Obj(members) =>
      MirroredObjectPrintsAlikeOnlyWithoutTies(leq, members);
      MirrorMembersKeepMeaning(members);
      PrintedMembers(leq, members);
      PrintedMembers(leq, MirrorMembers(members));
      forall k | k in Keys(members)
        ensures NoTiedKeys(leq, Lookup(members, k))
      {
        MirrorLooksUp(members, k);
        LookupKeepsWhatMembersHave(leq, members, k);
        MirroredPrintsAlikeOnlyWithoutTies(leq, Lookup(members, k));
      }
      WellFormedKeysAreDistinct(members);
      NoTiesInAnyMember(leq, members);
    case _ =>
  }

  lemma {:induction false} MirroredItemsPrintAlikeOnlyWithoutTies(leq: (string, string) -> bool, items: Items)
    requires TotalPreorder(leq) && ItemsWellFormed(items)
      && CanonItems(leq, MirrorItems(items)) == CanonItems(leq, items)
    ensures NoTiedKeysInItems(leq, items)
    decreases items, 1
  {
    if items.Item? {
      MirroredPrintsAlikeOnlyWithoutTies(leq, items.head);
      MirroredItemsPrintAlikeOnlyWithoutTies(leq, items.tail);
    }
  }

  lemma {:induction false} NoTiesInAnyMember(leq: (string, string) -> bool, m: Members)
    requires DistinctKeys(m) && forall k :: k in Keys(m) ==> NoTiedKeys(leq, Lookup(m, k))
    ensures NoTiedKeysInMembers(leq, m)
  {
    if m.Member? {
      assert m.value == Lookup(m, m.key);
      forall k | k in Keys(m.rest)
        ensures NoTiedKeys(leq, Lookup(m.rest, k))
      {
        assert Lookup(m, k) == Lookup(m.rest, k);
      }
      NoTiesInAnyMember(leq, m.rest);
    }
  }

  /** The comparison recognises every reordering of a JSON value exactly when no object in it has two
      keys that the collation ties. With such keys it calls some reordering of the value a change. */
  lemma EqualValuesPrintAlikeExactlyWithoutTiedKeys(leq: (string, string) -> bool, v: Json)
    requires TotalPreorder(leq) && WellFormed(v)
    ensures NoTiedKeys(leq, v) <==>
      (forall w :: WellFormed(w) && Meaning(w) == Meaning(v) ==> SameEnvelope(leq, v, w))
  {
    MirrorKeepsMeaning(v);
    if NoTiedKeys(leq, v) {
      forall w | WellFormed(w) && Meaning(w) == Meaning(v)
        ensures SameEnvelope(leq, v, w)
      {
        SameEnvelopeIsStructuralEquality(leq, v, w);
      }
    } else if forall w :: WellFormed(w) && Meaning(w) == Meaning(v) ==> SameEnvelope(leq, v, w) {
      assert SameEnvelope(leq, v, Mirror(v));
      CanonKeepsMeaning(leq, v);
      CanonKeepsMeaning(leq, Mirror(v));
      TextDeterminesTheValue(Canon(leq, v), Canon(leq, Mirror(v)));
      MirroredPrintsAlikeOnlyWithoutTies(leq, v);
    }
  }

  // ----- Values whose keys come from a fixed set ---------------------------------------------

  /** Every object in the value uses only keys of the set. */
  predicate KeysWithin(keys: set<string>, v: Json)
    decreases v, 1
  {
    match v
    case Arr(items) => ItemKeysWithin(keys, items)
    case Obj(members) => MemberKeysWithin(keys, members)
    case _ => true
  }

  predicate ItemKeysWithin(keys: set<string>, items: Items)
    decreases items, 0
  {
    items.Item? ==> KeysWithin(keys, items.head) && ItemKeysWithin(keys, items.tail)
  }

  predicate MemberKeysWithin(keys: set<string>, m: Members)
    decreases m, 0
  {
    m.Member? ==> m.key in keys && KeysWithin(keys, m.value) && MemberKeysWithin(keys, m.rest)
  }

  /** A collation that keeps the keys of a set apart ties no keys in any value built from them. */
  lemma {:induction false} SeparatedKeysAreNotTied(leq: (string, string) -> bool, keys: set<string>, v: Json)
    requires TiesNone(leq, keys) && KeysWithin(keys, v)
    ensures NoTiedKeys(leq, v)
    decreases v, 1
  {
    match v
    case Arr(items) => SeparatedItemKeysAreNotTied(leq, keys, items);
    case Obj(members) => SeparatedMemberKeysAreNotTied(leq, keys, members);
    case _ =>
  }

  lemma {:induction false} SeparatedItemKeysAreNotTied(leq: (string, string) -> bool, keys: set<string>, items: Items)
    requires TiesNone(leq, keys) && ItemKeysWithin(keys, items)
    ensures NoTiedKeysInItems(leq, items)
    decreases items, 0
  {
    if items.Item? {
      SeparatedKeysAreNotTied(leq, keys, items.head);
      SeparatedItemKeysAreNotTied(leq, keys, items.tail);
    }
  }

  lemma {:induction false} SeparatedMemberKeysAreNotTied(leq: (string, string) -> bool, keys: set<string>, m: Members)
    requires TiesNone(leq, keys) && MemberKeysWithin(keys, m)
    ensures Keys(m) <= keys && NoTiedKeysInMembers(leq, m)
    decreases m, 0
  {
    if m.Member? {
      SeparatedKeysAreNotTied(leq, keys, m.value);
      SeparatedMemberKeysAreNotTied(leq, keys, m.rest);
    }
  }
}
