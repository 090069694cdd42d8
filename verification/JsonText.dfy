/** JSON values and their compact text, and that the text determines the value. */
module JsonText {

  /** A number is carried as the text that JSON.stringify prints for it. */
  datatype Json =
    | Null
    | Bool(b: bool)
    | Number(text: string)
    | Str(s: string)
    | Arr(items: Items)
    | Obj(members: Members)

  datatype Items = NoItems | Item(head: Json, tail: Items)

  datatype Members = NoMembers | Member(key: string, value: Json, rest: Members)

  predicate NumberChar(c: char) {
    '0' <= c <= '9' || c == '-' || c == '+' || c == '.' || c == 'e'
  }

  /** Digits with an optional sign, fraction and exponent start with a digit or a minus. */
  predicate NumberText(text: string) {
    && text != [] && ('0' <= text[0] <= '9' || text[0] == '-')
    && forall i :: 0 <= i < |text| ==> NumberChar(text[i])
  }

  function Keys(m: Members): set<string> {
    match m
    case NoMembers => {}
    case Member(key, _, rest) => {key} + Keys(rest)
  }

  /** Numbers are printed numbers and no object has a key twice. */
  predicate WellFormed(v: Json) {
    match v
    case Number(text) => NumberText(text)
    case Arr(items) => ItemsWellFormed(items)
    case Obj(members) => MembersWellFormed(members)
    case _ => true
  }

  predicate ItemsWellFormed(items: Items) {
    items.Item? ==> WellFormed(items.head) && ItemsWellFormed(items.tail)
  }

  predicate MembersWellFormed(m: Members) {
    m.Member? ==> m.key !in Keys(m.rest) && WellFormed(m.value) && MembersWellFormed(m.rest)
  }

  // ----- Printing -------------------------------------------------------------------------

  function HexDigit(n: nat): char
    requires n < 16
  {
    if n < 10 then '0' + n as char else 'a' + (n - 10) as char
  }

  function EscapeChar(c: char): string {
    if c == '\"' then "\\\""
    else if c == '\\' then "\\\\"
    else if c == '\U{8}' then "\\b"
    else if c == '\t' then "\\t"
    else if c == '\n' then "\\n"
    else if c == '\U{c}' then "\\f"
    else if c == '\r' then "\\r"
    else if c < ' ' then "\\u00" + [HexDigit(c as nat / 16), HexDigit(c as nat % 16)]
    else [c]
  }

  function Escape(s: string): string {
    if s == [] then [] else EscapeChar(s[0]) + Escape(s[1..])
  }

  function Quote(s: string): string {
    "\"" + Escape(s) + "\""
  }

  function Text(v: Json): string {
    match v
    case Null => "null"
    case Bool(b) => if b then "true" else "false"
    case Number(text) => text
    case Str(s) => Quote(s)
    case Arr(items) => "[" + ItemsText(items) + "]"
    case Obj(members) => "{" + MembersText(members) + "}"
  }

  function ItemsText(items: Items): string {
    match items
    case NoItems => ""
    case Item(head, tail) => Text(head) + if tail.NoItems? then "" else "," + ItemsText(tail)
  }

  function MembersText(m: Members): string {
    match m
    case NoMembers => ""
    case Member(key, value, rest) =>
      Quote(key) + ":" + Text(value) + if rest.NoMembers? then "" else "," + MembersText(rest)
  }

  // ----- Reading back is unambiguous ------------------------------------------------------

  /** What may follow a value: nothing, a comma or a closing bracket. */
  predicate Ends(x: string) {
    x == [] || x[0] == ',' || x[0] == ']' || x[0] == '}'
  }

  lemma SplitHere(p: string, q: string, x: string, y: string)
    requires p + x == q + y && |p| == |q|
    ensures p == q && x == y
  {
    assert p == (p + x)[..|p|] && q == (q + y)[..|q|];
    assert x == (p + x)[|p|..] && y == (q + y)[|q|..];
  }

  lemma Regroup(a: string, b: string, c: string)
    ensures (a + b) + c == a + (b + c)
  {
  }

  lemma RegroupFive(a: string, b: string, c: string, d: string, e: string)
    ensures (((a + b) + c) + d) + e == a + (b + (c + (d + e)))
  {
    Regroup(a + b + c, d, e);
    Regroup(a + b, c, d + e);
    Regroup(a, b, c + (d + e));
  }

  lemma HexDigitsDiffer(m: nat, n: nat)
    requires m < 16 && n < 16 && HexDigit(m) == HexDigit(n)
    ensures m == n
  {
  }

  lemma EscapedCharIsUnambiguous(c: char, d: char, x: string, y: string)
    requires EscapeChar(c) + x == EscapeChar(d) + y
    ensures c == d && x == y
  {
    var p, q := EscapeChar(c), EscapeChar(d);
    assert (p + x)[0] == p[0] && (q + y)[0] == q[0];
    if p[0] == '\\' {
      assert (p + x)[1] == p[1] && (q + y)[1] == q[1];
      if p[1] == 'u' {
        assert (p + x)[4] == p[4] && (q + y)[4] == q[4] && (p + x)[5] == p[5] && (q + y)[5] == q[5];
        HexDigitsDiffer(c as nat / 16, d as nat / 16);
        HexDigitsDiffer(c as nat % 16, d as nat % 16);
      }
    }
    SplitHere(p, q, x, y);
  }

  lemma EscapeNeverStartsWithAQuote(c: char, p: string, x: string)
    ensures EscapeChar(c) + p != "\"" + x
  {
    assert (EscapeChar(c) + p)[0] == EscapeChar(c)[0] != '\"';
    assert ("\"" + x)[0] == '\"';
  }

  lemma EscapeUnfolds(s: string, x: string)
    ensures s == [] ==> Escape(s) + "\"" + x == "\"" + x
    ensures s != [] ==> Escape(s) + "\"" + x == EscapeChar(s[0]) + (Escape(s[1..]) + "\"" + x)
  {
  }

  lemma {:induction false} EscapedTextIsUnambiguous(s: string, t: string, x: string, y: string)
    requires Escape(s) + "\"" + x == Escape(t) + "\"" + y
    ensures s == t && x == y
    decreases |s|
  {
    EscapeUnfolds(s, x);
    EscapeUnfolds(t, y);
    if s == [] && t == [] {
      SplitHere("\"", "\"", x, y);
    } else if s == [] {
      EscapeNeverStartsWithAQuote(t[0], Escape(t[1..]) + "\"" + y, x);
    } else if t == [] {
      EscapeNeverStartsWithAQuote(s[0], Escape(s[1..]) + "\"" + x, y);
    } else {
      EscapedCharIsUnambiguous(s[0], t[0], Escape(s[1..]) + "\"" + x, Escape(t[1..]) + "\"" + y);
      EscapedTextIsUnambiguous(s[1..], t[1..], x, y);
      assert s == [s[0]] + s[1..] && t == [t[0]] + t[1..];
    }
  }

  lemma QuotedTextIsUnambiguous(s: string, t: string, x: string, y: string)
    requires Quote(s) + x == Quote(t) + y
    ensures s == t && x == y
  {
    assert Quote(s) + x == "\"" + (Escape(s) + "\"" + x);
    assert Quote(t) + y == "\"" + (Escape(t) + "\"" + y);
    SplitHere("\"", "\"", Escape(s) + "\"" + x, Escape(t) + "\"" + y);
    EscapedTextIsUnambiguous(s, t, x, y);
  }

  lemma NumberDoesNotEndEarly(p: string, q: string, x: string, y: string)
    requires |p| < |q| && Ends(x) && NumberChar(q[|p|])
    ensures p + x != q + y
  {
    assert (q + y)[|p|] == q[|p|];
    if x == [] {
      assert |p + x| < |q + y|;
    } else {
      assert (p + x)[|p|] == x[0] != q[|p|];
    }
  }

  lemma NumberEndsWhereItEnds(p: string, q: string, x: string, y: string)
    requires p + x == q + y && Ends(x) && Ends(y)
    requires forall i :: 0 <= i < |p| ==> NumberChar(p[i])
    requires forall i :: 0 <= i < |q| ==> NumberChar(q[i])
    ensures p == q && x == y
  {
    if |p| < |q| {
      NumberDoesNotEndEarly(p, q, x, y);
    } else if |q| < |p| {
      NumberDoesNotEndEarly(q, p, y, x);
    } else {
      SplitHere(p, q, x, y);
    }
  }

  /** The first character tells the kinds of value apart. */
  function Kind(v: Json): nat {
    match v
    case Null => 0
    case Bool(b) => if b then 1 else 2
    case Number(_) => 3
    case Str(_) => 4
    case Arr(_) => 5
    case Obj(_) => 6
  }

  function KindOfFirst(c: char): nat {
    if c == 'n' then 0 else if c == 't' then 1 else if c == 'f' then 2
    else if c == '\"' then 4 else if c == '[' then 5 else if c == '{' then 6 else 3
  }

  lemma FirstCharTellsTheKind(v: Json)
    requires WellFormed(v)
    ensures Text(v) != [] && KindOfFirst(Text(v)[0]) == Kind(v) && !Ends(Text(v))
  {
  }

  lemma SameKind(v: Json, w: Json, x: string, y: string)
    requires WellFormed(v) && WellFormed(w) && Text(v) + x == Text(w) + y
    ensures Kind(v) == Kind(w)
  {
    FirstCharTellsTheKind(v);
    FirstCharTellsTheKind(w);
    assert (Text(v) + x)[0] == Text(v)[0] && (Text(w) + y)[0] == Text(w)[0];
  }

  /** A list in brackets: what is between them, and what follows. */
  lemma Unwrap(first: char, inner: string, other: string, last: char, x: string, y: string)
    requires ([first] + inner + [last]) + x == ([first] + other + [last]) + y
    ensures inner + ([last] + x) == other + ([last] + y)
  {
    assert ([first] + inner + [last]) + x == [first] + (inner + ([last] + x));
    assert ([first] + other + [last]) + y == [first] + (other + ([last] + y));
    SplitHere([first], [first], inner + ([last] + x), other + ([last] + y));
  }

  /** No text of a value continues the text of another: whatever follows, the value is determined. */
  lemma {:induction false} TextIsUnambiguous(v: Json, w: Json, x: string, y: string)
    requires WellFormed(v) && WellFormed(w) && Text(v) + x == Text(w) + y && Ends(x) && Ends(y)
    ensures v == w && x == y
    decreases v
  {
    SameKind(v, w, x, y);
    match v
    case Null => SplitHere("null", "null", x, y);
    case Bool(b) => SplitHere(Text(v), Text(w), x, y);
    case Number(text) => NumberEndsWhereItEnds(text, w.text, x, y);
    case Str(s) => QuotedTextIsUnambiguous(s, w.s, x, y);
    case Arr(items) =>
      Unwrap('[', ItemsText(items), ItemsText(w.items), ']', x, y);
      ItemsAreUnambiguous(items, w.items, "]" + x, "]" + y);
      SplitHere("]", "]", x, y);
    case Obj(members) =>
      Unwrap('{', MembersText(members), MembersText(w.members), '}', x, y);
      MembersAreUnambiguous(members, w.members, "}" + x, "}" + y);
      SplitHere("}", "}", x, y);
  }

  /** What follows an item of an array up to the closing bracket. */
  function ItemsTail(tail: Items, x: string): string {
    if tail.NoItems? then x else "," + (ItemsText(tail) + x)
  }

  lemma ItemsTextUnfolds(items: Items, x: string)
    ensures items.NoItems? ==> ItemsText(items) + x == x
    ensures items.Item? ==> ItemsText(items) + x == Text(items.head) + ItemsTail(items.tail, x)
  {
    if items.Item? {
      var comma := if items.tail.NoItems? then "" else "," + ItemsText(items.tail);
      Regroup(Text(items.head), comma, x);
      Regroup(",", ItemsText(items.tail), x);
    }
  }

  lemma ItemsStartDifferently(items: Items, x: string, y: string)
    requires ItemsWellFormed(items) && items.Item? && y != [] && y[0] == ']'
    ensures ItemsText(items) + x != y
  {
    ItemsTextUnfolds(items, x);
    FirstCharTellsTheKind(items.head);
    assert (Text(items.head) + ItemsTail(items.tail, x))[0] == Text(items.head)[0];
  }

  lemma {:induction false} ItemsAreUnambiguous(a: Items, b: Items, x: string, y: string)
    requires ItemsWellFormed(a) && ItemsWellFormed(b) && ItemsText(a) + x == ItemsText(b) + y
    requires x != [] && y != [] && x[0] == ']' && y[0] == ']'
    ensures a == b && x == y
    decreases a
  {
    ItemsTextUnfolds(a, x);
    ItemsTextUnfolds(b, y);
    if a.NoItems? && b.NoItems? {
    } else if a.NoItems? {
      ItemsStartDifferently(b, y, x);
    } else if b.NoItems? {
      ItemsStartDifferently(a, x, y);
    } else {
      var p, q := ItemsTail(a.tail, x), ItemsTail(b.tail, y);
      TextIsUnambiguous(a.head, b.head, p, q);
      if a.tail.Item? && b.tail.Item? {
        SplitHere(",", ",", ItemsText(a.tail) + x, ItemsText(b.tail) + y);
        ItemsAreUnambiguous(a.tail, b.tail, x, y);
      }
    }
  }

  function MembersTail(rest: Members, x: string): string {
    if rest.NoMembers? then x else "," + (MembersText(rest) + x)
  }

  lemma MembersTextUnfolds(m: Members, x: string)
    ensures m.NoMembers? ==> MembersText(m) + x == x
    ensures m.Member? ==> MembersText(m) + x == Quote(m.key) + (":" + (Text(m.value) + MembersTail(m.rest, x)))
  {
    if m.Member? {
      var comma := if m.rest.NoMembers? then "" else "," + MembersText(m.rest);
      RegroupFive(Quote(m.key), ":", Text(m.value), comma, x);
      Regroup(",", MembersText(m.rest), x);
    }
  }

  lemma MembersStartDifferently(m: Members, x: string, y: string)
    requires m.Member? && y != [] && y[0] == '}'
    ensures MembersText(m) + x != y
  {
    MembersTextUnfolds(m, x);
    assert (Quote(m.key) + (":" + (Text(m.value) + MembersTail(m.rest, x))))[0] == '\"';
  }

  lemma FirstMemberIsUnambiguous(key: string, other: string, p: string, q: string)
    requires Quote(key) + (":" + p) == Quote(other) + (":" + q)
    ensures key == other && p == q
  {
    QuotedTextIsUnambiguous(key, other, ":" + p, ":" + q);
    SplitHere(":", ":", p, q);
  }

  lemma {:induction false} MembersAreUnambiguous(a: Members, b: Members, x: string, y: string)
    requires MembersWellFormed(a) && MembersWellFormed(b) && MembersText(a) + x == MembersText(b) + y
    requires x != [] && y != [] && x[0] == '}' && y[0] == '}'
    ensures a == b && x == y
    decreases a
  {
    MembersTextUnfolds(a, x);
    MembersTextUnfolds(b, y);
    if a.NoMembers? && b.NoMembers? {
    } else if a.NoMembers? {
      MembersStartDifferently(b, y, x);
    } else if b.NoMembers? {
      MembersStartDifferently(a, x, y);
    } else {
      var p, q := MembersTail(a.rest, x), MembersTail(b.rest, y);
      FirstMemberIsUnambiguous(a.key, b.key, Text(a.value) + p, Text(b.value) + q);
      TextIsUnambiguous(a.value, b.value, p, q);
      if a.rest.Member? && b.rest.Member? {
        SplitHere(",", ",", MembersText(a.rest) + x, MembersText(b.rest) + y);
        MembersAreUnambiguous(a.rest, b.rest, x, y);
      }
    }
  }

  lemma TextDeterminesTheValue(v: Json, w: Json)
    requires WellFormed(v) && WellFormed(w)
    ensures Text(v) == Text(w) <==> v == w
  {
    if Text(v) == Text(w) {
      TextIsUnambiguous(v, w, "", "");
    }
  }
}
