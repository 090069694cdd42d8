/** The limiter on one-time codes: two maps of recent admissions, pruned as they are written. */
module AuthAbuseLimiter {

  datatype Limits = Limits(destination: nat, origin: nat, windowMs: nat)

  datatype Request = Request(destination: string, origin: string, now: int)

  datatype Side = Destination | Origin

  function KeyOf(r: Request, side: Side): string {
    if side == Destination then r.destination else r.origin
  }

  function LimitOf(limits: Limits, side: Side): nat {
    if side == Destination then limits.destination else limits.origin
  }

  /** The entries after the threshold, in order. */
  function Active(entries: seq<int>, threshold: int): seq<int> {
    if entries == [] then [] else
    var front, last := Active(entries[..|entries| - 1], threshold), entries[|entries| - 1];
    if last > threshold then front + [last] else front
  }

  function Entries(stored: map<string, seq<int>>, key: string): seq<int> {
    if key in stored then stored[key] else []
  }

  // ----- The limiter that forgets nothing -------------------------------------------------

  /** When requests under this key were admitted. */
  function Times(history: seq<Request>, side: Side, key: string): seq<int> {
    if history == [] then [] else
    var front, last := Times(history[..|history| - 1], side, key), history[|history| - 1];
    if KeyOf(last, side) == key then front + [last.now] else front
  }

  predicate Admits(limits: Limits, history: seq<Request>, r: Request) {
    && |Active(Times(history, Destination, r.destination), r.now - limits.windowMs)| < limits.destination
    && |Active(Times(history, Origin, r.origin), r.now - limits.windowMs)| < limits.origin
  }

  // ----- The limiter in place -------------------------------------------------------------

  datatype Store = Store(destinations: map<string, seq<int>>, origins: map<string, seq<int>>)

  predicate Allows(limits: Limits, s: Store, r: Request) {
    && |Active(Entries(s.destinations, r.destination), r.now - limits.windowMs)| < limits.destination
    && |Active(Entries(s.origins, r.origin), r.now - limits.windowMs)| < limits.origin
  }

  function Pushed(stored: map<string, seq<int>>, key: string, threshold: int, now: int): map<string, seq<int>> {
    stored[key := Active(Entries(stored, key), threshold) + [now]]
  }

  function After(limits: Limits, s: Store, r: Request): Store {
    if !Allows(limits, s, r) then s
    else Store(Pushed(s.destinations, r.destination, r.now - limits.windowMs, r.now),
               Pushed(s.origins, r.origin, r.now - limits.windowMs, r.now))
  }

  class FixedWindowAuthAbuseLimiter {
    const limits: Limits
    var destinations: map<string, seq<int>>
    var origins: map<string, seq<int>>

    function State(): Store
      reads this
    {
      Store(destinations, origins)
    }

    constructor (limits: Limits)
      ensures this.limits == limits && State() == Store(map[], map[])
    {
      this.limits := limits;
      destinations, origins := map[], map[];
    }

    method Allow(r: Request) returns (allowed: bool)
      modifies this
      ensures allowed == Allows(limits, old(State()), r) && State() == After(limits, old(State()), r)
    {
      var threshold := r.now - limits.windowMs;
      var destination := Active(Entries(destinations, r.destination), threshold);
      var origin := Active(Entries(origins, r.origin), threshold);
      if |destination| >= limits.destination || |origin| >= limits.origin {
        return false;
      }
      destination := destination + [r.now];
      origin := origin + [r.now];
      destinations := destinations[r.destination := destination];
      origins := origins[r.origin := origin];
      return true;
    }
  }

  lemma AppendedIsActive(entries: seq<int>, x: int, threshold: int)
    ensures Active(entries + [x], threshold)
      == if x > threshold then Active(entries, threshold) + [x] else Active(entries, threshold)
  {
    assert (entries + [x])[..|entries|] == entries;
  }

  lemma {:induction false} ActiveTwice(entries: seq<int>, earlier: int, later: int)
    requires earlier <= later
    ensures Active(Active(entries, earlier), later) == Active(entries, later)
  {
    if entries != [] {
      var front, x := entries[..|entries| - 1], entries[|entries| - 1];
      ActiveTwice(front, earlier, later);
      if x > earlier {
        AppendedIsActive(Active(front, earlier), x, later);
      }
    }
  }

  lemma AdmittedTimes(history: seq<Request>, r: Request, side: Side, key: string)
    ensures Times(history + [r], side, key) ==
      if KeyOf(r, side) == key then Times(history, side, key) + [r.now] else Times(history, side, key)
  {
    assert (history + [r])[..|history|] == history;
  }

  // ----- What pruning keeps, under any clock ----------------------------------------------

  /** The list stored for a key that was admitted at these times: each admission prunes what is a
      window or more older than itself. */
  function Kept(times: seq<int>, windowMs: nat): seq<int> {
    if times == [] then [] else
    var last := times[|times| - 1];
    Active(Kept(times[..|times| - 1], windowMs), last - windowMs) + [last]
  }

  ghost predicate KeepsKey(stored: map<string, seq<int>>, history: seq<Request>, side: Side, windowMs: nat,
      key: string)
  {
    Entries(stored, key) == Kept(Times(history, side, key), windowMs)
  }

  ghost predicate KeepsTimes(stored: map<string, seq<int>>, history: seq<Request>, side: Side, windowMs: nat) {
    forall k :: KeepsKey(stored, history, side, windowMs, k)
  }

  /** The store after the requests of `history` have been admitted, at whatever readings. */
  ghost predicate StoreKeeps(limits: Limits, s: Store, history: seq<Request>) {
    && KeepsTimes(s.destinations, history, Destination, limits.windowMs)
    && KeepsTimes(s.origins, history, Origin, limits.windowMs)
  }

  lemma KeptAfterPush(times: seq<int>, windowMs: nat, now: int)
    ensures Kept(times + [now], windowMs) == Active(Kept(times, windowMs), now - windowMs) + [now]
  {
    assert (times + [now])[..|times|] == times;
  }

  lemma PushingKeepsKey(stored: map<string, seq<int>>, history: seq<Request>, side: Side, windowMs: nat, r: Request,
      k: string)
    requires KeepsKey(stored, history, side, windowMs, k)
    ensures KeepsKey(Pushed(stored, KeyOf(r, side), r.now - windowMs, r.now), history + [r], side, windowMs, k)
  {
    AdmittedTimes(history, r, side, k);
    KeptAfterPush(Times(history, side, k), windowMs, r.now);
  }

  lemma PushingKeepsTimes(stored: map<string, seq<int>>, history: seq<Request>, side: Side, windowMs: nat, r: Request)
    requires KeepsTimes(stored, history, side, windowMs)
    ensures KeepsTimes(Pushed(stored, KeyOf(r, side), r.now - windowMs, r.now), history + [r], side, windowMs)
  {
    var after := Pushed(stored, KeyOf(r, side), r.now - windowMs, r.now);
    forall k
      ensures KeepsKey(after, history + [r], side, windowMs, k)
    {
      assert KeepsKey(stored, history, side, windowMs, k);
      PushingKeepsKey(stored, history, side, windowMs, r, k);
    }
  }

  lemma AdmittingKeeps(limits: Limits, s: Store, history: seq<Request>, r: Request)
    requires StoreKeeps(limits, s, history) && Allows(limits, s, r)
    ensures StoreKeeps(limits, After(limits, s, r), history + [r])
  {
    PushingKeepsTimes(s.destinations, history, Destination, limits.windowMs, r);
    PushingKeepsTimes(s.origins, history, Origin, limits.windowMs, r);
  }

  /** A later admission was read a window or more after this one and pruned it. */
  predicate IsForgotten(times: seq<int>, windowMs: nat, i: nat)
    requires i < |times|
  {
    exists j :: i < j < |times| && times[i] <= times[j] - windowMs
  }

  /** How many of the first `n` entries would still count at the threshold but were pruned. */
  function Forgotten(times: seq<int>, windowMs: nat, threshold: int, n: nat): nat
    requires n <= |times|
  {
    if n == 0 then 0
    else Forgotten(times, windowMs, threshold, n - 1)
         + if times[n - 1] > threshold && IsForgotten(times, windowMs, n - 1) then 1 else 0
  }

  lemma ForgottenAfterOneMore(front: seq<int>, x: int, windowMs: nat, i: nat)
    requires i < |front|
    ensures IsForgotten(front + [x], windowMs, i) <==> IsForgotten(front, windowMs, i) || front[i] <= x - windowMs
  {
    var times := front + [x];
    if IsForgotten(times, windowMs, i) {
      var j :| i < j < |times| && times[i] <= times[j] - windowMs;
      assert j < |front| ==> front[j] == times[j];
    }
    if IsForgotten(front, windowMs, i) {
      var j :| i < j < |front| && front[i] <= front[j] - windowMs;
      assert times[j] == front[j];
    }
    if front[i] <= x - windowMs {
      assert times[|front|] == x;
    }
  }

  /** A reading that prunes nothing above the threshold forgets nothing there. */
  lemma {:induction false} ForgottenBelow(front: seq<int>, x: int, windowMs: nat, threshold: int, n: nat)
    requires n <= |front| && x - windowMs <= threshold
    ensures Forgotten(front + [x], windowMs, threshold, n) == Forgotten(front, windowMs, threshold, n)
  {
    if n > 0 {
      ForgottenBelow(front, x, windowMs, threshold, n - 1);
      ForgottenAfterOneMore(front, x, windowMs, n - 1);
    }
  }

  lemma ActiveOfPrefix(entries: seq<int>, n: nat, threshold: int)
    requires 0 < n <= |entries|
    ensures |Active(entries[..n], threshold)|
      == |Active(entries[..n - 1], threshold)| + if entries[n - 1] > threshold then 1 else 0
  {
    assert entries[..n][..n - 1] == entries[..n - 1];
  }

  /** A reading that prunes above the threshold forgets there exactly what it prunes. */
  lemma {:induction false} ForgottenAbove(front: seq<int>, x: int, windowMs: nat, threshold: int, n: nat)
    requires n <= |front| && x - windowMs > threshold
    ensures Forgotten(front + [x], windowMs, threshold, n) + |Active(front[..n], x - windowMs)|
         == Forgotten(front, windowMs, x - windowMs, n) + |Active(front[..n], threshold)|
  {
    if n > 0 {
      ForgottenAbove(front, x, windowMs, threshold, n - 1);
      ForgottenAfterOneMore(front, x, windowMs, n - 1);
      ActiveOfPrefix(front, n, x - windowMs);
      ActiveOfPrefix(front, n, threshold);
    }
  }

  lemma {:induction false} ActiveOfHigher(entries: seq<int>, higher: int, threshold: int)
    requires threshold <= higher
    ensures Active(Active(entries, higher), threshold) == Active(entries, higher)
  {
    if entries != [] {
      var front, x := entries[..|entries| - 1], entries[|entries| - 1];
      ActiveOfHigher(front, higher, threshold);
      if x > higher {
        AppendedIsActive(Active(front, higher), x, threshold);
      }
    }
  }

  lemma LastIsNotForgotten(front: seq<int>, x: int, windowMs: nat, threshold: int)
    ensures Forgotten(front + [x], windowMs, threshold, |front| + 1)
      == Forgotten(front + [x], windowMs, threshold, |front|)
  {
  }

  lemma KeptOfOneMore(front: seq<int>, x: int, windowMs: nat, threshold: int)
    ensures var kept := Active(Kept(front, windowMs), x - windowMs);
      |Active(Kept(front + [x], windowMs), threshold)| == |Active(kept, threshold)| + if x > threshold then 1 else 0
    ensures |Active(front + [x], threshold)| == |Active(front, threshold)| + if x > threshold then 1 else 0
  {
    assert (front + [x])[..|front|] == front;
    AppendedIsActive(Active(Kept(front, windowMs), x - windowMs), x, threshold);
    AppendedIsActive(front, x, threshold);
  }

  ghost predicate CountsAllButForgotten(times: seq<int>, windowMs: nat, threshold: int) {
    |Active(Kept(times, windowMs), threshold)| + Forgotten(times, windowMs, threshold, |times|)
      == |Active(times, threshold)|
  }

  lemma CountsAfterPruningBelow(front: seq<int>, x: int, windowMs: nat, threshold: int)
    requires x - windowMs <= threshold && CountsAllButForgotten(front, windowMs, threshold)
    ensures CountsAllButForgotten(front + [x], windowMs, threshold)
  {
    LastIsNotForgotten(front, x, windowMs, threshold);
    KeptOfOneMore(front, x, windowMs, threshold);
    ActiveTwice(Kept(front, windowMs), x - windowMs, threshold);
    ForgottenBelow(front, x, windowMs, threshold, |front|);
  }

  lemma CountsAfterPruningAbove(front: seq<int>, x: int, windowMs: nat, threshold: int)
    requires x - windowMs > threshold && CountsAllButForgotten(front, windowMs, x - windowMs)
    ensures CountsAllButForgotten(front + [x], windowMs, threshold)
  {
    LastIsNotForgotten(front, x, windowMs, threshold);
    KeptOfOneMore(front, x, windowMs, threshold);
    ActiveOfHigher(Kept(front, windowMs), x - windowMs, threshold);
    ForgottenAbove(front, x, windowMs, threshold, |front|);
    assert front[..|front|] == front;
  }

  /** The stored list counts, at any threshold, the full history less what was forgotten. */
  lemma {:induction false} KeptCountsAllButForgotten(times: seq<int>, windowMs: nat, threshold: int)
    ensures |Active(Kept(times, windowMs), threshold)| + Forgotten(times, windowMs, threshold, |times|)
      == |Active(times, threshold)|
    decreases |times|
  {
    if times != [] {
      var front, x := times[..|times| - 1], times[|times| - 1];
      assert times == front + [x];
      if x - windowMs <= threshold {
        KeptCountsAllButForgotten(front, windowMs, threshold);
        CountsAfterPruningBelow(front, x, windowMs, threshold);
      } else {
        KeptCountsAllButForgotten(front, windowMs, x - windowMs);
        CountsAfterPruningAbove(front, x, windowMs, threshold);
      }
    }
  }

  lemma {:induction false} NothingForgottenExactly(times: seq<int>, windowMs: nat, threshold: int, n: nat)
    requires n <= |times|
    ensures Forgotten(times, windowMs, threshold, n) == 0 <==>
      forall i :: 0 <= i < n ==> times[i] <= threshold || !IsForgotten(times, windowMs, i)
  {
    if n > 0 {
      NothingForgottenExactly(times, windowMs, threshold, n - 1);
    }
  }

  /** The pruned count is the full count if and only if no entry above the threshold was followed by
      an admission read a window or more later. */
  lemma CountsAgreeExactly(times: seq<int>, windowMs: nat, threshold: int)
    ensures |Active(Kept(times, windowMs), threshold)| == |Active(times, threshold)| <==>
      forall i :: 0 <= i < |times| ==> times[i] <= threshold || !IsForgotten(times, windowMs, i)
  {
    KeptCountsAllButForgotten(times, windowMs, threshold);
    NothingForgottenExactly(times, windowMs, threshold, |times|);
  }

  // ----- When the two limiters decide differently -----------------------------------------

  /** How many admissions under the request's key the full history counts, and pruning has lost. */
  function Counted(limits: Limits, history: seq<Request>, r: Request, side: Side): nat {
    |Active(Times(history, side, KeyOf(r, side)), r.now - limits.windowMs)|
  }

  function Missed(limits: Limits, history: seq<Request>, r: Request, side: Side): nat {
    var times := Times(history, side, KeyOf(r, side));
    Forgotten(times, limits.windowMs, r.now - limits.windowMs, |times|)
  }

  lemma SideCounts(limits: Limits, stored: map<string, seq<int>>, history: seq<Request>, r: Request, side: Side)
    requires KeepsTimes(stored, history, side, limits.windowMs)
    ensures |Active(Entries(stored, KeyOf(r, side)), r.now - limits.windowMs)|
      == Counted(limits, history, r, side) - Missed(limits, history, r, side)
  {
    assert KeepsKey(stored, history, side, limits.windowMs, KeyOf(r, side));
    KeptCountsAllButForgotten(Times(history, side, KeyOf(r, side)), limits.windowMs, r.now - limits.windowMs);
  }

  lemma StoreCounts(limits: Limits, s: Store, history: seq<Request>, r: Request)
    requires StoreKeeps(limits, s, history)
    ensures |Active(Entries(s.destinations, r.destination), r.now - limits.windowMs)|
      == Counted(limits, history, r, Destination) - Missed(limits, history, r, Destination)
    ensures |Active(Entries(s.origins, r.origin), r.now - limits.windowMs)|
      == Counted(limits, history, r, Origin) - Missed(limits, history, r, Origin)
  {
    SideCounts(limits, s.destinations, history, r, Destination);
    SideCounts(limits, s.origins, history, r, Origin);
  }

  /** A side of the request is full, and on each side enough was forgotten to make room. */
  predicate Slips(limits: Limits, history: seq<Request>, r: Request) {
    && !Admits(limits, history, r)
    && Counted(limits, history, r, Destination) < limits.destination + Missed(limits, history, r, Destination)
    && Counted(limits, history, r, Origin) < limits.origin + Missed(limits, history, r, Origin)
  }

  /** Under any clock the pruned maps admit what the full history admits and, beyond that, exactly the
      requests that slip through what was forgotten. */
  lemma PrunedDecidesAsFull(limits: Limits, s: Store, history: seq<Request>, r: Request)
    requires StoreKeeps(limits, s, history)
    ensures Allows(limits, s, r) <==> Admits(limits, history, r) || Slips(limits, history, r)
  {
    StoreCounts(limits, s, history, r);
  }

  /** With nothing forgotten above the threshold on either side the decision is that of the full history. */
  lemma NothingForgottenDecidesAlike(limits: Limits, s: Store, history: seq<Request>, r: Request)
    requires StoreKeeps(limits, s, history)
    requires Missed(limits, history, r, Destination) == 0 && Missed(limits, history, r, Origin) == 0
    ensures Allows(limits, s, r) <==> Admits(limits, history, r)
  {
    PrunedDecidesAsFull(limits, s, history, r);
  }

  /** Only a reading before one that was already admitted can miss an entry. */
  lemma NoMissWithoutGoingBack(limits: Limits, history: seq<Request>, r: Request, side: Side)
    requires forall h :: h in history ==> h.now <= r.now
    ensures Missed(limits, history, r, side) == 0
  {
    var times := Times(history, side, KeyOf(r, side));
    TimesAreReadings(history, side, KeyOf(r, side));
    NothingForgottenExactly(times, limits.windowMs, r.now - limits.windowMs, |times|);
    forall i | 0 <= i < |times|
      ensures times[i] <= r.now - limits.windowMs || !IsForgotten(times, limits.windowMs, i)
    {
      assert forall j :: i < j < |times| ==> times[j] in times;
    }
  }

  lemma {:induction false} TimesAreReadings(history: seq<Request>, side: Side, key: string)
    ensures forall x :: x in Times(history, side, key) ==> exists h :: h in history && h.now == x
  {
    if history != [] {
      var front, last := history[..|history| - 1], history[|history| - 1];
      TimesAreReadings(front, side, key);
      assert history == front + [last];
      forall x | x in Times(history, side, key)
        ensures exists h :: h in history && h.now == x
      {
        if x in Times(front, side, key) {
          var h :| h in front && h.now == x;
          assert h in history;
        } else {
          assert last in history;
        }
      }
    }
  }

  // ----- No window holds more than the limit ----------------------------------------------

  /** The admissions of the limiter that keeps the whole history. */
  function Admitted(limits: Limits, requests: seq<Request>): seq<Request> {
    if requests == [] then [] else
    var before, r := Admitted(limits, requests[..|requests| - 1]), requests[|requests| - 1];
    if Admits(limits, before, r) then before + [r] else before
  }

  /** How many admissions under the key fall into the window that ends at `upTo`. */
  function InWindow(times: seq<int>, upTo: int, windowMs: nat): nat {
    if times == [] then 0 else
    var front, last := InWindow(times[..|times| - 1], upTo, windowMs), times[|times| - 1];
    if upTo - windowMs < last <= upTo then front + 1 else front
  }

  ghost predicate NoWindowExceedsItsLimit(limits: Limits, history: seq<Request>) {
    forall side, key, upTo :: InWindow(Times(history, side, key), upTo, limits.windowMs) <= LimitOf(limits, side)
  }

  predicate ClockNeverGoesBack(requests: seq<Request>) {
    forall i, j :: 0 <= i < j < |requests| ==> requests[i].now <= requests[j].now
  }

  lemma {:induction false} WindowIsPartOfActive(times: seq<int>, upTo: int, windowMs: nat, threshold: int)
    requires threshold <= upTo - windowMs
    ensures InWindow(times, upTo, windowMs) <= |Active(times, threshold)|
  {
    if times != [] {
      WindowIsPartOfActive(times[..|times| - 1], upTo, windowMs, threshold);
    }
  }

  lemma OneMoreInWindow(times: seq<int>, x: int, upTo: int, windowMs: nat)
    ensures InWindow(times + [x], upTo, windowMs)
      == if upTo - windowMs < x <= upTo then InWindow(times, upTo, windowMs) + 1 else InWindow(times, upTo, windowMs)
  {
    assert (times + [x])[..|times|] == times;
  }

  predicate WindowHasRoom(limits: Limits, history: seq<Request>, r: Request, side: Side, upTo: int) {
    InWindow(Times(history, side, KeyOf(r, side)), upTo, limits.windowMs) < LimitOf(limits, side)
  }

  /** On both sides of the request, every window that an admission now would fall into has room. */
  ghost predicate FindsRoom(limits: Limits, history: seq<Request>, r: Request) {
    forall side, upTo :: r.now <= upTo < r.now + limits.windowMs ==> WindowHasRoom(limits, history, r, side, upTo)
  }

  /** What an admission adds to one window. */
  lemma AdmissionInWindow(history: seq<Request>, r: Request, side: Side, key: string, upTo: int, windowMs: nat)
    ensures InWindow(Times(history + [r], side, key), upTo, windowMs)
      == InWindow(Times(history, side, key), upTo, windowMs)
      + if KeyOf(r, side) == key && r.now <= upTo < r.now + windowMs then 1 else 0
  {
    AdmittedTimes(history, r, side, key);
    OneMoreInWindow(Times(history, side, key), r.now, upTo, windowMs);
  }

  lemma RoomKeepsTheLimits(limits: Limits, history: seq<Request>, r: Request)
    requires NoWindowExceedsItsLimit(limits, history) && FindsRoom(limits, history, r)
    ensures NoWindowExceedsItsLimit(limits, history + [r])
  {
    forall side, key, upTo
      ensures InWindow(Times(history + [r], side, key), upTo, limits.windowMs) <= LimitOf(limits, side)
    {
      AdmissionInWindow(history, r, side, key, upTo, limits.windowMs);
      assert InWindow(Times(history, side, key), upTo, limits.windowMs) <= LimitOf(limits, side);
      if KeyOf(r, side) == key && r.now <= upTo < r.now + limits.windowMs {
        assert WindowHasRoom(limits, history, r, side, upTo);
      }
    }
  }

  lemma KeptLimitsMeanRoom(limits: Limits, history: seq<Request>, r: Request)
    requires NoWindowExceedsItsLimit(limits, history + [r])
    ensures NoWindowExceedsItsLimit(limits, history) && FindsRoom(limits, history, r)
  {
    forall side, key, upTo
      ensures InWindow(Times(history, side, key), upTo, limits.windowMs) <= LimitOf(limits, side)
    {
      AdmissionInWindow(history, r, side, key, upTo, limits.windowMs);
      assert InWindow(Times(history + [r], side, key), upTo, limits.windowMs) <= LimitOf(limits, side);
    }
    forall side, upTo | r.now <= upTo < r.now + limits.windowMs
      ensures WindowHasRoom(limits, history, r, side, upTo)
    {
      var key := KeyOf(r, side);
      AdmissionInWindow(history, r, side, key, upTo, limits.windowMs);
      assert InWindow(Times(history + [r], side, key), upTo, limits.windowMs) <= LimitOf(limits, side);
    }
  }

  /** A request that the full history admits finds room in every window it falls into. */
  lemma AdmittedFindsRoom(limits: Limits, history: seq<Request>, r: Request)
    requires Admits(limits, history, r)
    ensures FindsRoom(limits, history, r)
  {
    forall side, upTo | r.now <= upTo < r.now + limits.windowMs
      ensures WindowHasRoom(limits, history, r, side, upTo)
    {
      WindowIsPartOfActive(Times(history, side, KeyOf(r, side)), upTo, limits.windowMs, r.now - limits.windowMs);
    }
  }

  lemma AdmittingStaysWithinLimits(limits: Limits, history: seq<Request>, r: Request)
    requires NoWindowExceedsItsLimit(limits, history) && Admits(limits, history, r)
    ensures NoWindowExceedsItsLimit(limits, history + [r])
  {
    AdmittedFindsRoom(limits, history, r);
    RoomKeepsTheLimits(limits, history, r);
  }

  // ----- Whole runs -----------------------------------------------------------------------

  function PrunedStore(limits: Limits, requests: seq<Request>): Store {
    if requests == [] then Store(map[], map[])
    else After(limits, PrunedStore(limits, requests[..|requests| - 1]), requests[|requests| - 1])
  }

  /** What the limiter in place admits. */
  function PrunedAdmitted(limits: Limits, requests: seq<Request>): seq<Request> {
    if requests == [] then [] else
    var front, r := requests[..|requests| - 1], requests[|requests| - 1];
    if Allows(limits, PrunedStore(limits, front), r) then PrunedAdmitted(limits, front) + [r]
    else PrunedAdmitted(limits, front)
  }

  lemma {:induction false} EveryRunKeeps(limits: Limits, requests: seq<Request>)
    ensures StoreKeeps(limits, PrunedStore(limits, requests), PrunedAdmitted(limits, requests))
  {
    if requests != [] {
      var front, r := requests[..|requests| - 1], requests[|requests| - 1];
      EveryRunKeeps(limits, front);
      if Allows(limits, PrunedStore(limits, front), r) {
        AdmittingKeeps(limits, PrunedStore(limits, front), PrunedAdmitted(limits, front), r);
      }
    }
  }

  ghost predicate AgreesAt(limits: Limits, requests: seq<Request>, n: nat)
    requires n <= |requests|
  {
    PrunedAdmitted(limits, requests[..n]) == Admitted(limits, requests[..n])
  }

  predicate SlipsAt(limits: Limits, requests: seq<Request>, n: nat)
    requires n < |requests|
  {
    Slips(limits, PrunedAdmitted(limits, requests[..n]), requests[n])
  }

  lemma OneMoreRequest(limits: Limits, requests: seq<Request>, n: nat)
    requires n < |requests| && AgreesAt(limits, requests, n)
    ensures AgreesAt(limits, requests, n + 1) <==> !SlipsAt(limits, requests, n)
  {
    var front, r := requests[..n], requests[n];
    assert requests[..n + 1][..n] == front;
    EveryRunKeeps(limits, front);
    PrunedDecidesAsFull(limits, PrunedStore(limits, front), PrunedAdmitted(limits, front), r);
  }

  lemma {:induction false} AgreesUpTo(limits: Limits, requests: seq<Request>, n: nat)
    requires n <= |requests| && forall m :: 0 <= m < n ==> !SlipsAt(limits, requests, m)
    ensures AgreesAt(limits, requests, n)
  {
    if n > 0 {
      AgreesUpTo(limits, requests, n - 1);
      OneMoreRequest(limits, requests, n - 1);
    }
  }

  /** Whatever the clock does, the two limiters have admitted the same after each request of a run if
      and only if no request slipped through. */
  lemma RunsAgreeExactlyWithoutSlips(limits: Limits, requests: seq<Request>)
    ensures (forall n :: 0 <= n <= |requests| ==> AgreesAt(limits, requests, n)) <==>
      (forall n :: 0 <= n < |requests| ==> !SlipsAt(limits, requests, n))
  {
    if forall n :: 0 <= n <= |requests| ==> AgreesAt(limits, requests, n) {
      forall n | 0 <= n < |requests|
        ensures !SlipsAt(limits, requests, n)
      {
        assert AgreesAt(limits, requests, n + 1);
        OneMoreRequest(limits, requests, n);
      }
    }
    if forall n :: 0 <= n < |requests| ==> !SlipsAt(limits, requests, n) {
      forall n | 0 <= n <= |requests|
        ensures AgreesAt(limits, requests, n)
      {
        AgreesUpTo(limits, requests, n);
      }
    }
  }

  lemma {:induction false} AdmittedWereRequested(limits: Limits, requests: seq<Request>)
    ensures forall r :: r in PrunedAdmitted(limits, requests) ==> r in requests
  {
    if requests != [] {
      AdmittedWereRequested(limits, requests[..|requests| - 1]);
    }
  }

  lemma NoSlipsWithoutGoingBack(limits: Limits, requests: seq<Request>, n: nat)
    requires n < |requests| && ClockNeverGoesBack(requests)
    ensures !SlipsAt(limits, requests, n)
  {
    var history := PrunedAdmitted(limits, requests[..n]);
    AdmittedWereRequested(limits, requests[..n]);
    NoMissWithoutGoingBack(limits, history, requests[n], Destination);
    NoMissWithoutGoingBack(limits, history, requests[n], Origin);
  }

  // ----- When a slip exceeds a limit ------------------------------------------------------

  /** If this request slips through, every window it falls into has room for it all the same. */
  ghost predicate SlipFindsRoom(limits: Limits, requests: seq<Request>, n: nat)
    requires n < |requests|
  {
    SlipsAt(limits, requests, n) ==> FindsRoom(limits, PrunedAdmitted(limits, requests[..n]), requests[n])
  }

  ghost predicate WithinLimitsAt(limits: Limits, requests: seq<Request>, n: nat)
    requires n <= |requests|
  {
    NoWindowExceedsItsLimit(limits, PrunedAdmitted(limits, requests[..n]))
  }

  lemma OneMoreWithinLimits(limits: Limits, requests: seq<Request>, n: nat)
    requires n < |requests|
    ensures WithinLimitsAt(limits, requests, n + 1) <==>
      WithinLimitsAt(limits, requests, n) && SlipFindsRoom(limits, requests, n)
  {
    var front, r := requests[..n], requests[n];
    var history := PrunedAdmitted(limits, front);
    assert requests[..n + 1][..n] == front;
    EveryRunKeeps(limits, front);
    PrunedDecidesAsFull(limits, PrunedStore(limits, front), history, r);
    if Admits(limits, history, r) {
      AdmittedFindsRoom(limits, history, r);
    }
    if WithinLimitsAt(limits, requests, n) && FindsRoom(limits, history, r) {
      RoomKeepsTheLimits(limits, history, r);
    }
    if NoWindowExceedsItsLimit(limits, history + [r]) {
      KeptLimitsMeanRoom(limits, history, r);
    }
  }

  lemma {:induction false} WithinLimitsUpTo(limits: Limits, requests: seq<Request>, n: nat)
    requires n <= |requests|
    ensures WithinLimitsAt(limits, requests, n) <==> forall m :: 0 <= m < n ==> SlipFindsRoom(limits, requests, m)
  {
    if n > 0 {
      WithinLimitsUpTo(limits, requests, n - 1);
      OneMoreWithinLimits(limits, requests, n - 1);
    }
  }

  /** Whatever the clock does, the admissions of a run stay within the limits in every window if and only
      if each request that slips through finds room in all the windows it falls into. */
  lemma RunStaysWithinLimitsExactly(limits: Limits, requests: seq<Request>)
    ensures NoWindowExceedsItsLimit(limits, PrunedAdmitted(limits, requests)) <==>
      forall n :: 0 <= n < |requests| ==> SlipFindsRoom(limits, requests, n)
  {
    WithinLimitsUpTo(limits, requests, |requests|);
    assert requests[..|requests|] == requests;
  }

  /** A run of the pruning limiter, under any clock. No key exceeds its limit in any window if and only
      if every slip finds room. If no request slips through, which a clock that never goes back ensures,
      it admits exactly what the full-history limiter admits. */
  method Serve(limits: Limits, requests: seq<Request>) returns (admitted: seq<Request>)
    ensures admitted == PrunedAdmitted(limits, requests)
    ensures NoWindowExceedsItsLimit(limits, admitted) <==>
      forall n :: 0 <= n < |requests| ==> SlipFindsRoom(limits, requests, n)
    ensures (forall n :: 0 <= n < |requests| ==> !SlipsAt(limits, requests, n)) ==>
      admitted == Admitted(limits, requests) && NoWindowExceedsItsLimit(limits, admitted)
    ensures ClockNeverGoesBack(requests) ==> forall n :: 0 <= n < |requests| ==> !SlipsAt(limits, requests, n)
  {
    var limiter := new FixedWindowAuthAbuseLimiter(limits);
    admitted := [];
    for n := 0 to |requests|
      invariant limiter.limits == limits && limiter.State() == PrunedStore(limits, requests[..n])
      invariant admitted == PrunedAdmitted(limits, requests[..n])
    {
      assert requests[..n + 1][..n] == requests[..n];
      var allowed := limiter.Allow(requests[n]);
      if allowed {
        admitted := admitted + [requests[n]];
      }
    }
    assert requests[..|requests|] == requests;
    RunStaysWithinLimitsExactly(limits, requests);
    RunAgreesWithoutSlips(limits, requests);
  }

  lemma RunAgreesWithoutSlips(limits: Limits, requests: seq<Request>)
    ensures ClockNeverGoesBack(requests) ==> forall n :: 0 <= n < |requests| ==> !SlipsAt(limits, requests, n)
    ensures (forall n :: 0 <= n < |requests| ==> !SlipsAt(limits, requests, n)) ==>
      && PrunedAdmitted(limits, requests) == Admitted(limits, requests)
      && NoWindowExceedsItsLimit(limits, PrunedAdmitted(limits, requests))
  {
    if ClockNeverGoesBack(requests) {
      forall n | 0 <= n < |requests|
        ensures !SlipsAt(limits, requests, n)
      {
        NoSlipsWithoutGoingBack(limits, requests, n);
      }
    }
    if forall n :: 0 <= n < |requests| ==> !SlipsAt(limits, requests, n) {
      AgreesUpTo(limits, requests, |requests|);
      assert requests[..|requests|] == requests;
      forall n | 0 <= n < |requests|
        ensures SlipFindsRoom(limits, requests, n)
      {
        assert !SlipsAt(limits, requests, n);
      }
      RunStaysWithinLimitsExactly(limits, requests);
    }
  }

  // ----- A run in which a request slips through -------------------------------------------

  lemma WhatIsStillActive()
    ensures Active([], -10) == [] && Active([0], -10) == [0] && Active([0, 0], 0) == [] && Active([10], -5) == [10]
  {
    AppendedIsActive([], 0, -10);
    AppendedIsActive([], 0, 0);
    AppendedIsActive([0], 0, 0);
    AppendedIsActive([], 10, -5);
    assert [] + [0] == [0] && [0] + [0] == [0, 0] && [] + [10] == [10];
  }

  lemma FourAdmissionTimes(early: Request, late: Request, back: Request)
    requires early.destination == late.destination == back.destination
    ensures Times([early, early, late, back], Destination, early.destination)
      == [early.now, early.now, late.now, back.now]
  {
    var d := early.destination;
    AdmittedTimes([], early, Destination, d);
    AdmittedTimes([early], early, Destination, d);
    AdmittedTimes([early, early], late, Destination, d);
    AdmittedTimes([early, early, late], back, Destination, d);
    assert [] + [early] == [early] && [early] + [early] == [early, early];
    assert [early, early] + [late] == [early, early, late]
      && [early, early, late] + [back] == [early, early, late, back];
  }

  ghost predicate ServedAll(limits: Limits, requests: seq<Request>, s: Store) {
    PrunedStore(limits, requests) == s && PrunedAdmitted(limits, requests) == requests
  }

  lemma OneMoreServed(limits: Limits, requests: seq<Request>, s: Store, r: Request, after: Store)
    requires ServedAll(limits, requests, s) && Allows(limits, s, r) && after == After(limits, s, r)
    ensures ServedAll(limits, requests + [r], after)
  {
    assert (requests + [r])[..|requests|] == requests;
  }

  lemma TwoServed(limits: Limits, first: Request, second: Request, s0: Store, s1: Store, s2: Store)
    requires s0 == Store(map[], map[]) && Allows(limits, s0, first) && s1 == After(limits, s0, first)
    requires Allows(limits, s1, second) && s2 == After(limits, s1, second)
    ensures ServedAll(limits, [first, second], s2)
  {
    OneMoreServed(limits, [], s0, first, s1);
    assert [] + [first] == [first];
    OneMoreServed(limits, [first], s1, second, s2);
    assert [first] + [second] == [first, second];
  }

  lemma TwoMoreServed(limits: Limits, a: Request, b: Request, first: Request, second: Request, s0: Store, s1: Store,
      s2: Store)
    requires ServedAll(limits, [a, b], s0) && Allows(limits, s0, first) && s1 == After(limits, s0, first)
    requires Allows(limits, s1, second) && s2 == After(limits, s1, second)
    ensures ServedAll(limits, [a, b, first, second], s2)
  {
    OneMoreServed(limits, [a, b], s0, first, s1);
    assert [a, b] + [first] == [a, b, first];
    OneMoreServed(limits, [a, b, first], s1, second, s2);
    assert [a, b, first] + [second] == [a, b, first, second];
  }

  lemma ThreeInOneWindow()
    ensures InWindow([0, 0, 10, 5], 9, 10) == 3
  {
    OneMoreInWindow([], 0, 9, 10);
    OneMoreInWindow([0], 0, 9, 10);
    OneMoreInWindow([0, 0], 10, 9, 10);
    OneMoreInWindow([0, 0, 10], 5, 9, 10);
    assert [] + [0] == [0] && [0] + [0] == [0, 0] && [0, 0] + [10] == [0, 0, 10] && [0, 0, 10] + [5] == [0, 0, 10, 5];
  }

  /** A clock that falls back counts on entries that were already pruned: all four requests pass,
      and three of them lie in one window of a destination whose limit is two. */
  lemma ClockSetBackAdmitsTooMany(destination: string, origin: string) returns (limits: Limits, admitted: seq<Request>)
    ensures |admitted| == 4
    ensures var s1 := After(limits, Store(map[], map[]), admitted[0]);
      var s2 := After(limits, s1, admitted[1]);
      var s3 := After(limits, s2, admitted[2]);
      && Allows(limits, Store(map[], map[]), admitted[0]) && Allows(limits, s1, admitted[1])
      && Allows(limits, s2, admitted[2]) && Allows(limits, s3, admitted[3])
    ensures !NoWindowExceedsItsLimit(limits, admitted)
    ensures exists n :: 0 <= n < 4 && SlipsAt(limits, admitted, n)
  {
    limits := Limits(2, 9, 10);
    var early, late, back := Request(destination, origin, 0), Request(destination, origin, 10),
      Request(destination, origin, 5);
    admitted := [early, early, late, back];
    WhatIsStillActive();
    var s1 := After(limits, Store(map[], map[]), early);
    assert s1 == Store(map[destination := [0]], map[origin := [0]]);
    var s2 := After(limits, s1, early);
    assert [0] + [0] == [0, 0];
    assert Pushed(s1.destinations, destination, -10, 0) == map[destination := [0, 0]];
    assert Pushed(s1.origins, origin, -10, 0) == map[origin := [0, 0]];
    assert Allows(limits, s1, early);
    assert s2 == Store(map[destination := [0, 0]], map[origin := [0, 0]]);
    var s3 := After(limits, s2, late);
    assert s3 == Store(map[destination := [10]], map[origin := [10]]);
    assert Allows(limits, s3, back);
    FourAdmissionTimes(early, late, back);
    ThreeInOneWindow();
    assert InWindow(Times(admitted, Destination, destination), 9, limits.windowMs) > LimitOf(limits, Destination);
    TwoServed(limits, early, early, Store(map[], map[]), s1, s2);
    TwoMoreServed(limits, early, early, late, back, s2, s3, After(limits, s3, back));
    RunAgreesWithoutSlips(limits, admitted);
  }

  // ----- A slip that exceeds nothing ------------------------------------------------------

  lemma {:induction false} AtMostAllInWindow(times: seq<int>, upTo: int, windowMs: nat)
    ensures InWindow(times, upTo, windowMs) <= |times|
  {
    if times != [] {
      AtMostAllInWindow(times[..|times| - 1], upTo, windowMs);
    }
  }

  lemma {:induction false} AtMostAllTimes(history: seq<Request>, side: Side, key: string)
    ensures |Times(history, side, key)| <= |history|
  {
    if history != [] {
      AtMostAllTimes(history[..|history| - 1], side, key);
    }
  }

  lemma FewRequestsExceedNothing(limits: Limits, history: seq<Request>)
    requires |history| <= limits.destination && |history| <= limits.origin
    ensures NoWindowExceedsItsLimit(limits, history)
  {
    forall side, key, upTo
      ensures InWindow(Times(history, side, key), upTo, limits.windowMs) <= LimitOf(limits, side)
    {
      AtMostAllTimes(history, side, key);
      AtMostAllInWindow(Times(history, side, key), upTo, limits.windowMs);
    }
  }

  lemma ThreeSpreadTimes(a: int, b: int, c: int, upTo: int, windowMs: nat)
    requires a < b && a < c && upTo < b && upTo < c
    ensures InWindow([a, b, c], upTo, windowMs) <= 1
  {
    OneMoreInWindow([], a, upTo, windowMs);
    OneMoreInWindow([a], b, upTo, windowMs);
    OneMoreInWindow([a, b], c, upTo, windowMs);
    assert [] + [a] == [a] && [a] + [b] == [a, b] && [a, b] + [c] == [a, b, c];
  }

  lemma ThreeAdmissionTimes(a: Request, b: Request, c: Request, side: Side)
    requires KeyOf(a, side) == KeyOf(b, side) == KeyOf(c, side)
    ensures Times([a, b, c], side, KeyOf(a, side)) == [a.now, b.now, c.now]
  {
    var key := KeyOf(a, side);
    AdmittedTimes([], a, side, key);
    AdmittedTimes([a], b, side, key);
    AdmittedTimes([a, b], c, side, key);
    assert [] + [a] == [a] && [a] + [b] == [a, b] && [a, b] + [c] == [a, b, c];
    assert [] + [a.now] == [a.now] && [a.now] + [b.now] == [a.now, b.now];
    assert [a.now, b.now] + [c.now] == [a.now, b.now, c.now];
  }

  lemma SpreadEntries()
    ensures Active([], -10) == [] && Active([0], 10) == [] && Active([20], 15) == [20]
    ensures Active([20, 25], -5) == [20, 25] && Active([0, 20, 25], -5) == [0, 20, 25]
  {
    AppendedIsActive([], 0, 10);
    AppendedIsActive([], 20, 15);
    AppendedIsActive([], 20, -5);
    AppendedIsActive([20], 25, -5);
    AppendedIsActive([], 0, -5);
    AppendedIsActive([0], 20, -5);
    AppendedIsActive([0, 20], 25, -5);
    assert [] + [0] == [0] && [] + [20] == [20] && [20] + [25] == [20, 25];
    assert [0] + [20] == [0, 20] && [0, 20] + [25] == [0, 20, 25];
  }

  /** Three admissions at 0, 20 and 25, as the store keeps them. */
  lemma SpreadIsServed(limits: Limits, destination: string, origin: string) returns (s: Store)
    requires limits == Limits(3, 9, 10)
    ensures s == Store(map[destination := [20, 25]], map[origin := [20, 25]])
    ensures ServedAll(limits, [ Request(destination, origin, 0), Request(destination, origin, 20),
                                Request(destination, origin, 25) ], s)
  {
    var a, b, c := Request(destination, origin, 0), Request(destination, origin, 20), Request(destination, origin, 25);
    SpreadEntries();
    var s0 := Store(map[], map[]);
    var s1 := After(limits, s0, a);
    assert s1 == Store(map[destination := [0]], map[origin := [0]]);
    var s2 := After(limits, s1, b);
    assert s2 == Store(map[destination := [20]], map[origin := [20]]);
    s := After(limits, s2, c);
    assert [20] + [25] == [20, 25];
    TwoServed(limits, a, b, s0, s1, s2);
    OneMoreServed(limits, [a, b], s2, c, s);
    assert [a, b] + [c] == [a, b, c];
  }

  lemma BackFindsRoom(limits: Limits, a: Request, b: Request, c: Request, back: Request)
    requires limits == Limits(3, 9, 10) && (a.now, b.now, c.now, back.now) == (0, 20, 25, 5)
    requires a.destination == b.destination == c.destination == back.destination
    requires a.origin == b.origin == c.origin == back.origin
    ensures FindsRoom(limits, [a, b, c], back)
  {
    forall side, upTo | back.now <= upTo < back.now + limits.windowMs
      ensures WindowHasRoom(limits, [a, b, c], back, side, upTo)
    {
      ThreeAdmissionTimes(a, b, c, side);
      ThreeSpreadTimes(0, 20, 25, upTo, limits.windowMs);
    }
  }

  /** Not every slip does harm: at 5, after admissions at 0, 20 and 25, a request slips past a limit of
      three, and still no window of ten holds more than three admissions. */
  lemma ASlipMayExceedNothing(destination: string, origin: string) returns (limits: Limits, requests: seq<Request>)
    ensures |requests| == 4 && PrunedAdmitted(limits, requests) == requests
    ensures SlipsAt(limits, requests, 3) && NoWindowExceedsItsLimit(limits, requests)
  {
    limits := Limits(3, 9, 10);
    var a, b, c := Request(destination, origin, 0), Request(destination, origin, 20), Request(destination, origin, 25);
    var back := Request(destination, origin, 5);
    var history := [a, b, c];
    requests := [a, b, c, back];
    var s := SpreadIsServed(limits, destination, origin);
    SpreadEntries();
    ThreeAdmissionTimes(a, b, c, Destination);
    OneMoreServed(limits, history, s, back, After(limits, s, back));
    assert history + [back] == requests && requests[..3] == history;
    EveryRunKeeps(limits, history);
    PrunedDecidesAsFull(limits, s, history, back);
    FewRequestsExceedNothing(limits, history);
    BackFindsRoom(limits, a, b, c, back);
    RoomKeepsTheLimits(limits, history, back);
  }
}
