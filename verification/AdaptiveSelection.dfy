/** The adaptive question selector: filter to unseen questions on tracked concepts, rank them by
    five keys, and keep the best-ranked question of each prompt until the limit is reached. */
module AdaptiveSelection {
  import opened Wrappers
  import opened StableSort
  import opened TextOrder

  datatype Error = InvalidInput | InvalidConfiguration

  /** `dueAt` as the source reads it: absent, a time, or text that is no time. */
  datatype DueText = NotScheduled | DueAt(at: int) | NotATime

  /** `mastery` is absent where the text is not a five-digit unit value. */
  datatype ConceptState = ConceptState(conceptId: string, due: DueText, mastery: Option<nat>)

  datatype Question = Question(id: string, conceptIds: seq<string>, difficulty: int, normalizedPromptHash: string)

  datatype Input = Input(
    conceptStates: seq<ConceptState>, limit: int, now: Option<int>, questions: seq<Question>,
    seenPromptHashes: set<string>)

  /** An absent time ranks as infinitely late. */
  datatype Tracked = Tracked(dueAt: Option<int>, mastery: nat)

  datatype Candidate = Candidate(
    question: Question, dueRank: int, weakestMastery: int, dueAt: Option<int>, difficultyDistance: int)

  // ----- What a question is for the learner, by the input alone ---------------------------

  /** The masteries of the concepts that the question targets. */
  ghost function Masteries(input: Input, q: Question): set<nat> {
    set st | st in input.conceptStates && st.conceptId in q.conceptIds && st.mastery.Some? :: st.mastery.value
  }

  /** The times at which they fall due. */
  ghost function DueTimes(input: Input, q: Question): set<int> {
    set st | st in input.conceptStates && st.conceptId in q.conceptIds && st.due.DueAt? :: st.due.at
  }

  ghost predicate Selectable(input: Input, q: Question) {
    && q in input.questions && q.normalizedPromptHash !in input.seenPromptHashes
    && exists st :: st in input.conceptStates && st.conceptId in q.conceptIds
  }

  ghost predicate DueNow(input: Input, q: Question) {
    exists t :: t in DueTimes(input, q) && input.now.Some? && t <= input.now.value
  }

  /** The weakest concept of `a` is weaker than that of `b`. */
  ghost predicate Weaker(input: Input, a: Question, b: Question) {
    exists m :: m in Masteries(input, a) && forall n :: n in Masteries(input, b) ==> m < n
  }

  /** Something in `a` is due before anything in `b`. */
  ghost predicate DueSooner(input: Input, a: Question, b: Question) {
    exists t :: t in DueTimes(input, a) && forall u :: u in DueTimes(input, b) ==> t < u
  }

  /** How far the question is from the difficulty that its weakest concept calls for: 1 below 0.40000,
      3 below 0.70000, and 5 from there on. */
  ghost predicate IsOff(input: Input, q: Question, distance: nat) {
    exists m ::
      && m in Masteries(input, q) && (forall n :: n in Masteries(input, q) ==> m <= n)
      && OffBy(q.difficulty, m, distance)
  }

  predicate OffBy(difficulty: int, mastery: nat, distance: nat) {
    var wanted := if mastery >= 70_000 then 5 else if mastery >= 40_000 then 3 else 1;
    wanted - distance == difficulty || wanted + distance == difficulty
  }

  ghost predicate Nearer(input: Input, a: Question, b: Question) {
    exists d, e :: IsOff(input, a, d) && IsOff(input, b, e) && d < e
  }

  /** `a` is to be asked before `b`: something in it is due and nothing in the other; or else it is weaker; or
      else due sooner; or else nearer to the difficulty called for; or else has the smaller identifier. */
  ghost predicate Precedes(input: Input, a: Question, b: Question) {
    if DueNow(input, a) != DueNow(input, b) then DueNow(input, a)
    else if Weaker(input, a, b) || Weaker(input, b, a) then Weaker(input, a, b)
    else if DueSooner(input, a, b) || DueSooner(input, b, a) then DueSooner(input, a, b)
    else if Nearer(input, a, b) || Nearer(input, b, a) then Nearer(input, a, b)
    else TextLeq(a.id, b.id) && a.id != b.id
  }

  ghost predicate Asks(selected: seq<Question>, prompt: string) {
    exists i :: 0 <= i < |selected| && selected[i].normalizedPromptHash == prompt
  }

  /** Another question with the prompt of a selected one, or one whose prompt is not asked at all. */
  ghost predicate Rivals(input: Input, selected: seq<Question>, i: nat, q: Question)
    requires i < |selected|
  {
    && Selectable(input, q)
    && (q.normalizedPromptHash == selected[i].normalizedPromptHash || !Asks(selected, q.normalizedPromptHash))
  }

  /** What a selection must be: selectable questions with different prompts, none of which is preceded by a
      later one, by another question with its prompt, or by a question whose prompt is not asked; and as many
      as the limit allows. */
  ghost predicate WellSelected(input: Input, selected: seq<Question>) {
    && |selected| <= input.limit
    && (forall i :: 0 <= i < |selected| ==> Selectable(input, selected[i]))
    && (forall i, j :: 0 <= i < j < |selected| ==>
          && selected[i].normalizedPromptHash != selected[j].normalizedPromptHash
          && !Precedes(input, selected[j], selected[i]))
    && (forall i, q :: 0 <= i < |selected| && Rivals(input, selected, i, q) ==> !Precedes(input, q, selected[i]))
    && (|selected| < input.limit ==> forall q :: Selectable(input, q) ==> Asks(selected, q.normalizedPromptHash))
  }

  predicate Readable(st: ConceptState) {
    st.mastery.Some? && st.conceptId != [] && !st.due.NotATime?
  }

  ghost predicate Repeats(states: seq<ConceptState>) {
    exists i, j :: 0 <= i < j < |states| && states[i].conceptId == states[j].conceptId
  }

  /** The first concept state that cannot be read names the error: a mastery that is no unit value, or else
      an empty name or a due time that is none. A limit or a clock that says nothing comes first, and a concept
      stated twice last. */
  ghost predicate RefusedFor(input: Input, error: Error) {
    if input.limit < 1 || input.now.None? then error == InvalidInput
    else
      || (exists i :: 0 <= i < |input.conceptStates| && IsFault(input.conceptStates, i, error))
      || (&& error == InvalidInput && (forall st :: st in input.conceptStates ==> Readable(st))
          && Repeats(input.conceptStates))
  }

  predicate IsFault(states: seq<ConceptState>, i: nat, error: Error)
    requires i < |states|
  {
    FirstUnreadable(states, i) && error == if states[i].mastery.None? then InvalidConfiguration else InvalidInput
  }

  predicate FirstUnreadable(states: seq<ConceptState>, i: nat)
    requires i < |states|
  {
    !Readable(states[i]) && forall j :: 0 <= j < i ==> Readable(states[j])
  }

  // ----- Reading the input ----------------------------------------------------------------

  function ReadStates(states: seq<ConceptState>): Result<map<string, Tracked>, Error> {
    if states == [] then Ok(map[])
    else
      var last := states[|states| - 1];
      match ReadStates(states[..|states| - 1])
      case Err(e) => Err(e)
      case Ok(m) =>
        if last.mastery.None? then Err(InvalidConfiguration)
        else if last.conceptId == [] || last.due.NotATime? then Err(InvalidInput)
        else Ok(m[last.conceptId := Tracked(if last.due.DueAt? then Some(last.due.at) else None, last.mastery.value)])
  }

  function Targets(conceptIds: seq<string>, states: map<string, Tracked>): seq<Tracked> {
    if conceptIds == [] then []
    else (if conceptIds[0] in states then [states[conceptIds[0]]] else []) + Targets(conceptIds[1..], states)
  }

  function WeakestMastery(ts: seq<Tracked>): (r: nat)
    requires ts != []
    ensures (exists t :: t in ts && t.mastery == r) && forall t :: t in ts ==> r <= t.mastery
  {
    if |ts| == 1 then ts[0].mastery
    else
      var rest := WeakestMastery(ts[1..]);
      assert ts == [ts[0]] + ts[1..];
      if ts[0].mastery <= rest then ts[0].mastery else rest
  }

  predicate Sooner(a: Option<int>, b: Option<int>) {
    b.None? || (a.Some? && a.value <= b.value)
  }

  function SoonestDue(ts: seq<Tracked>): (r: Option<int>)
    requires ts != []
    ensures (exists t :: t in ts && t.dueAt == r) && forall t :: t in ts ==> Sooner(r, t.dueAt)
  {
    if |ts| == 1 then ts[0].dueAt
    else
      var rest := SoonestDue(ts[1..]);
      assert ts == [ts[0]] + ts[1..];
      if Sooner(ts[0].dueAt, rest) then ts[0].dueAt else rest
  }

  predicate Eligible(q: Question, states: map<string, Tracked>, seen: set<string>) {
    q.normalizedPromptHash !in seen && Targets(q.conceptIds, states) != []
  }

  function Rank(q: Question, states: map<string, Tracked>, now: int): Candidate
    requires Targets(q.conceptIds, states) != []
  {
    var ts := Targets(q.conceptIds, states);
    var weakest, due := WeakestMastery(ts), SoonestDue(ts);
    var desired := if weakest < 40_000 then 1 else if weakest < 70_000 then 3 else 5;
    Candidate(q, if due.Some? && due.value <= now then 0 else 1, weakest, due,
              if q.difficulty < desired then desired - q.difficulty else q.difficulty - desired)
  }

  function Candidates(qs: seq<Question>, states: map<string, Tracked>, seen: set<string>, now: int): (r: seq<Candidate>)
    ensures forall c :: c in r ==>
      c.question in qs && Eligible(c.question, states, seen) && c == Rank(c.question, states, now)
    ensures forall q :: q in qs && Eligible(q, states, seen) ==> Rank(q, states, now) in r
  {
    if qs == [] then []
    else (if Eligible(qs[0], states, seen) then [Rank(qs[0], states, now)] else [])
         + Candidates(qs[1..], states, seen, now)
  }

  // ----- Ranking --------------------------------------------------------------------------

  /** `a` does not rank after `b`. */
  predicate Ahead(a: Candidate, b: Candidate) {
    if a.dueRank != b.dueRank then a.dueRank < b.dueRank
    else if a.weakestMastery != b.weakestMastery then a.weakestMastery < b.weakestMastery
    else if a.dueAt != b.dueAt then Sooner(a.dueAt, b.dueAt)
    else if a.difficultyDistance != b.difficultyDistance then a.difficultyDistance < b.difficultyDistance
    else TextLeq(a.question.id, b.question.id)
  }

  lemma AheadIsTotalPreorder()
    ensures TotalPreorder(Ahead)
  {
    TextLeqIsTotalOrder();
    forall a, b, c | Ahead(a, b) && Ahead(b, c) ensures Ahead(a, c) {
      if TextLeq(a.question.id, b.question.id) && TextLeq(b.question.id, c.question.id) {
        TextLeqTransitive(a.question.id, b.question.id, c.question.id);
      }
    }
  }

  // ----- Choosing -------------------------------------------------------------------------

  function Greedy(cs: seq<Candidate>, seen: set<string>, limit: nat): seq<Candidate>
    requires limit > 0
  {
    if cs == [] then []
    else if cs[0].question.normalizedPromptHash in seen then Greedy(cs[1..], seen, limit)
    else if limit == 1 then [cs[0]]
    else [cs[0]] + Greedy(cs[1..], seen + {cs[0].question.normalizedPromptHash}, limit - 1)
  }

  function Questions(cs: seq<Candidate>): (r: seq<Question>)
    ensures |r| == |cs| && forall i :: 0 <= i < |cs| ==> r[i] == cs[i].question
  {
    seq(|cs|, i requires 0 <= i < |cs| => cs[i].question)
  }

  function Chosen(input: Input): Result<seq<Candidate>, Error> {
    if input.limit < 1 || input.now.None? then Err(InvalidInput)
    else
      match ReadStates(input.conceptStates)
      case Err(e) => Err(e)
      case Ok(states) =>
        if |states| != |input.conceptStates| then Err(InvalidInput)
        else
          var cs := Candidates(input.questions, states, input.seenPromptHashes, input.now.value);
          Ok(Greedy(Sort(Ahead, cs), input.seenPromptHashes, input.limit))
  }

  method SelectAdaptiveQuestions(input: Input) returns (r: Result<seq<Question>, Error>)
    ensures r == match Chosen(input) { case Err(e) => Err(e) case Ok(cs) => Ok(Questions(cs)) }
    ensures r.Ok? ==> WellSelected(input, r.value)
    ensures forall e :: r == Err(e) <==> RefusedFor(input, e)
  {
    RefusedExactly(input);
    if Chosen(input).Ok? {
      ChosenIsWellSelected(input);
    }
    if input.limit < 1 || input.now.None? {
      return Err(InvalidInput);
    }
    var states := ReadStates(input.conceptStates);
    if states.Err? {
      return Err(states.error);
    }
    if |states.value| != |input.conceptStates| {
      return Err(InvalidInput);
    }
    var candidates := Sort(Ahead, Candidates(input.questions, states.value, input.seenPromptHashes, input.now.value));
    var selected := TakeBest(candidates, input.seenPromptHashes, input.limit);
    return Ok(selected);
  }

  /** The loop over the ranked candidates. */
  method TakeBest(candidates: seq<Candidate>, seenPromptHashes: set<string>, limit: nat)
    returns (selected: seq<Question>)
    requires limit > 0
    ensures selected == Questions(Greedy(candidates, seenPromptHashes, limit))
  {
    selected := [];
    ghost var taken: seq<Candidate> := [];
    var seen := seenPromptHashes;
    ghost var all := Greedy(candidates, seen, limit);
    NothingTaken(candidates, seen, limit);
    for i := 0 to |candidates|
      invariant |taken| == |selected| < limit && selected == Questions(taken)
      invariant Left(all, taken, candidates, i, seen, limit - |selected|)
    {
      var candidate := candidates[i];
      LeftAfterOne(all, taken, candidates, i, seen, limit - |selected|);
      if candidate.question.normalizedPromptHash in seen {
        continue;
      }
      seen := seen + {candidate.question.normalizedPromptHash};
      QuestionsOfOneMore(taken, candidate);
      taken, selected := OneMore(taken, candidate), selected + [candidate.question];
      if |selected| == limit {
        return;
      }
    }
    NothingLeft(all, taken, candidates, seen, limit - |selected|);
  }

  function OneMore(taken: seq<Candidate>, c: Candidate): (r: seq<Candidate>)
    ensures |r| == |taken| + 1
  {
    taken + [c]
  }

  /** What was taken so far, and what is taken from the candidates not looked at yet, is all. */
  ghost predicate Left(all: seq<Candidate>, taken: seq<Candidate>, cs: seq<Candidate>, i: nat, seen: set<string>,
      limit: nat)
    requires i <= |cs| && limit > 0
  {
    all == taken + Greedy(cs[i..], seen, limit)
  }

  lemma NothingTaken(cs: seq<Candidate>, seen: set<string>, limit: nat)
    requires limit > 0
    ensures Left(Greedy(cs, seen, limit), [], cs, 0, seen, limit)
  {
    assert cs[0..] == cs;
  }

  lemma NothingLeft(all: seq<Candidate>, taken: seq<Candidate>, cs: seq<Candidate>, seen: set<string>, limit: nat)
    requires limit > 0 && Left(all, taken, cs, |cs|, seen, limit)
    ensures all == taken
  {
    assert cs[|cs|..] == [];
    assert taken + [] == taken;
  }

  lemma QuestionsOfOneMore(cs: seq<Candidate>, c: Candidate)
    ensures Questions(OneMore(cs, c)) == Questions(cs) + [c.question]
  {
  }

  lemma LeftAfterOne(all: seq<Candidate>, taken: seq<Candidate>, cs: seq<Candidate>, i: nat, seen: set<string>,
      limit: nat)
    requires i < |cs| && limit > 0 && Left(all, taken, cs, i, seen, limit)
    ensures var hash := cs[i].question.normalizedPromptHash;
      if hash in seen then Left(all, taken, cs, i + 1, seen, limit)
      else if limit == 1 then all == OneMore(taken, cs[i])
      else Left(all, OneMore(taken, cs[i]), cs, i + 1, seen + {hash}, limit - 1)
  {
    assert cs[i..][0] == cs[i] && cs[i..][1..] == cs[i + 1..];
    var hash := cs[i].question.normalizedPromptHash;
    if hash !in seen && limit > 1 {
      var rest := Greedy(cs[i + 1..], seen + {hash}, limit - 1);
      assert taken + ([cs[i]] + rest) == OneMore(taken, cs[i]) + rest;
    }
  }

  // ----- What is chosen -------------------------------------------------------------------

  ghost function Hashes(cs: seq<Candidate>): set<string> {
    set c | c in cs :: c.question.normalizedPromptHash
  }

  /** The chosen candidates `out` against all candidates `cs`, given the prompts already seen. */
  ghost predicate BestPerPrompt(out: seq<Candidate>, cs: seq<Candidate>, seen: set<string>) {
    && (forall o :: o in out ==> o in cs && o.question.normalizedPromptHash !in seen)
    && (forall i, j :: 0 <= i < j < |out| ==>
      out[i].question.normalizedPromptHash != out[j].question.normalizedPromptHash)
    && SortedBy(Ahead, out)
    && (forall o, c :: o in out && c in cs && c.question.normalizedPromptHash == o.question.normalizedPromptHash ==>
      Ahead(o, c))
    && (forall o, c :: o in out && c in cs && c.question.normalizedPromptHash !in seen + Hashes(out) ==> Ahead(o, c))
  }

  lemma HeadIsAhead(cs: seq<Candidate>, c: Candidate)
    requires SortedBy(Ahead, cs) && c in cs
    ensures Ahead(cs[0], c)
  {
    var i :| 0 <= i < |cs| && cs[i] == c;
    TextLeqTotal(cs[0].question.id, cs[0].question.id);
  }

  lemma {:induction false} GreedyIsBest(cs: seq<Candidate>, seen: set<string>, limit: nat)
    requires limit > 0 && SortedBy(Ahead, cs)
    ensures BestPerPrompt(Greedy(cs, seen, limit), cs, seen)
  {
    if cs != [] {
      var hash := cs[0].question.normalizedPromptHash;
      forall c | c in cs ensures Ahead(cs[0], c) {
        HeadIsAhead(cs, c);
      }
      assert cs == [cs[0]] + cs[1..];
      if hash in seen {
        GreedyIsBest(cs[1..], seen, limit);
      } else if limit > 1 {
        GreedyIsBest(cs[1..], seen + {hash}, limit - 1);
        ConsIsBest(cs[0], Greedy(cs[1..], seen + {hash}, limit - 1), cs[1..], seen);
      }
    }
  }

  lemma ConsIsBest(c0: Candidate, rest: seq<Candidate>, cs: seq<Candidate>, seen: set<string>)
    requires c0.question.normalizedPromptHash !in seen && forall c :: c in [c0] + cs ==> Ahead(c0, c)
    requires BestPerPrompt(rest, cs, seen + {c0.question.normalizedPromptHash})
    ensures BestPerPrompt([c0] + rest, [c0] + cs, seen)
  {
    var out := [c0] + rest;
    assert forall o :: o in out <==> o == c0 || o in rest;
    assert Hashes(out) == {c0.question.normalizedPromptHash} + Hashes(rest);
  }

  lemma HashesOfCons(cs: seq<Candidate>)
    requires cs != []
    ensures Hashes(cs) == {cs[0].question.normalizedPromptHash} + Hashes(cs[1..])
  {
    assert cs == [cs[0]] + cs[1..];
  }

  lemma UnseenOfCons(all: set<string>, hash: string, tail: set<string>, seen: set<string>)
    requires all == {hash} + tail
    ensures hash in seen ==> all - seen == tail - seen
    ensures hash !in seen ==> |all - seen| == 1 + |tail - (seen + {hash})|
  {
    if hash !in seen {
      assert all - seen == {hash} + (tail - (seen + {hash}));
    } else {
      assert all - seen == tail - seen;
    }
  }

  /** Exactly as many as the limit allows and the distinct unseen prompts provide. */
  lemma {:induction false} GreedyCount(cs: seq<Candidate>, seen: set<string>, limit: nat)
    requires limit > 0
    ensures |Greedy(cs, seen, limit)| == if |Hashes(cs) - seen| < limit then |Hashes(cs) - seen| else limit
  {
    if cs != [] {
      var hash := cs[0].question.normalizedPromptHash;
      HashesOfCons(cs);
      UnseenOfCons(Hashes(cs), hash, Hashes(cs[1..]), seen);
      if hash in seen {
        GreedyCount(cs[1..], seen, limit);
      } else if limit > 1 {
        GreedyCount(cs[1..], seen + {hash}, limit - 1);
      }
    }
  }

  /** The result holds pairwise distinct unseen prompts, the least of the limit and the number of
      eligible prompts; each is the best-ranked question of its prompt, they come in rank order,
      and no prompt that was left out ranks ahead of a chosen one. */
  lemma SelectionIsBest(input: Input)
    requires Chosen(input).Ok?
    ensures var states := ReadStates(input.conceptStates).value;
      var cs := Candidates(input.questions, states, input.seenPromptHashes, input.now.value);
      && BestPerPrompt(Chosen(input).value, cs, input.seenPromptHashes)
      && |Chosen(input).value| == if |Hashes(cs)| < input.limit then |Hashes(cs)| else input.limit
  {
    var seen := input.seenPromptHashes;
    var cs := Candidates(input.questions, ReadStates(input.conceptStates).value, seen, input.now.value);
    var sorted := Sort(Ahead, cs);
    AheadIsTotalPreorder();
    SortIsSortedPermutation(Ahead, cs);
    MembershipFollowsMultiset(sorted, cs);
    GreedyIsBest(sorted, seen, input.limit);
    GreedyCount(sorted, seen, input.limit);
    assert Hashes(sorted) == Hashes(cs);
    assert Hashes(cs) - seen == Hashes(cs);
  }

  // ----- Input order ----------------------------------------------------------------------

  lemma {:induction false} CandidatesOfConcatenation(a: seq<Question>, b: seq<Question>, states: map<string, Tracked>,
      seen: set<string>, now: int)
    ensures Candidates(a + b, states, seen, now) == Candidates(a, states, seen, now) + Candidates(b, states, seen, now)
  {
    if a == [] {
      assert a + b == b;
    } else {
      var rest := a[1..] + b;
      assert a + b == [a[0]] + rest && a == [a[0]] + a[1..];
      CandidatesOfConcatenation(a[1..], b, states, seen, now);
      CandidatesOfOneMore(a[0], rest, states, seen, now);
      CandidatesOfOneMore(a[0], a[1..], states, seen, now);
    }
  }

  lemma CandidatesOfOneMore(q: Question, rest: seq<Question>, states: map<string, Tracked>, seen: set<string>, now: int)
    ensures Candidates([q] + rest, states, seen, now)
      == (if Eligible(q, states, seen) then [Rank(q, states, now)] else []) + Candidates(rest, states, seen, now)
  {
    assert ([q] + rest)[1..] == rest;
  }

  lemma {:induction false} CandidatesOfPermutation(a: seq<Question>, b: seq<Question>, states: map<string, Tracked>,
      seen: set<string>, now: int)
    requires multiset(a) == multiset(b)
    ensures multiset(Candidates(a, states, seen, now)) == multiset(Candidates(b, states, seen, now))
  {
    if a == [] {
      assert |multiset(b)| == 0;
    } else {
      var i := OccurrenceOfHead(a, b);
      var others := b[..i] + b[i + 1..];
      assert b == b[..i] + ([b[i]] + b[i + 1..]) && a == [a[0]] + a[1..];
      CandidatesOfPermutation(a[1..], others, states, seen, now);
      CandidatesOfConcatenation(b[..i], [b[i]] + b[i + 1..], states, seen, now);
      CandidatesOfConcatenation([b[i]], b[i + 1..], states, seen, now);
      CandidatesOfConcatenation(b[..i], b[i + 1..], states, seen, now);
      CandidatesOfConcatenation([a[0]], a[1..], states, seen, now);
    }
  }

  /** With pairwise distinct question ids the order in which questions are listed is irrelevant. */
  lemma SelectionIgnoresInputOrder(a: Input, b: Input)
    requires b == a.(questions := b.questions) && multiset(a.questions) == multiset(b.questions)
    requires forall q, r :: q in a.questions && r in a.questions && q.id == r.id ==> q == r
    ensures Chosen(a) == Chosen(b)
  {
    if Chosen(a).Ok? {
      var states, seen, now := ReadStates(a.conceptStates).value, a.seenPromptHashes, a.now.value;
      var cs, ds := Candidates(a.questions, states, seen, now), Candidates(b.questions, states, seen, now);
      CandidatesOfPermutation(a.questions, b.questions, states, seen, now);
      AheadIsTotalPreorder();
      SortIsSortedPermutation(Ahead, cs);
      SortIsSortedPermutation(Ahead, ds);
      MembershipFollowsMultiset(Sort(Ahead, cs), cs);
      SameIdSameCandidate(Sort(Ahead, cs), a.questions, states, now);
      SortedPermutationIsUnique(Ahead, Sort(Ahead, cs), Sort(Ahead, ds));
    }
  }

  lemma TiedMeansSameId(a: Candidate, b: Candidate)
    requires Ahead(a, b) && Ahead(b, a)
    ensures a.question.id == b.question.id
  {
    TextLeqTotal(a.question.id, b.question.id);
  }

  lemma SameIdSameCandidate(cs: seq<Candidate>, qs: seq<Question>, states: map<string, Tracked>, now: int)
    requires forall c :: c in cs ==>
      c.question in qs && Targets(c.question.conceptIds, states) != [] && c == Rank(c.question, states, now)
    requires forall q, r :: q in qs && r in qs && q.id == r.id ==> q == r
    ensures NoTies(Ahead, cs)
  {
    forall i, j | 0 <= i < |cs| && 0 <= j < |cs| && Ahead(cs[i], cs[j]) && Ahead(cs[j], cs[i]) ensures cs[i] == cs[j] {
      TiedMeansSameId(cs[i], cs[j]);
      assert cs[i] in cs && cs[j] in cs;
      assert cs[i].question == cs[j].question;
    }
  }

  // ----- What the selection is for the learner --------------------------------------------

  function TrackedAs(st: ConceptState): Tracked
    requires st.mastery.Some?
  {
    Tracked(if st.due.DueAt? then Some(st.due.at) else None, st.mastery.value)
  }

  ghost predicate Names(states: seq<ConceptState>, c: string) {
    exists i :: 0 <= i < |states| && states[i].conceptId == c
  }

  lemma NamesWithOneMore(front: seq<ConceptState>, last: ConceptState, c: string)
    ensures Names(front + [last], c) <==> Names(front, c) || last.conceptId == c
  {
    var states := front + [last];
    if Names(front, c) {
      var i :| 0 <= i < |front| && front[i].conceptId == c;
      assert states[i].conceptId == c;
    }
    if last.conceptId == c {
      assert states[|front|].conceptId == c;
    }
  }

  lemma {:induction false} ReadExactly(states: seq<ConceptState>)
    ensures ReadStates(states).Ok? <==> forall st :: st in states ==> Readable(st)
  {
    if states != [] {
      var front, last := states[..|states| - 1], states[|states| - 1];
      ReadExactly(front);
      assert states == front + [last];
      assert ReadStates(states).Ok? <==> ReadStates(front).Ok? && Readable(last);
      if forall st :: st in states ==> Readable(st) {
        assert forall st :: st in front ==> st in states;
        assert last in states;
      }
      if ReadStates(front).Ok? && Readable(last) {
        forall st | st in states
          ensures Readable(st)
        {
          assert st in front || st == last;
        }
      }
    }
  }

  lemma {:induction false} ReadNames(states: seq<ConceptState>)
    requires ReadStates(states).Ok?
    ensures |ReadStates(states).value| <= |states|
    ensures forall c :: c in ReadStates(states).value <==> Names(states, c)
  {
    if states != [] {
      var front, last := states[..|states| - 1], states[|states| - 1];
      ReadNames(front);
      assert states == front + [last];
      forall c
        ensures c in ReadStates(states).value <==> Names(states, c)
      {
        NamesWithOneMore(front, last, c);
      }
      ReadsOneMore(front, last);
    }
  }

  lemma ReadsOneMore(front: seq<ConceptState>, last: ConceptState)
    requires ReadStates(front + [last]).Ok?
    ensures ReadStates(front).Ok? && Readable(last)
    ensures ReadStates(front + [last]).value == ReadStates(front).value[last.conceptId := TrackedAs(last)]
    ensures |ReadStates(front + [last]).value|
      == |ReadStates(front).value| + if last.conceptId in ReadStates(front).value then 0 else 1
  {
    assert (front + [last])[..|front|] == front;
    var m := ReadStates(front).value;
    if last.conceptId in m {
      assert m[last.conceptId := TrackedAs(last)].Keys == m.Keys;
    } else {
      MoreKeys(m, last.conceptId, TrackedAs(last));
    }
  }

  lemma RepeatsWithOneMore(front: seq<ConceptState>, last: ConceptState)
    ensures Repeats(front + [last]) <==> Repeats(front) || Names(front, last.conceptId)
  {
    var states := front + [last];
    if Repeats(front) {
      var i, j :| 0 <= i < j < |front| && front[i].conceptId == front[j].conceptId;
      assert states[i].conceptId == states[j].conceptId;
    }
    if Names(front, last.conceptId) {
      var i :| 0 <= i < |front| && front[i].conceptId == last.conceptId;
      assert states[i].conceptId == states[|front|].conceptId;
    }
    if Repeats(states) {
      var i, j :| 0 <= i < j < |states| && states[i].conceptId == states[j].conceptId;
      if j < |front| {
        assert front[i].conceptId == front[j].conceptId;
      } else {
        assert front[i].conceptId == last.conceptId;
      }
    }
  }

  lemma {:induction false} ReadOnce(states: seq<ConceptState>)
    requires ReadStates(states).Ok?
    ensures |ReadStates(states).value| == |states| <==> !Repeats(states)
  {
    if states != [] {
      var front, last := states[..|states| - 1], states[|states| - 1];
      assert states == front + [last];
      ReadsOneMore(front, last);
      ReadOnce(front);
      ReadNames(front);
      RepeatsWithOneMore(front, last);
    }
  }

  lemma {:induction false} ReadAsStated(states: seq<ConceptState>, st: ConceptState)
    requires ReadStates(states).Ok? && !Repeats(states) && st in states
    ensures st.conceptId in ReadStates(states).value && Readable(st)
    ensures ReadStates(states).value[st.conceptId] == TrackedAs(st)
  {
    var front, last := states[..|states| - 1], states[|states| - 1];
    assert states == front + [last];
    ReadsOneMore(front, last);
    RepeatsWithOneMore(front, last);
    if st != last {
      ReadAsStated(front, st);
      var i :| 0 <= i < |front| && front[i] == st;
      assert Names(front, st.conceptId);
    }
  }

  lemma MoreKeys(m: map<string, Tracked>, c: string, t: Tracked)
    requires c !in m
    ensures |m[c := t]| == |m| + 1
  {
    assert m[c := t].Keys == m.Keys + {c};
    assert |m[c := t].Keys| == |m.Keys| + 1;
  }

  lemma {:induction false} FirstFaultIsRead(states: seq<ConceptState>)
    ensures ReadStates(states).Err? ==> exists i :: 0 <= i < |states| && IsFault(states, i, ReadStates(states).error)
  {
    if states != [] && ReadStates(states).Err? {
      var front := states[..|states| - 1];
      FirstFaultIsRead(front);
      ReadExactly(front);
      if ReadStates(front).Err? {
        var i :| 0 <= i < |front| && IsFault(front, i, ReadStates(front).error);
        assert IsFault(states, i, ReadStates(states).error);
      } else {
        forall j | 0 <= j < |front|
          ensures Readable(states[j])
        {
          assert front[j] in front;
        }
        assert IsFault(states, |front|, ReadStates(states).error);
      }
    }
  }

  lemma OneFirstFault(states: seq<ConceptState>, i: nat, j: nat)
    requires i < |states| && j < |states| && FirstUnreadable(states, i) && FirstUnreadable(states, j)
    ensures i == j
  {
  }

  lemma RefusedExactly(input: Input)
    ensures forall e :: Chosen(input) == Err(e) <==> RefusedFor(input, e)
  {
    var states := input.conceptStates;
    ReadExactly(states);
    FirstFaultIsRead(states);
    if ReadStates(states).Ok? {
      ReadOnce(states);
      forall i | 0 <= i < |states|
        ensures !FirstUnreadable(states, i)
      {
        assert states[i] in states;
      }
    } else {
      var i :| 0 <= i < |states| && IsFault(states, i, ReadStates(states).error);
      forall j | 0 <= j < |states| && FirstUnreadable(states, j)
        ensures j == i
      {
        OneFirstFault(states, i, j);
      }
    }
  }

  lemma {:induction false} TargetsAre(conceptIds: seq<string>, states: map<string, Tracked>)
    ensures forall t :: t in Targets(conceptIds, states) <==>
      exists c :: c in conceptIds && c in states && states[c] == t
  {
    if conceptIds != [] {
      TargetsAre(conceptIds[1..], states);
      assert conceptIds == [conceptIds[0]] + conceptIds[1..];
    }
  }

  /** The states of the input, as they were read. */
  ghost predicate ReadFrom(input: Input, states: map<string, Tracked>) {
    && (forall st :: st in input.conceptStates ==>
          st.conceptId in states && st.mastery.Some? && !st.due.NotATime? && states[st.conceptId] == TrackedAs(st))
    && (forall c :: c in states ==> exists st :: st in input.conceptStates && st.conceptId == c)
  }

  lemma TargetIsStated(input: Input, states: map<string, Tracked>, q: Question, t: Tracked) returns (st: ConceptState)
    requires ReadFrom(input, states) && t in Targets(q.conceptIds, states)
    ensures st in input.conceptStates && st.conceptId in q.conceptIds && st.mastery.Some? && t == TrackedAs(st)
  {
    TargetsAre(q.conceptIds, states);
    var c :| c in q.conceptIds && c in states && states[c] == t;
    st :| st in input.conceptStates && st.conceptId == c;
  }

  lemma StatedIsTarget(input: Input, states: map<string, Tracked>, q: Question, st: ConceptState)
    requires ReadFrom(input, states) && st in input.conceptStates && st.conceptId in q.conceptIds
    ensures st.mastery.Some? && TrackedAs(st) in Targets(q.conceptIds, states)
  {
    TargetsAre(q.conceptIds, states);
  }

  lemma WeakestIsLeast(input: Input, states: map<string, Tracked>, q: Question)
    requires ReadFrom(input, states) && Targets(q.conceptIds, states) != []
    ensures var m := WeakestMastery(Targets(q.conceptIds, states));
      m in Masteries(input, q) && forall n :: n in Masteries(input, q) ==> m <= n
  {
    var ts := Targets(q.conceptIds, states);
    var m := WeakestMastery(ts);
    var t :| t in ts && t.mastery == m;
    var st := TargetIsStated(input, states, q, t);
    forall n | n in Masteries(input, q)
      ensures WeakestMastery(ts) <= n
    {
      var other :| other in input.conceptStates && other.conceptId in q.conceptIds && other.mastery == Some(n);
      StatedIsTarget(input, states, q, other);
    }
  }

  lemma SoonestIsLeast(input: Input, states: map<string, Tracked>, q: Question)
    requires ReadFrom(input, states) && Targets(q.conceptIds, states) != []
    ensures var due := SoonestDue(Targets(q.conceptIds, states));
      && (due.Some? ==> due.value in DueTimes(input, q))
      && forall u :: u in DueTimes(input, q) ==> due.Some? && due.value <= u
  {
    var ts := Targets(q.conceptIds, states);
    var due := SoonestDue(ts);
    var t :| t in ts && t.dueAt == due;
    var st := TargetIsStated(input, states, q, t);
    forall u | u in DueTimes(input, q)
      ensures SoonestDue(ts).Some? && SoonestDue(ts).value <= u
    {
      var other :| other in input.conceptStates && other.conceptId in q.conceptIds && other.due == DueAt(u);
      StatedIsTarget(input, states, q, other);
      assert Sooner(SoonestDue(ts), TrackedAs(other).dueAt);
    }
  }

  /** The candidate's keys are what the input says of its question. */
  ghost predicate KeysOf(input: Input, c: Candidate) {
    && (c.dueRank == if DueNow(input, c.question) then 0 else 1)
    && c.weakestMastery >= 0 && c.difficultyDistance >= 0
    && c.weakestMastery in Masteries(input, c.question)
    && (forall n :: n in Masteries(input, c.question) ==> c.weakestMastery <= n)
    && (c.dueAt.Some? ==> c.dueAt.value in DueTimes(input, c.question))
    && (forall u :: u in DueTimes(input, c.question) ==> c.dueAt.Some? && c.dueAt.value <= u)
    && OffBy(c.question.difficulty, c.weakestMastery, c.difficultyDistance)
  }

  lemma RankHasKeys(input: Input, states: map<string, Tracked>, q: Question)
    requires input.now.Some? && ReadFrom(input, states) && Targets(q.conceptIds, states) != []
    ensures KeysOf(input, Rank(q, states, input.now.value))
  {
    WeakestIsLeast(input, states, q);
    SoonestIsLeast(input, states, q);
  }

  lemma OffByOnce(difficulty: int, mastery: nat, d: nat, e: nat)
    requires OffBy(difficulty, mastery, d) && OffBy(difficulty, mastery, e)
    ensures d == e
  {
  }

  lemma OffIsDistance(input: Input, c: Candidate, d: nat)
    requires KeysOf(input, c) && IsOff(input, c.question, d)
    ensures d == c.difficultyDistance
  {
    var m :| m in Masteries(input, c.question) && (forall n :: n in Masteries(input, c.question) ==> m <= n)
      && OffBy(c.question.difficulty, m, d);
    OffByOnce(c.question.difficulty, m, d, c.difficultyDistance);
  }

  /** Each comparison of the input's words is one of the candidates' keys. */
  lemma KeysCompare(input: Input, a: Candidate, b: Candidate)
    requires KeysOf(input, a) && KeysOf(input, b)
    ensures Weaker(input, a.question, b.question) <==> a.weakestMastery < b.weakestMastery
    ensures DueSooner(input, a.question, b.question) <==>
      a.dueAt.Some? && (b.dueAt.None? || a.dueAt.value < b.dueAt.value)
    ensures Nearer(input, a.question, b.question) <==> a.difficultyDistance < b.difficultyDistance
  {
    if Nearer(input, a.question, b.question) {
      var d, e :| IsOff(input, a.question, d) && IsOff(input, b.question, e) && d < e;
      OffIsDistance(input, a, d);
      OffIsDistance(input, b, e);
    }
    if a.difficultyDistance < b.difficultyDistance {
      assert IsOff(input, a.question, a.difficultyDistance) && IsOff(input, b.question, b.difficultyDistance);
    }
  }

  lemma AheadIsNotPreceded(input: Input, a: Candidate, b: Candidate)
    requires KeysOf(input, a) && KeysOf(input, b)
    ensures Precedes(input, b.question, a.question) <==> !Ahead(a, b)
  {
    KeysCompare(input, a, b);
    KeysCompare(input, b, a);
    NotAheadIsBehind(a, b);
  }

  /** The same order on the keys. */
  predicate Behind(a: Candidate, b: Candidate) {
    if b.dueRank != a.dueRank then b.dueRank < a.dueRank
    else if b.weakestMastery != a.weakestMastery then b.weakestMastery < a.weakestMastery
    else if b.dueAt != a.dueAt then b.dueAt.Some? && (a.dueAt.None? || b.dueAt.value < a.dueAt.value)
    else if b.difficultyDistance != a.difficultyDistance then b.difficultyDistance < a.difficultyDistance
    else TextLeq(b.question.id, a.question.id) && a.question.id != b.question.id
  }

  lemma NotAheadIsBehind(a: Candidate, b: Candidate)
    ensures Behind(a, b) <==> !Ahead(a, b)
  {
    TextLeqTotal(a.question.id, b.question.id);
  }

  lemma SelectableIsCandidate(input: Input, states: map<string, Tracked>, q: Question)
    requires ReadFrom(input, states) && input.now.Some?
    ensures Selectable(input, q) <==> q in input.questions && Eligible(q, states, input.seenPromptHashes)
  {
    if Selectable(input, q) {
      var st :| st in input.conceptStates && st.conceptId in q.conceptIds;
      StatedIsTarget(input, states, q, st);
    } else if q in input.questions && Eligible(q, states, input.seenPromptHashes) {
      var st := TargetIsStated(input, states, q, Targets(q.conceptIds, states)[0]);
    }
  }

  lemma StatesAreReadFrom(input: Input)
    requires Chosen(input).Ok?
    ensures ReadFrom(input, ReadStates(input.conceptStates).value)
  {
    var states := input.conceptStates;
    ReadOnce(states);
    ReadNames(states);
    forall st | st in states
      ensures st.conceptId in ReadStates(states).value && Readable(st)
      ensures ReadStates(states).value[st.conceptId] == TrackedAs(st)
    {
      ReadAsStated(states, st);
    }
    forall c | c in ReadStates(states).value
      ensures exists st :: st in states && st.conceptId == c
    {
      var i :| 0 <= i < |states| && states[i].conceptId == c;
      assert states[i] in states;
    }
  }

  /** The selection in terms of the candidates, for the questions of the selection. */
  ghost predicate ChosenFrom(input: Input, out: seq<Candidate>, cs: seq<Candidate>) {
    && BestPerPrompt(out, cs, input.seenPromptHashes)
    && |out| == (if |Hashes(cs)| < input.limit then |Hashes(cs)| else input.limit)
    && (forall c :: c in cs ==> KeysOf(input, c) && Selectable(input, c.question))
    && (forall q :: Selectable(input, q) ==> exists c :: c in cs && c.question == q)
  }

  lemma CandidatesAreSelectable(input: Input)
    requires Chosen(input).Ok?
    ensures ChosenFrom(input, Chosen(input).value,
      Candidates(input.questions, ReadStates(input.conceptStates).value, input.seenPromptHashes, input.now.value))
  {
    var states := ReadStates(input.conceptStates).value;
    var cs := Candidates(input.questions, states, input.seenPromptHashes, input.now.value);
    SelectionIsBest(input);
    StatesAreReadFrom(input);
    forall c | c in cs
      ensures KeysOf(input, c) && Selectable(input, c.question)
    {
      RankHasKeys(input, states, c.question);
      SelectableIsCandidate(input, states, c.question);
    }
    forall q | Selectable(input, q)
      ensures exists c :: c in cs && c.question == q
    {
      SelectableIsCandidate(input, states, q);
      assert Rank(q, states, input.now.value) in cs;
    }
  }

  lemma EveryPromptIsAsked(out: seq<Candidate>, cs: seq<Candidate>, c: Candidate)
    requires (forall i, j :: 0 <= i < j < |out| ==>
                out[i].question.normalizedPromptHash != out[j].question.normalizedPromptHash)
    requires (forall o :: o in out ==> o in cs) && |out| == |Hashes(cs)| && c in cs
    ensures Asks(Questions(out), c.question.normalizedPromptHash)
  {
    AsManyHashes(out);
    assert Hashes(out) <= Hashes(cs);
    SubsetOfSameSize(Hashes(out), Hashes(cs));
    assert c.question.normalizedPromptHash in Hashes(cs);
    var o :| o in out && o.question.normalizedPromptHash == c.question.normalizedPromptHash;
    var i :| 0 <= i < |out| && out[i] == o;
    assert Questions(out)[i].normalizedPromptHash == c.question.normalizedPromptHash;
  }

  lemma {:induction false} AsManyHashes(out: seq<Candidate>)
    requires forall i, j :: 0 <= i < j < |out| ==>
      out[i].question.normalizedPromptHash != out[j].question.normalizedPromptHash
    ensures |Hashes(out)| == |out|
  {
    if out != [] {
      AsManyHashes(out[1..]);
      HashesOfCons(out);
      forall o | o in out[1..]
        ensures o.question.normalizedPromptHash != out[0].question.normalizedPromptHash
      {
        var i :| 0 <= i < |out[1..]| && out[1..][i] == o;
      }
    }
  }

  lemma SubsetOfSameSize(a: set<string>, b: set<string>)
    requires a <= b && |a| == |b|
    ensures a == b
  {
    if a != b {
      var x :| x in b && x !in a;
      assert a <= b - {x} && |b - {x}| == |b| - 1;
      SmallerSubset(a, b - {x});
    }
  }

  lemma {:induction false} SmallerSubset(a: set<string>, b: set<string>)
    requires a <= b
    ensures |a| <= |b|
  {
    if a != {} {
      var x :| x in a;
      SmallerSubset(a - {x}, b - {x});
    }
  }

  /** What the learner is asked is a well selected list, whatever the input. */
  lemma ChosenIsWellSelected(input: Input)
    requires Chosen(input).Ok?
    ensures WellSelected(input, Questions(Chosen(input).value))
  {
    var out := Chosen(input).value;
    var states := ReadStates(input.conceptStates).value;
    var cs := Candidates(input.questions, states, input.seenPromptHashes, input.now.value);
    CandidatesAreSelectable(input);
    FromCandidates(input, out, cs);
  }

  lemma FromCandidates(input: Input, out: seq<Candidate>, cs: seq<Candidate>)
    requires ChosenFrom(input, out, cs)
    ensures WellSelected(input, Questions(out))
  {
    var selected := Questions(out);
    forall i, j | 0 <= i < j < |selected|
      ensures !Precedes(input, selected[j], selected[i])
    {
      assert Ahead(out[i], out[j]);
      AheadIsNotPreceded(input, out[i], out[j]);
    }
    forall i, q | 0 <= i < |selected| && Rivals(input, selected, i, q)
      ensures !Precedes(input, q, selected[i])
    {
      var c :| c in cs && c.question == q;
      OmittedIsBehind(input, out, cs, i, c);
    }
    if |selected| < input.limit {
      forall q | Selectable(input, q)
        ensures Asks(selected, q.normalizedPromptHash)
      {
        var c :| c in cs && c.question == q;
        EveryPromptIsAsked(out, cs, c);
      }
    }
  }

  lemma OmittedIsBehind(input: Input, out: seq<Candidate>, cs: seq<Candidate>, i: nat, c: Candidate)
    requires ChosenFrom(input, out, cs) && i < |out| && c in cs
    requires c.question.normalizedPromptHash == out[i].question.normalizedPromptHash
      || !Asks(Questions(out), c.question.normalizedPromptHash)
    ensures !Precedes(input, c.question, out[i].question)
  {
    assert out[i] in out;
    if c.question.normalizedPromptHash != out[i].question.normalizedPromptHash {
      forall o | o in out
        ensures o.question.normalizedPromptHash != c.question.normalizedPromptHash
      {
        var k :| 0 <= k < |out| && out[k] == o;
        assert Questions(out)[k].normalizedPromptHash == o.question.normalizedPromptHash;
      }
      assert Selectable(input, c.question);
    }
    AheadIsNotPreceded(input, out[i], c);
  }
}
