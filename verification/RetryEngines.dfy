/** The two bounded redelivery loops of the API process. What the services they call answer is given:
    as the list of the answers so far for a generation, as a function from the number of the call for an
    ingestion, so that nothing bounds the loops but what they read and count themselves. */
module RetryEngines {
  import opened Wrappers
  import opened ActivationOperations

  const MAX_ATTEMPTS: nat := 5

  // ----- One activation operation ---------------------------------------------------------

  datatype View = View(status: Status, attemptCount: nat)

  /** What `run` returns, and how long it took. */
  datatype Answer = Answer(view: View, tookMs: nat)

  datatype Policy = Policy(deadlineMs: nat, budgetMs: nat, retryDelaysMs: seq<nat>)

  predicate ValidPolicy(p: Policy) {
    |p.retryDelaysMs| == MAX_ATTEMPTS - 1
  }

  /** Where the loop stands when it looks at an operation: milliseconds since it began, runs so far. */
  datatype Loop = Loop(view: View, elapsedMs: nat, runs: nat)

  predicate Runnable(view: View) {
    view.status == Queued || view.status == RetryScheduled
  }

  function Deadline(p: Policy, elapsedMs: nat): nat {
    var remaining := if p.budgetMs > elapsedMs then p.budgetMs - elapsedMs else 1;
    if p.deadlineMs < remaining then p.deadlineMs else remaining
  }

  function DelayAfter(p: Policy, view: View): Option<nat> {
    if view.status == RetryScheduled && 1 <= view.attemptCount <= |p.retryDelaysMs|
    then Some(p.retryDelaysMs[view.attemptCount - 1]) else None
  }

  function Next(p: Policy, l: Loop, a: Answer): Loop {
    var delay := match DelayAfter(p, a.view) case Some(delay) => delay case None => 0;
    Loop(a.view, l.elapsedMs + a.tookMs + delay, l.runs + 1)
  }

  function AfterRuns(p: Policy, initial: View, answers: seq<Answer>, n: nat): Loop
    requires n <= |answers|
  {
    if n == 0 then Loop(initial, 0, 0) else Next(p, AfterRuns(p, initial, answers, n - 1), answers[n - 1])
  }

  predicate KeptDeadline(p: Policy, initial: View, answers: seq<Answer>, n: nat)
    requires n < |answers|
  {
    answers[n].tookMs <= Deadline(p, AfterRuns(p, initial, answers, n).elapsedMs)
  }

  /** Every run ended within the deadline it was given. */
  ghost predicate KeepsDeadlines(p: Policy, initial: View, answers: seq<Answer>) {
    forall n: nat :: n < |answers| ==> KeptDeadline(p, initial, answers, n)
  }

  /** A granted claim counts one more attempt, so a run that leaves the operation for a retry reports
      more attempts than the operation had before. */
  predicate CountedAttempt(initial: View, answers: seq<Answer>, n: nat)
    requires n < |answers|
  {
    answers[n].view.status == RetryScheduled ==>
      answers[n].view.attemptCount > if n == 0 then initial.attemptCount else answers[n - 1].view.attemptCount
  }

  ghost predicate CountsAttempts(initial: View, answers: seq<Answer>) {
    forall n: nat :: n < |answers| ==> CountedAttempt(initial, answers, n)
  }

  predicate Retried(p: Policy, a: Answer) {
    DelayAfter(p, a.view).Some?
  }

  /** Each of these runs left the operation for a retry, with a delay to wait for. */
  predicate AllRetried(p: Policy, answers: seq<Answer>) {
    forall n :: 0 <= n < |answers| ==> Retried(p, answers[n])
  }

  function Sum(delays: seq<nat>): nat {
    if delays == [] then 0 else Sum(delays[..|delays| - 1]) + delays[|delays| - 1]
  }

  lemma {:induction false} SumGrows(delays: seq<nat>, i: nat, j: nat)
    requires i <= j <= |delays|
    ensures Sum(delays[..i]) <= Sum(delays[..j])
    decreases j - i
  {
    if i < j {
      SumGrows(delays, i, j - 1);
      assert delays[..j][..j - 1] == delays[..j - 1];
    }
  }

  /** Delays are taken at growing positions, so each of them is waited for at most once. */
  lemma DelaysAddUp(delays: seq<nat>, before: nat, after: nat)
    requires before < after <= |delays|
    ensures Sum(delays[..before]) + delays[after - 1] <= Sum(delays[..after])
  {
    SumGrows(delays, before, after - 1);
    assert delays[..after][..after - 1] == delays[..after - 1];
  }

  ghost predicate WithinBudget(p: Policy, elapsed: nat, delayed: nat, runs: nat)
    requires delayed <= |p.retryDelaysMs|
  {
    elapsed <= p.budgetMs + Sum(p.retryDelaysMs[..delayed]) + runs
  }

  lemma RunStaysWithinBudget(p: Policy, l: Loop, a: Answer, delayed: nat)
    requires delayed <= |p.retryDelaysMs| && WithinBudget(p, l.elapsedMs, delayed, l.runs)
    requires a.tookMs <= Deadline(p, l.elapsedMs)
    requires DelayAfter(p, a.view).Some? ==> a.view.attemptCount > delayed
    ensures DelayAfter(p, a.view).None? ==> Next(p, l, a).elapsedMs <= p.budgetMs + Sum(p.retryDelaysMs) + l.runs + 1
    ensures DelayAfter(p, a.view).Some? ==> WithinBudget(p, Next(p, l, a).elapsedMs, a.view.attemptCount, l.runs + 1)
  {
    assert WithinBudget(p, l.elapsedMs + a.tookMs, delayed, l.runs + 1);
    if DelayAfter(p, a.view).Some? {
      DelaysAddUp(p.retryDelaysMs, delayed, a.view.attemptCount);
    } else {
      assert p.retryDelaysMs[..|p.retryDelaysMs|] == p.retryDelaysMs;
      SumGrows(p.retryDelaysMs, delayed, |p.retryDelaysMs|);
    }
  }

  lemma AttemptsGrow(p: Policy, initial: View, answers: seq<Answer>, n: nat)
    requires n < |answers| && CountsAttempts(initial, answers)
    ensures answers[n].view.status == RetryScheduled ==>
      answers[n].view.attemptCount > AfterRuns(p, initial, answers, n).view.attemptCount
  {
    assert CountedAttempt(initial, answers, n);
  }

  /** What growing counts keep whenever the loop looks at an operation; `delayed` counts the delays
      passed over. */
  ghost predicate LoopOk(p: Policy, initial: View, l: Loop, delayed: nat) {
    && delayed <= |p.retryDelaysMs|
    && (if l.runs == 0 then l.view == initial && delayed == 0
        else
          && Runnable(initial) && DelayAfter(p, l.view).Some?
          && delayed == l.view.attemptCount && l.runs + initial.attemptCount <= delayed)
  }

  lemma LoopStaysOk(p: Policy, initial: View, l: Loop, delayed: nat, a: Answer)
    requires ValidPolicy(p) && LoopOk(p, initial, l, delayed) && Runnable(l.view)
    requires a.view.status == RetryScheduled ==> a.view.attemptCount > l.view.attemptCount
    ensures DelayAfter(p, a.view).Some? ==>
      a.view.attemptCount > delayed && LoopOk(p, initial, Next(p, l, a), a.view.attemptCount)
    ensures l.runs < MAX_ATTEMPTS && (l.runs == 0 || l.runs + 1 + initial.attemptCount <= MAX_ATTEMPTS)
  {
  }

  ghost predicate RunsWithin(initial: View, runs: nat) {
    runs <= MAX_ATTEMPTS && (runs <= 1 || runs + initial.attemptCount <= MAX_ATTEMPTS)
  }

  /** What growing counts and kept deadlines keep whenever the loop looks at an operation. */
  ghost predicate Bounded(p: Policy, initial: View, answers: seq<Answer>, l: Loop, delayed: nat) {
    CountsAttempts(initial, answers) ==>
      && LoopOk(p, initial, l, delayed)
      && (KeepsDeadlines(p, initial, answers) ==> WithinBudget(p, l.elapsedMs, delayed, l.runs))
  }

  /** What they imply when it stops looking. */
  ghost predicate EndsBounded(p: Policy, initial: View, answers: seq<Answer>, l: Loop) {
    CountsAttempts(initial, answers) ==>
      && RunsWithin(initial, l.runs)
      && (KeepsDeadlines(p, initial, answers) ==> l.elapsedMs <= p.budgetMs + Sum(p.retryDelaysMs) + MAX_ATTEMPTS)
  }

  lemma OneMoreRun(p: Policy, initial: View, answers: seq<Answer>, l: Loop, delayed: nat)
    requires ValidPolicy(p) && l.runs < |answers| && Runnable(l.view) && l == AfterRuns(p, initial, answers, l.runs)
    requires Bounded(p, initial, answers, l, delayed)
    ensures var a := answers[l.runs];
      if Retried(p, a) then Bounded(p, initial, answers, Next(p, l, a), a.view.attemptCount)
      else EndsBounded(p, initial, answers, Next(p, l, a))
  {
    if CountsAttempts(initial, answers) {
      var a := answers[l.runs];
      AttemptsGrow(p, initial, answers, l.runs);
      LoopStaysOk(p, initial, l, delayed, a);
      if KeepsDeadlines(p, initial, answers) {
        assert KeptDeadline(p, initial, answers, l.runs);
        RunStaysWithinBudget(p, l, a, delayed);
      }
    }
  }

  lemma StopsBounded(p: Policy, initial: View, answers: seq<Answer>, l: Loop, delayed: nat)
    requires ValidPolicy(p) && Bounded(p, initial, answers, l, delayed)
    ensures EndsBounded(p, initial, answers, l)
    ensures CountsAttempts(initial, answers) ==> l.runs < MAX_ATTEMPTS
  {
    if CountsAttempts(initial, answers) {
      SumGrows(p.retryDelaysMs, delayed, |p.retryDelaysMs|);
      assert p.retryDelaysMs[..|p.retryDelaysMs|] == p.retryDelaysMs;
    }
  }

  /** The loop against the answers the service has given so far; not done, it awaits one more. It ends at
      the first answer that is not to be retried. If the reported attempts grow, it ends after at most
      five runs of a fresh operation: one for each attempt left, and one in any case. If also every run
      keeps its deadline the whole takes at most the budget, each delay once, and one millisecond for
      each run that is started with the budget used up. */
  method RunOperation(p: Policy, initial: View, answers: seq<Answer>) returns (l: Loop, done: bool)
    requires ValidPolicy(p)
    ensures l.runs <= |answers| && l == AfterRuns(p, initial, answers, l.runs)
    ensures done <==> !Runnable(initial) || exists n :: 0 <= n < |answers| && !Retried(p, answers[n])
    ensures if !Runnable(initial) then l.runs == 0
            else if done then l.runs > 0 && AllRetried(p, answers[..l.runs - 1]) && !Retried(p, answers[l.runs - 1])
            else l.runs == |answers|
    ensures CountsAttempts(initial, answers) ==> RunsWithin(initial, l.runs) && (|answers| >= MAX_ATTEMPTS ==> done)
    ensures CountsAttempts(initial, answers) && KeepsDeadlines(p, initial, answers) ==>
      l.elapsedMs <= p.budgetMs + Sum(p.retryDelaysMs) + MAX_ATTEMPTS
  {
    l := Loop(initial, 0, 0);
    ghost var delayed: nat := 0;
    while Runnable(l.view)
      invariant l.runs <= |answers| && l == AfterRuns(p, initial, answers, l.runs)
      invariant l.runs > 0 ==> Runnable(initial) && Runnable(l.view)
      invariant AllRetried(p, answers[..l.runs])
      invariant Bounded(p, initial, answers, l, delayed)
      decreases |answers| - l.runs
    {
      if l.runs == |answers| {
        assert answers[..|answers|] == answers;
        StopsBounded(p, initial, answers, l, delayed);
        return l, false;
      }
      var answer := answers[l.runs];
      ghost var next := Next(p, l, answer);
      OneMoreRun(p, initial, answers, l, delayed);
      l := Loop(answer.view, l.elapsedMs + answer.tookMs, l.runs + 1);
      var delay := DelayAfter(p, l.view);
      if delay.None? {
        assert l == next && !Retried(p, answers[l.runs - 1]);
        return l, true;
      }
      l := l.(elapsedMs := l.elapsedMs + delay.value);
      assert l == next && Retried(p, answer);
      delayed := l.view.attemptCount;
    }
    done := true;
  }

  /** The bound rests on the attempts that the service reports: with a count that does not grow there is
      a service, keeping every deadline, that the loop never gets done with. */
  lemma WithoutCountingThereIsNoBound(p: Policy, initial: View, n: nat) returns (answers: seq<Answer>)
    requires ValidPolicy(p) && Runnable(initial)
    ensures |answers| == n && AllRetried(p, answers) && KeepsDeadlines(p, initial, answers)
    ensures n > MAX_ATTEMPTS ==> !CountsAttempts(initial, answers)
  {
    var again := Answer(View(RetryScheduled, 1), 0);
    answers := seq(n, _ => again);
    forall i: nat | i < |answers|
      ensures KeptDeadline(p, initial, answers, i)
    {
    }
    if n > MAX_ATTEMPTS {
      assert !CountedAttempt(initial, answers, 1);
    }
  }

  // ----- What the loop's moments are made of ----------------------------------------------

  /** The wait after a run: the first of four delays after the first attempt, and none unless the run left
      the operation for a retry. */
  ghost predicate WaitIs(p: Policy, view: View, wait: int) {
    if view.status == RetryScheduled && 1 <= view.attemptCount <= 4 && view.attemptCount <= |p.retryDelaysMs|
    then wait == p.retryDelaysMs[view.attemptCount - 1]
    else wait == 0
  }

  lemma DelayIsThatOfTheAttempt(p: Policy, view: View)
    requires ValidPolicy(p)
    ensures DelayAfter(p, view).Some? ==> WaitIs(p, view, DelayAfter(p, view).value)
    ensures DelayAfter(p, view).None? ==> WaitIs(p, view, 0)
    ensures DelayAfter(p, view).Some? <==> view.status == RetryScheduled && 1 <= view.attemptCount <= 4
  {
  }

  /** A run may take as long as its kind of artifact allows and as the budget leaves, yet one millisecond. */
  lemma DeadlineIsWhatRemains(p: Policy, elapsedMs: nat, ms: int)
    ensures ms <= Deadline(p, elapsedMs) <==> ms <= p.deadlineMs && (ms <= p.budgetMs - elapsedMs || ms <= 1)
  {
  }

  ghost function Spent(answers: seq<Answer>): nat {
    if answers == [] then 0 else Spent(answers[..|answers| - 1]) + answers[|answers| - 1].tookMs
  }

  ghost predicate AreWaits(p: Policy, answers: seq<Answer>, waits: seq<nat>) {
    |waits| == |answers| && forall i :: 0 <= i < |waits| ==> WaitIs(p, answers[i].view, waits[i])
  }

  lemma NextSpendsAndWaits(p: Policy, l: Loop, a: Answer) returns (wait: nat)
    requires ValidPolicy(p)
    ensures WaitIs(p, a.view, wait)
    ensures Next(p, l, a) == Loop(a.view, l.elapsedMs + a.tookMs + wait, l.runs + 1)
  {
    DelayIsThatOfTheAttempt(p, a.view);
    wait := if DelayAfter(p, a.view).Some? then DelayAfter(p, a.view).value else 0;
  }

  /** After n runs the loop has spent what they took and the waits after them, and has the last one's view. */
  lemma {:induction false} TimeIsRunsAndWaits(p: Policy, initial: View, answers: seq<Answer>, n: nat)
    returns (waits: seq<nat>)
    requires ValidPolicy(p) && n <= |answers|
    ensures AreWaits(p, answers[..n], waits)
    ensures AfterRuns(p, initial, answers, n)
      == Loop(if n == 0 then initial else answers[n - 1].view, Spent(answers[..n]) + Sum(waits), n)
  {
    if n == 0 {
      waits := [];
    } else {
      var before := TimeIsRunsAndWaits(p, initial, answers, n - 1);
      var wait := NextSpendsAndWaits(p, AfterRuns(p, initial, answers, n - 1), answers[n - 1]);
      waits := before + [wait];
      assert waits[..n - 1] == before && answers[..n][..n - 1] == answers[..n - 1];
    }
  }

  // ----- One uploaded document ------------------------------------------------------------

  const MAX_INGESTION_DELIVERIES: nat := 5

  datatype Ingestion = InProgress | Finished | FailedFor(retryable: bool)

  datatype UploadPolicy = UploadPolicy(retryDelaysMs: seq<nat>, activePollLimit: nat)

  predicate ValidUploadPolicy(p: UploadPolicy) {
    |p.retryDelaysMs| == MAX_INGESTION_DELIVERIES - 1 && 1 <= p.activePollLimit <= 2_400
  }

  predicate Retryable(r: Ingestion) {
    r == FailedFor(true)
  }

  /** How many of the first `n` answers were of this kind. */
  function Answers(results: nat -> Ingestion, n: nat, kind: Ingestion): nat {
    if n == 0 then 0 else Answers(results, n - 1, kind) + if results(n - 1) == kind then 1 else 0
  }

  /** Polls while another worker is active, redelivers after retryable failures, and after the fifth
      asks once more, so that the durable store settles the exhausted budget. The source's last line
      returns nothing; no path reaches it. */
  method RunIngestion(p: UploadPolicy, results: nat -> Ingestion) returns (result: Option<Ingestion>, executions: nat)
    requires ValidUploadPolicy(p)
    ensures result.Some? && executions > 0 && result.value == results(executions - 1)
    ensures executions <= p.activePollLimit + 6
    ensures forall i :: 0 <= i < executions - 1 ==> results(i) == InProgress || results(i) == FailedFor(true)
    ensures Answers(results, executions - 1, InProgress) <= p.activePollLimit
    ensures
      || result.value == Finished || result.value == FailedFor(false)
      || (result.value == InProgress && Answers(results, executions, InProgress) == p.activePollLimit + 1)
      || (executions > 1 && results(executions - 2) == FailedFor(true)
          && Answers(results, executions - 1, FailedFor(true)) == 5)
    ensures Answers(results, executions - 1, FailedFor(true)) < 5
      || (executions > 1 && results(executions - 2) == FailedFor(true)
          && Answers(results, executions - 1, FailedFor(true)) == 5)
  {
    var activePolls, delivery := 0, 1;
    executions := 0;
    while delivery <= MAX_INGESTION_DELIVERIES
      invariant 1 <= delivery <= MAX_INGESTION_DELIVERIES && activePolls <= p.activePollLimit
      invariant executions == activePolls + delivery - 1
      invariant activePolls == Answers(results, executions, InProgress)
      invariant delivery - 1 == Answers(results, executions, FailedFor(true))
      invariant forall i :: 0 <= i < executions ==> results(i) == InProgress || Retryable(results(i))
      decreases MAX_INGESTION_DELIVERIES - delivery, p.activePollLimit - activePolls
    {
      var r := results(executions);
      executions := executions + 1;
      if r == InProgress {
        if activePolls >= p.activePollLimit {
          return Some(r), executions;
        }
        activePolls := activePolls + 1;
        continue;
      }
      if !Retryable(r) {
        return Some(r), executions;
      }
      if delivery - 1 >= |p.retryDelaysMs| {
        executions := executions + 1;
        assert results(executions - 2) == FailedFor(true);
        return Some(results(executions - 1)), executions;
      }
      delivery := delivery + 1;
    }
    return None, executions;
  }
}
