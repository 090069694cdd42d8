/** The delivery loop of one operation together with the repository that counts its attempts: over every
    history, whatever other runs do in between, the attempts that successive runs report grow. */
module ActivationDelivery {
  import opened ActivationOperations
  import opened ActivationRuns
  import opened RetryEngines

  function Attempts(h: History, artifactOf: string -> string, id: string): nat {
    var operations := After(h, artifactOf).operations;
    if id in operations then operations[id].attemptCount else 0
  }

  function ViewIn(h: History, artifactOf: string -> string, id: string): View
    requires id in After(h, artifactOf).operations
  {
    var o := After(h, artifactOf).operations[id];
    View(o.status, o.attemptCount)
  }

  /** The last event granted run `run` its claim of the operation. */
  predicate GrantedAt(h: History, artifactOf: string -> string, run: nat, id: string) {
    && h.Then? && h.event.Claim? && h.event.operationId == id && run == After(h.before, artifactOf).started
    && Claimable(After(h.before, artifactOf).operations, h.event.authorized, id)
  }

  predicate Ends(event: Event, run: nat) {
    (event.Broke? || event.Generated?) && event.run == run
  }

  /** The last event ended this run, which held the operation until then. */
  ghost predicate EndedAt(h: History, artifactOf: string -> string, run: nat, id: string) {
    h.Then? && Ends(h.event, run) && Holds(After(h.before, artifactOf), run, id)
  }

  // ----- Attempts only grow ---------------------------------------------------------------

  lemma {:induction false} AttemptsOnlyGrow(earlier: History, later: History, artifactOf: string -> string, id: string)
    requires Extends(later, earlier)
    ensures Attempts(earlier, artifactOf, id) <= Attempts(later, artifactOf, id)
    ensures id in After(earlier, artifactOf).operations ==> id in After(later, artifactOf).operations
  {
    if later != earlier {
      AttemptsOnlyGrow(earlier, later.before, artifactOf, id);
      if id in After(later.before, artifactOf).operations {
        AttemptsAfterStep(After(later.before, artifactOf), later.event, artifactOf, id);
      }
    }
  }

  lemma GrantCountsOne(h: History, artifactOf: string -> string, run: nat, id: string)
    requires GrantedAt(h, artifactOf, run, id)
    ensures Attempts(h, artifactOf, id) == Attempts(h.before, artifactOf, id) + 1
    ensures After(h, artifactOf).started == run + 1
  {
    AttemptsAfterStep(After(h.before, artifactOf), h.event, artifactOf, id);
  }

  /** Two points of one history come one after the other. */
  lemma {:induction false} PointsAreOrdered(h: History, a: History, b: History)
    requires Extends(h, a) && Extends(h, b)
    ensures Extends(a, b) || Extends(b, a)
  {
    if h != a && h != b {
      PointsAreOrdered(h.before, a, b);
    }
  }

  lemma {:induction false} ExtendsIsTransitive(late: History, middle: History, early: History)
    requires Extends(late, middle) && Extends(middle, early)
    ensures Extends(late, early)
  {
    if late != middle {
      ExtendsIsTransitive(late.before, middle, early);
    }
  }

  lemma StepBack(s: System, event: Event, artifactOf: string -> string, run: nat, id: string)
    requires run < s.started && Holds(Step(s, event, artifactOf), run, id)
    ensures Holds(s, run, id)
  {
  }

  lemma StartedOnlyGrows(s: System, event: Event, artifactOf: string -> string)
    ensures s.started <= Step(s, event, artifactOf).started
  {
  }

  lemma {:induction false} StartedStays(earlier: History, later: History, artifactOf: string -> string)
    requires Extends(later, earlier)
    ensures After(earlier, artifactOf).started <= After(later, artifactOf).started
  {
    if later != earlier {
      StartedStays(earlier, later.before, artifactOf);
      StartedOnlyGrows(After(later.before, artifactOf), later.event, artifactOf);
    }
  }

  /** A run that had started by then and still holds its operation has held it all the time. */
  lemma {:induction false} HeldAllTheTime(earlier: History, later: History, artifactOf: string -> string, run: nat,
      id: string)
    requires Extends(later, earlier) && run < After(earlier, artifactOf).started
      && Holds(After(later, artifactOf), run, id)
    ensures Holds(After(earlier, artifactOf), run, id)
  {
    if later != earlier {
      StartedStays(earlier, later.before, artifactOf);
      StepBack(After(later.before, artifactOf), later.event, artifactOf, run, id);
      HeldAllTheTime(earlier, later.before, artifactOf, run, id);
    }
  }

  lemma HeldMeansNotClaimable(h: History, artifactOf: string -> string, run: nat, id: string, authorized: bool)
    requires Holds(After(h, artifactOf), run, id)
    ensures !Claimable(After(h, artifactOf).operations, authorized, id)
  {
    EveryHistoryKeepsTheInvariant(h, artifactOf);
    assert RunOk(After(h, artifactOf), run);
  }

  /** A run is granted its claim only after every run granted before it has ended. */
  lemma EarlierRunHasEnded(h: History, artifactOf: string -> string, id: string,
                           granted: History, run: nat, ended: History, next: History, nextRun: nat)
    requires Extends(h, ended) && Extends(h, next)
    requires Extends(ended, granted) && Extends(next, granted) && next != granted
    requires GrantedAt(granted, artifactOf, run, id) && EndedAt(ended, artifactOf, run, id)
    requires GrantedAt(next, artifactOf, nextRun, id)
    ensures Extends(next.before, ended)
  {
    PointsAreOrdered(h, ended, next);
    if Extends(ended, next) {
      GrantCountsOne(granted, artifactOf, run, id);
      StartedStays(granted, next.before, artifactOf);
      ExtendsIsTransitive(ended.before, next, next.before);
      HeldAllTheTime(next.before, ended.before, artifactOf, run, id);
      HeldMeansNotClaimable(next.before, artifactOf, run, id, next.event.authorized);
      assert false;
    }
  }

  /** Of two runs of one operation the one that was granted later reports strictly more attempts when it
      ends, however plans and other runs interleave with them. */
  lemma LaterRunReportsMoreAttempts(h: History, artifactOf: string -> string, id: string,
                                    granted: History, run: nat, ended: History,
                                    laterGranted: History, laterRun: nat, laterEnded: History)
    requires Extends(h, ended) && Extends(h, laterEnded)
    requires Extends(ended, granted) && Extends(laterEnded, laterGranted)
    requires Extends(laterGranted, granted) && laterGranted != granted
    requires GrantedAt(granted, artifactOf, run, id) && EndedAt(ended, artifactOf, run, id)
    requires GrantedAt(laterGranted, artifactOf, laterRun, id) && EndedAt(laterEnded, artifactOf, laterRun, id)
    ensures Attempts(ended, artifactOf, id) < Attempts(laterEnded, artifactOf, id)
  {
    ExtendsIsTransitive(h, laterEnded, laterGranted);
    EarlierRunHasEnded(h, artifactOf, id, granted, run, ended, laterGranted, laterRun);
    AttemptsOnlyGrow(ended, laterGranted.before, artifactOf, id);
    GrantCountsOne(laterGranted, artifactOf, laterRun, id);
    AttemptsOnlyGrow(laterGranted, laterEnded, artifactOf, id);
  }

  /** The loop runs an operation exactly when an authorized claim of it would be granted. */
  lemma RunnableExactlyWhenClaimable(h: History, artifactOf: string -> string, id: string)
    requires id in After(h, artifactOf).operations
    ensures Runnable(ViewIn(h, artifactOf, id)) <==> Claimable(After(h, artifactOf).operations, true, id)
  {
  }

  // ----- The loop served by the repository -------------------------------------------------

  /** A call of the service: the point of its claim and that of its answer. */
  datatype ServiceCall = ServiceCall(claimed: History, answered: History)

  /** The call was made at some point after `asked`. It found the operation final, or it was granted its
      claim and answered with what it left of the operation. (A refused claim is no answer.) */
  ghost predicate CallAnswers(asked: History, c: ServiceCall, artifactOf: string -> string, id: string, view: View) {
    && Extends(c.claimed, asked) && c.claimed != asked && Extends(c.answered, c.claimed)
    && c.claimed.event == Claim(true, id)
    && id in After(c.answered, artifactOf).operations && view == ViewIn(c.answered, artifactOf, id)
    && var before := After(c.claimed.before, artifactOf);
       if Claimable(before.operations, true, id) then EndedAt(c.answered, artifactOf, before.started, id)
       else id in before.operations && IsFinal(before.operations[id].status) && c.answered == c.claimed
  }

  function AskedAt(start: History, calls: seq<ServiceCall>, n: nat): History
    requires n < |calls|
  {
    if n == 0 then start else calls[n - 1].answered
  }

  /** One call after the other, other events anywhere in between. */
  ghost predicate Served(start: History, calls: seq<ServiceCall>, artifactOf: string -> string, id: string,
      answers: seq<Answer>)
  {
    |calls| == |answers| && forall n: nat :: n < |calls| ==> ServedAt(start, calls, artifactOf, id, answers, n)
  }

  ghost predicate ServedAt(start: History, calls: seq<ServiceCall>, artifactOf: string -> string, id: string,
      answers: seq<Answer>, n: nat)
    requires n < |calls| == |answers|
  {
    CallAnswers(AskedAt(start, calls, n), calls[n], artifactOf, id, answers[n].view)
  }

  lemma RetriedCallCountsMore(asked: History, c: ServiceCall, artifactOf: string -> string, id: string, view: View)
    requires CallAnswers(asked, c, artifactOf, id, view) && view.status == RetryScheduled
    ensures view.attemptCount > Attempts(asked, artifactOf, id)
  {
    var before := After(c.claimed.before, artifactOf);
    AttemptsOnlyGrow(asked, c.claimed.before, artifactOf, id);
    assert Claimable(before.operations, true, id);
    GrantCountsOne(c.claimed, artifactOf, before.started, id);
    AttemptsOnlyGrow(c.claimed, c.answered, artifactOf, id);
  }

  /** What the delivery loop needs of the attempts it is told: the repository gives it. */
  lemma ServedAnswersCountAttempts(start: History, calls: seq<ServiceCall>, artifactOf: string -> string, id: string,
                                   initial: View, answers: seq<Answer>)
    requires id in After(start, artifactOf).operations && initial == ViewIn(start, artifactOf, id)
    requires Served(start, calls, artifactOf, id, answers)
    ensures CountsAttempts(initial, answers)
  {
    forall n: nat | n < |answers|
      ensures CountedAttempt(initial, answers, n)
    {
      assert ServedAt(start, calls, artifactOf, id, answers, n);
      if n > 0 {
        assert ServedAt(start, calls, artifactOf, id, answers, n - 1);
      }
      if answers[n].view.status == RetryScheduled {
        RetriedCallCountsMore(AskedAt(start, calls, n), calls[n], artifactOf, id, answers[n].view);
      }
    }
  }

  /** Served by the repository, the loop is done after at most five runs of a fresh operation, and after
      at most one run for each attempt that is left of any other, whatever else happens meanwhile. */
  method RunServedOperation(p: Policy, initial: View, answers: seq<Answer>,
                            ghost start: History, ghost calls: seq<ServiceCall>, ghost artifactOf: string -> string,
                            ghost id: string)
    returns (l: Loop, done: bool)
    requires ValidPolicy(p)
    requires id in After(start, artifactOf).operations && initial == ViewIn(start, artifactOf, id)
    requires Served(start, calls, artifactOf, id, answers)
    ensures l.runs <= |answers| && l.view == if l.runs == 0 then initial else answers[l.runs - 1].view
    ensures done <==> !Runnable(initial) || exists n :: 0 <= n < |answers| && !Retried(p, answers[n])
    ensures RunsWithin(initial, l.runs) && (|answers| >= MAX_ATTEMPTS ==> done)
    ensures KeepsDeadlines(p, initial, answers) ==> l.elapsedMs <= p.budgetMs + Sum(p.retryDelaysMs) + MAX_ATTEMPTS
  {
    ServedAnswersCountAttempts(start, calls, artifactOf, id, initial, answers);
    l, done := RunOperation(p, initial, answers);
  }
}
