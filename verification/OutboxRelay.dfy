/** One batch of the outbox relay. Every claimed message has its own delivery; the deliveries share the
    counters and are resumed, one continuation at a time, in whatever order their calls return. */
module OutboxRelay {
  import opened Wrappers
  import opened MessageRedrive
  import opened Sequences

  /** What a delivery is waiting for, or how it ended. */
  datatype Phase =
    | Publishing
    | Marking
    | Releasing(failureClass: FailureClass)
    | Delivered
    | LostMark
    | Failed(failureClass: FailureClass, released: bool)

  /** The answers the collaborators will give for one message. */
  datatype Fate = Fate(publishFault: Option<PublishFault>, released: bool, marked: bool)

  function ClassOf(fault: PublishFault): FailureClass {
    match fault
    case Classified(c) => c
    case Unclassified => UnknownTransient
  }

  predicate LeavesDoubt(c: FailureClass) {
    c == PublicationTimeout || c == InvalidReceipt || c == UnknownTransient
  }

  /** Where a delivery of this fate ends, however the deliveries are interleaved. */
  function End(f: Fate): Phase {
    match f.publishFault
    case Some(fault) => Failed(ClassOf(fault), f.released)
    case None => if f.marked then Delivered else LostMark
  }

  predicate Ended(p: Phase) {
    p.Delivered? || p.LostMark? || p.Failed?
  }

  predicate HasFailed(p: Phase) {
    p.Releasing? || p.Failed?
  }

  predicate InDoubt(p: Phase) {
    p.LostMark? || (HasFailed(p) && LeavesDoubt(p.failureClass))
  }

  predicate Released(p: Phase) {
    p.Failed? && p.released
  }

  function Tally(phases: seq<Phase>, holds: Phase -> bool): nat {
    if phases == [] then 0 else (if holds(phases[0]) then 1 else 0) + Tally(phases[1..], holds)
  }

  lemma {:induction false} TallyAfterUpdate(phases: seq<Phase>, i: nat, p: Phase, holds: Phase -> bool)
    requires i < |phases|
    ensures Tally(phases[i := p], holds)
      == Tally(phases, holds) + (if holds(p) then 1 else 0) - if holds(phases[i]) then 1 else 0
  {
    if i == 0 {
      assert phases[i := p][1..] == phases[1..];
    } else {
      TallyAfterUpdate(phases[1..], i - 1, p, holds);
      assert phases[i := p][1..] == phases[1..][i - 1 := p];
    }
  }

  predicate IsDelivered(p: Phase) {
    p.Delivered?
  }

  function OfClass(c: FailureClass): Phase -> bool {
    p => HasFailed(p) && p.failureClass == c
  }

  /** What the shared counters hold, read off the deliveries. */
  function FailuresOf(phases: seq<Phase>, c: FailureClass): nat {
    Tally(phases, OfClass(c))
  }

  /** What one turn makes of a delivery: its next call has returned. */
  function AfterTurn(f: Fate, p: Phase): Phase {
    match p
    case Publishing =>
      if f.publishFault.Some? then Releasing(ClassOf(f.publishFault.value)) else Marking
    case Releasing(c) => Failed(c, f.released)
    case Marking => if f.marked then Delivered else LostMark
    case _ => p
  }

  function AfterTurns(f: Fate, p: Phase, n: nat): Phase {
    if n == 0 then p else AfterTurn(f, AfterTurns(f, p, n - 1))
  }

  function Turns(schedule: seq<nat>, i: int): nat {
    if schedule == [] then 0
    else Turns(schedule[..|schedule| - 1], i) + if schedule[|schedule| - 1] == i then 1 else 0
  }

  class Batch {
    const fates: seq<Fate>
    var phases: seq<Phase>
    var ambiguous: nat
    var published: nat
    var released: nat
    var failureClasses: map<FailureClass, nat>

    /** Each delivery is on the way to its own end. */
    ghost predicate OnTheirWay()
      reads this
    {
      |phases| == |fates| && forall i :: 0 <= i < |fates| ==>
        match phases[i]
        case Publishing => true
        case Marking => fates[i].publishFault.None?
        case Releasing(c) => fates[i].publishFault.Some? && c == ClassOf(fates[i].publishFault.value)
        case _ => phases[i] == End(fates[i])
    }

    ghost predicate Valid()
      reads this
    {
      && OnTheirWay()
      && published == Tally(phases, IsDelivered)
      && released == Tally(phases, Released)
      && ambiguous == Tally(phases, InDoubt)
      && forall c :: CountIn(failureClasses, c) == FailuresOf(phases, c)
    }

    constructor (fates: seq<Fate>)
      ensures Valid() && this.fates == fates && phases == seq(|fates|, i => Publishing)
    {
      this.fates := fates;
      phases := seq(|fates|, i => Publishing);
      ambiguous, published, released, failureClasses := 0, 0, 0, map[];
      new;
      NothingYet(phases, IsDelivered);
      NothingYet(phases, Released);
      NothingYet(phases, InDoubt);
      forall c
        ensures FailuresOf(phases, c) == 0
      {
        NothingYet(phases, OfClass(c));
      }
    }

    method PublishReturned(i: nat)
      requires Valid() && i < |phases| && phases[i].Publishing?
      modifies this
      ensures Valid()
      ensures phases == old(phases)[i :=
        if fates[i].publishFault.Some? then Releasing(ClassOf(fates[i].publishFault.value)) else Marking]
    {
      ghost var before := phases;
      if fates[i].publishFault.Some? {
        var c := ClassOf(fates[i].publishFault.value);
        failureClasses := failureClasses[c := (if c in failureClasses then failureClasses[c] else 0) + 1];
        if LeavesDoubt(c) {
          ambiguous := ambiguous + 1;
        }
        phases := phases[i := Releasing(c)];
      } else {
        phases := phases[i := Marking];
      }
      TalliesAfterUpdate(before, i, phases[i]);
    }

    method ReleaseReturned(i: nat)
      requires Valid() && i < |phases| && phases[i].Releasing?
      modifies this
      ensures Valid() && phases == old(phases)[i := End(fates[i])]
    {
      ghost var before := phases;
      if fates[i].released {
        released := released + 1;
      }
      phases := phases[i := Failed(phases[i].failureClass, fates[i].released)];
      TalliesAfterUpdate(before, i, phases[i]);
    }

    method MarkReturned(i: nat)
      requires Valid() && i < |phases| && phases[i].Marking?
      modifies this
      ensures Valid() && phases == old(phases)[i := End(fates[i])]
    {
      ghost var before := phases;
      if fates[i].marked {
        published := published + 1;
        phases := phases[i := Delivered];
      } else {
        ambiguous := ambiguous + 1;
        phases := phases[i := LostMark];
      }
      TalliesAfterUpdate(before, i, phases[i]);
    }

    /** Resumes the delivery in each turn's place of the schedule; turns of ended deliveries do nothing. */
    method Resume(schedule: seq<nat>)
      requires Valid()
      modifies this
      ensures Valid() && |phases| == |old(phases)|
      ensures forall i :: 0 <= i < |phases| ==> phases[i] == AfterTurns(fates[i], old(phases[i]), Turns(schedule, i))
    {
      assert schedule[..0] == [];
      for k := 0 to |schedule|
        invariant Valid() && |phases| == |old(phases)|
        invariant forall i :: 0 <= i < |phases| ==>
          phases[i] == AfterTurns(fates[i], old(phases[i]), Turns(schedule[..k], i))
      {
        assert schedule[..k + 1] == schedule[..k] + [schedule[k]];
        assert schedule[..k + 1][..k] == schedule[..k];
        var i := schedule[k];
        if i < |phases| {
          match phases[i] {
            case Publishing => PublishReturned(i);
            case Releasing(_) => ReleaseReturned(i);
            case Marking => MarkReturned(i);
            case _ =>
          }
        }
      }
      assert schedule[..|schedule|] == schedule;
    }

    /** Once every delivery has ended the counters are fixed by the fates alone. */
    lemma CountersDependOnFatesOnly()
      requires Valid() && forall i :: 0 <= i < |phases| ==> Ended(phases[i])
      ensures published == Tally(Ends(fates), IsDelivered)
      ensures released == Tally(Ends(fates), Released)
      ensures ambiguous == Tally(Ends(fates), InDoubt)
      ensures forall c :: CountIn(failureClasses, c) == FailuresOf(Ends(fates), c)
    {
      assert phases == Ends(fates);
    }
  }

  function Ends(fates: seq<Fate>): seq<Phase> {
    seq(|fates|, i requires 0 <= i < |fates| => End(fates[i]))
  }

  function CountIn(counts: map<FailureClass, nat>, c: FailureClass): nat {
    if c in counts then counts[c] else 0
  }

  lemma {:induction false} NothingYet(phases: seq<Phase>, holds: Phase -> bool)
    requires forall i :: 0 <= i < |phases| ==> !holds(phases[i])
    ensures Tally(phases, holds) == 0
  {
    if phases != [] {
      NothingYet(phases[1..], holds);
    }
  }

  lemma TalliesAfterUpdate(phases: seq<Phase>, i: nat, p: Phase)
    requires i < |phases|
    ensures var after := phases[i := p];
      && Tally(after, IsDelivered) == Tally(phases, IsDelivered)
        + (if p.Delivered? then 1 else 0) - (if phases[i].Delivered? then 1 else 0)
      && Tally(after, Released) == Tally(phases, Released)
        + (if Released(p) then 1 else 0) - (if Released(phases[i]) then 1 else 0)
      && Tally(after, InDoubt) == Tally(phases, InDoubt)
        + (if InDoubt(p) then 1 else 0) - (if InDoubt(phases[i]) then 1 else 0)
      && forall c :: FailuresOf(after, c) == FailuresOf(phases, c)
           + (if HasFailed(p) && p.failureClass == c then 1 else 0)
           - (if HasFailed(phases[i]) && phases[i].failureClass == c then 1 else 0)
  {
    TallyAfterUpdate(phases, i, p, IsDelivered);
    TallyAfterUpdate(phases, i, p, Released);
    TallyAfterUpdate(phases, i, p, InDoubt);
    forall c
      ensures FailuresOf(phases[i := p], c) == FailuresOf(phases, c)
        + (if HasFailed(p) && p.failureClass == c then 1 else 0)
        - (if HasFailed(phases[i]) && phases[i].failureClass == c then 1 else 0)
    {
      TallyAfterUpdate(phases, i, p, OfClass(c));
    }
  }

  // ----- Conservation ---------------------------------------------------------------------

  function AllFailures(counts: map<FailureClass, nat>): nat {
    CountIn(counts, BrokerUnavailable) + CountIn(counts, InvalidReceipt) + CountIn(counts, PublicationTimeout)
    + CountIn(counts, PublisherShutdown) + CountIn(counts, Throttled) + CountIn(counts, UnknownTransient)
  }

  function DoubtfulFailures(counts: map<FailureClass, nat>): nat {
    CountIn(counts, InvalidReceipt) + CountIn(counts, PublicationTimeout) + CountIn(counts, UnknownTransient)
  }

  predicate IsLostMark(p: Phase) {
    p.LostMark?
  }

  lemma {:induction false} EndedDeliveriesAddUp(phases: seq<Phase>)
    requires forall i :: 0 <= i < |phases| ==> Ended(phases[i])
    ensures |phases| == Tally(phases, IsDelivered) + Tally(phases, IsLostMark) + Tally(phases, HasFailed)
    ensures Tally(phases, Released) <= Tally(phases, HasFailed)
  {
    if phases != [] {
      EndedDeliveriesAddUp(phases[1..]);
      assert Ended(phases[0]);
    }
  }

  lemma {:induction false} FailuresAddUp(phases: seq<Phase>)
    ensures Tally(phases, HasFailed) ==
      FailuresOf(phases, BrokerUnavailable) + FailuresOf(phases, InvalidReceipt)
      + FailuresOf(phases, PublicationTimeout)
      + FailuresOf(phases, PublisherShutdown) + FailuresOf(phases, Throttled) + FailuresOf(phases, UnknownTransient)
  {
    if phases != [] {
      FailuresAddUp(phases[1..]);
    }
  }

  lemma {:induction false} DoubtsAddUp(phases: seq<Phase>)
    ensures Tally(phases, InDoubt) == Tally(phases, IsLostMark)
      + FailuresOf(phases, InvalidReceipt) + FailuresOf(phases, PublicationTimeout)
      + FailuresOf(phases, UnknownTransient)
  {
    if phases != [] {
      DoubtsAddUp(phases[1..]);
    }
  }

  /** Every claimed message is published, lost its mark, or failed; the ambiguous ones are the lost
      marks and the failures that leave open whether the message went out. */
  lemma ClaimedMessagesAreAccountedFor(batch: Batch) returns (lost: nat)
    requires batch.Valid() && forall i :: 0 <= i < |batch.phases| ==> Ended(batch.phases[i])
    ensures lost == Tally(batch.phases, IsLostMark)
    ensures |batch.fates| == batch.published + lost + AllFailures(batch.failureClasses)
    ensures batch.ambiguous == lost + DoubtfulFailures(batch.failureClasses)
    ensures batch.released <= AllFailures(batch.failureClasses)
  {
    lost := Tally(batch.phases, IsLostMark);
    EndedDeliveriesAddUp(batch.phases);
    FailuresAddUp(batch.phases);
    DoubtsAddUp(batch.phases);
  }

  // ----- What the counters tell of the answers --------------------------------------------

  predicate PublishedAndMarked(f: Fate) {
    f.publishFault.None? && f.marked
  }

  predicate PublishedUnmarked(f: Fate) {
    f.publishFault.None? && !f.marked
  }

  predicate GivenBack(f: Fate) {
    f.publishFault.Some? && f.released
  }

  /** An error that carries no class is an unknown, transient one. */
  predicate FailedAs(f: Fate, c: FailureClass) {
    f.publishFault == Some(Classified(c)) || (f.publishFault == Some(Unclassified) && c == UnknownTransient)
  }

  /** The message may have gone out although nothing records it. */
  predicate MayHaveGoneOut(f: Fate) {
    || PublishedUnmarked(f) || FailedAs(f, PublicationTimeout) || FailedAs(f, InvalidReceipt)
    || FailedAs(f, UnknownTransient)
  }

  lemma TwoTurnsEndADelivery(f: Fate, n: nat)
    requires n >= 2
    ensures Ended(AfterTurns(f, Publishing, n))
    ensures AfterTurns(f, Publishing, n).Delivered? <==> PublishedAndMarked(f)
    ensures AfterTurns(f, Publishing, n).LostMark? <==> PublishedUnmarked(f)
    ensures forall c, released :: AfterTurns(f, Publishing, n) == Failed(c, released) <==>
      FailedAs(f, c) && released == f.released
  {
    if n > 2 {
      TwoTurnsEndADelivery(f, n - 1);
    } else {
      assert AfterTurns(f, Publishing, 0) == Publishing;
      assert AfterTurns(f, Publishing, 1) == AfterTurn(f, Publishing);
    }
  }

  lemma {:induction false} TallyIsHowMany(fates: seq<Fate>, holds: Phase -> bool, also: Fate -> bool)
    requires forall f :: holds(End(f)) == also(f)
    ensures Tally(Ends(fates), holds) == HowMany(fates, also)
  {
    if fates != [] {
      var init, last := fates[..|fates| - 1], fates[|fates| - 1];
      assert fates == init + [last] && Ends(fates) == Ends(init) + [End(last)];
      TallyIsHowMany(init, holds, also);
      TallyWithOneMore(Ends(init), End(last), holds);
      HowManyWithOneMore(init, last, also);
    }
  }

  lemma {:induction false} TallyWithOneMore(phases: seq<Phase>, p: Phase, holds: Phase -> bool)
    ensures Tally(phases + [p], holds) == Tally(phases, holds) + if holds(p) then 1 else 0
  {
    if phases == [] {
      assert ([p])[1..] == [];
    } else {
      assert (phases + [p])[1..] == phases[1..] + [p];
      TallyWithOneMore(phases[1..], p, holds);
    }
  }

  /** Once every delivery has ended, in whatever order, the counters tell exactly what was answered. */
  lemma CountersTellTheAnswers(batch: Batch)
    requires batch.Valid() && forall i :: 0 <= i < |batch.phases| ==> Ended(batch.phases[i])
    ensures batch.published == HowMany(batch.fates, PublishedAndMarked)
    ensures batch.released == HowMany(batch.fates, GivenBack)
    ensures batch.ambiguous == HowMany(batch.fates, MayHaveGoneOut)
    ensures forall c :: CountIn(batch.failureClasses, c) == HowMany(batch.fates, f => FailedAs(f, c))
  {
    batch.CountersDependOnFatesOnly();
    TallyIsHowMany(batch.fates, IsDelivered, PublishedAndMarked);
    TallyIsHowMany(batch.fates, Released, GivenBack);
    TallyIsHowMany(batch.fates, InDoubt, MayHaveGoneOut);
    forall c
      ensures CountIn(batch.failureClasses, c) == HowMany(batch.fates, f => FailedAs(f, c))
    {
      TallyIsHowMany(batch.fates, OfClass(c), f => FailedAs(f, c));
    }
  }
}
