/** What becomes of one dead-lettered record, told by the first thing that is wrong with it, and what the
    report of a pass adds up to in these terms. */
module RedriveOutcomes {
  import opened Wrappers
  import opened JsonText
  import opened CanonicalJson
  import opened MessageRedrive
  import opened Sequences

  // ----- What is asked about a record -----------------------------------------------------

  /** The questions, each of which is asked only when all before it were answered with yes. */
  datatype Question =
    | DeliveredOnce
    | WrapperValid
    | StillKnown
    | StillAccepted
    | AsInspected
    | NotYetPublished
    | NotYetRejected
    | Eligible
    | ClaimGranted
    | AsClaimed
    | PublicationSucceeds
    | PublicationRecorded

  function Place(q: Question): nat {
    match q
    case DeliveredOnce => 0
    case WrapperValid => 1
    case StillKnown => 2
    case StillAccepted => 3
    case AsInspected => 4
    case NotYetPublished => 5
    case NotYetRejected => 6
    case Eligible => 7
    case ClaimGranted => 8
    case AsClaimed => 9
    case PublicationSucceeds => 10
    case PublicationRecorded => 11
  }

  ghost predicate Yes(leq: (string, string) -> bool, r: Record, q: Question) {
    match q
    case DeliveredOnce => r.deliveryNumber == 1
    case WrapperValid => r.wrapped.Some?
    case StillKnown => r.inspection.Some?
    case StillAccepted => r.inspection.Some? && r.inspection.value.rejectionClass.None?
    case AsInspected =>
      r.wrapped.Some? && r.inspection.Some? && SameEnvelope(leq, r.wrapped.value, r.inspection.value.envelope)
    case NotYetPublished => r.claim != AlreadyPublished
    case NotYetRejected => r.claim != AlreadyRejected
    case Eligible => r.claim != Ineligible
    case ClaimGranted => r.claim != Active && r.claim != Conflict
    case AsClaimed => r.wrapped.Some? && r.claim.Claimed? && SameEnvelope(leq, r.wrapped.value, r.claim.envelope)
    case PublicationSucceeds => r.publishFault.None?
    case PublicationRecorded => r.marked
  }

  ghost predicate FailsFirst(leq: (string, string) -> bool, r: Record, q: Question) {
    !Yes(leq, r, q) && forall p :: Place(p) < Place(q) ==> Yes(leq, r, p)
  }

  ghost predicate FailsNone(leq: (string, string) -> bool, r: Record) {
    forall q :: Yes(leq, r, q)
  }

  lemma OneFirstFailureAtMost(leq: (string, string) -> bool, r: Record, p: Question, q: Question)
    requires FailsFirst(leq, r, p) && FailsFirst(leq, r, q)
    ensures p == q
  {
    assert Place(p) == Place(q);
  }

  lemma SomethingFailsFirst(leq: (string, string) -> bool, r: Record, q: Question) returns (first: Question)
    requires !Yes(leq, r, q)
    ensures FailsFirst(leq, r, first)
    decreases Place(q)
  {
    if p :| Place(p) < Place(q) && !Yes(leq, r, p) {
      first := SomethingFailsFirst(leq, r, p);
    } else {
      first := q;
    }
  }

  // ----- What the answer leads to ---------------------------------------------------------

  /** A failed publication is given back under its own class, except that a throttled, an unknown and an
      unclassified one count as an unavailable broker. */
  ghost predicate GivenBackAs(fault: PublishFault, c: FailureClass) {
    if fault == Classified(InvalidReceipt) then c == InvalidReceipt
    else if fault == Classified(PublicationTimeout) then c == PublicationTimeout
    else if fault == Classified(PublisherShutdown) then c == PublisherShutdown
    else c == BrokerUnavailable
  }

  /** The calls for a record at whose question `q` it fails. */
  ghost predicate CallsAfter(r: Record, q: Question, calls: seq<Call>) {
    match q
    case DeliveredOnce => calls == []
    case WrapperValid => calls == [Acknowledge]
    case StillKnown => calls == [Reject(AuthorizationDenied), Acknowledge]
    case StillAccepted =>
      && r.inspection.Some? && r.inspection.value.rejectionClass.Some?
      && calls == [Reject(r.inspection.value.rejectionClass.value), Acknowledge]
    case AsInspected => calls == [Reject(ChangedIntent), Acknowledge]
    case NotYetPublished => calls == [Acknowledge]
    case NotYetRejected => calls == [Acknowledge]
    case Eligible => calls == [Reject(StateConflict), Acknowledge]
    case ClaimGranted => calls == []
    case AsClaimed => calls == [Reject(ChangedIntent), Acknowledge]
    case PublicationSucceeds =>
      && r.wrapped.Some? && r.publishFault.Some? && |calls| == 2 && calls[0] == Send(r.wrapped.value)
      && calls[1].Release? && GivenBackAs(r.publishFault.value, calls[1].failureClass)
    case PublicationRecorded => r.wrapped.Some? && calls == [Send(r.wrapped.value), MarkPublished]
  }

  /** The first question that is answered with no decides every call made for the record; without one it is
      sent, recorded and acknowledged. */
  lemma TheFirstFailureDecidesTheCalls(leq: (string, string) -> bool, r: Record)
    ensures forall q :: FailsFirst(leq, r, q) ==> CallsAfter(r, q, Calls(leq, r))
    ensures FailsNone(leq, r) ==>
      r.wrapped.Some? && Calls(leq, r) == [Send(r.wrapped.value), MarkPublished, Acknowledge]
  {
    forall q | FailsFirst(leq, r, q)
      ensures CallsAfter(r, q, Calls(leq, r))
    {
      CallsAtFailure(leq, r, q);
    }
    if FailsNone(leq, r) {
      YesToEarlier(leq, r, PublicationRecorded);
      assert Yes(leq, r, PublicationRecorded);
    }
  }

  /** What is known once every earlier question was answered with yes. */
  lemma YesToEarlier(leq: (string, string) -> bool, r: Record, q: Question)
    requires forall p :: Place(p) < Place(q) ==> Yes(leq, r, p)
    ensures Place(q) > 0 ==> Yes(leq, r, DeliveredOnce)
    ensures Place(q) > 1 ==> Yes(leq, r, WrapperValid)
    ensures Place(q) > 2 ==> Yes(leq, r, StillKnown)
    ensures Place(q) > 3 ==> Yes(leq, r, StillAccepted)
    ensures Place(q) > 4 ==> Yes(leq, r, AsInspected)
    ensures Place(q) > 5 ==> Yes(leq, r, NotYetPublished)
    ensures Place(q) > 6 ==> Yes(leq, r, NotYetRejected)
    ensures Place(q) > 7 ==> Yes(leq, r, Eligible)
    ensures Place(q) > 8 ==> Yes(leq, r, ClaimGranted)
    ensures Place(q) > 9 ==> Yes(leq, r, AsClaimed)
    ensures Place(q) > 10 ==> Yes(leq, r, PublicationSucceeds)
  {
    assert Place(DeliveredOnce) == 0 && Place(WrapperValid) == 1 && Place(StillKnown) == 2;
    assert Place(StillAccepted) == 3 && Place(AsInspected) == 4 && Place(NotYetPublished) == 5;
    assert Place(NotYetRejected) == 6 && Place(Eligible) == 7 && Place(ClaimGranted) == 8;
    assert Place(AsClaimed) == 9 && Place(PublicationSucceeds) == 10;
  }

  lemma CallsAtFailure(leq: (string, string) -> bool, r: Record, q: Question)
    requires FailsFirst(leq, r, q)
    ensures CallsAfter(r, q, Calls(leq, r))
  {
    YesToEarlier(leq, r, q);
  }

  // ----- How a record is counted ----------------------------------------------------------

  ghost predicate CountsAsPublished(leq: (string, string) -> bool, r: Record) {
    FailsNone(leq, r) || FailsFirst(leq, r, NotYetPublished)
  }

  ghost predicate CountsAsAmbiguous(leq: (string, string) -> bool, r: Record) {
    FailsFirst(leq, r, PublicationSucceeds) || FailsFirst(leq, r, PublicationRecorded)
  }

  ghost predicate CountsAsBlocked(leq: (string, string) -> bool, r: Record) {
    FailsFirst(leq, r, DeliveredOnce) || FailsFirst(leq, r, ClaimGranted) || CountsAsAmbiguous(leq, r)
  }

  ghost predicate CountsAsRejected(leq: (string, string) -> bool, r: Record) {
    || FailsFirst(leq, r, WrapperValid) || FailsFirst(leq, r, StillKnown) || FailsFirst(leq, r, StillAccepted)
    || FailsFirst(leq, r, AsInspected) || FailsFirst(leq, r, NotYetRejected) || FailsFirst(leq, r, Eligible)
    || FailsFirst(leq, r, AsClaimed)
  }

  lemma FailureIsCounted(leq: (string, string) -> bool, r: Record, q: Question)
    requires FailsFirst(leq, r, q)
    ensures IsPublished(leq, r) <==> q == NotYetPublished
    ensures IsAmbiguous(leq, r) <==> q == PublicationSucceeds || q == PublicationRecorded
    ensures IsBlocked(leq, r) <==>
      q == DeliveredOnce || q == ClaimGranted || q == PublicationSucceeds || q == PublicationRecorded
    ensures !FirstDelivery(r) <==> q == DeliveredOnce
    ensures IsInvalid(r) <==> q == WrapperValid
  {
    YesToEarlier(leq, r, q);
  }

  lemma CountedByTheFirstFailure(leq: (string, string) -> bool, r: Record)
    ensures IsPublished(leq, r) <==> CountsAsPublished(leq, r)
    ensures IsRejected(leq, r) <==> CountsAsRejected(leq, r)
    ensures IsBlocked(leq, r) <==> CountsAsBlocked(leq, r)
    ensures IsAmbiguous(leq, r) <==> CountsAsAmbiguous(leq, r)
    ensures !FirstDelivery(r) <==> FailsFirst(leq, r, DeliveredOnce)
    ensures IsInvalid(r) <==> FailsFirst(leq, r, WrapperValid)
  {
    if q :| !Yes(leq, r, q) {
      var first := SomethingFailsFirst(leq, r, q);
      FailureIsCounted(leq, r, first);
      forall p | FailsFirst(leq, r, p)
        ensures p == first
      {
        OneFirstFailureAtMost(leq, r, p, first);
      }
    } else {
      assert FailsNone(leq, r);
      YesToEarlier(leq, r, PublicationRecorded);
      assert Yes(leq, r, PublicationRecorded);
    }
  }

  // ----- What a pass reports --------------------------------------------------------------

  lemma {:induction false} CountIsHowMany(records: seq<Record>, holds: Record -> bool, also: Record -> bool)
    requires forall r :: holds(r) == also(r)
    ensures Count(records, holds) == HowMany(records, also)
  {
    if records != [] {
      var last := |records| - 1;
      CountIsHowMany(records[..last], holds, also);
      assert records == records[..last] + [records[last]];
      HowManyWithOneMore(records[..last], records[last], also);
    }
  }

  /** The report counts each record by the first question it fails at. */
  lemma ReportTellsTheFirstFailures(leq: (string, string) -> bool, records: seq<Record>, report: Report)
    requires Tallies(leq, records, report)
    ensures report.published == HowMany(records, r => CountsAsPublished(leq, r))
    ensures report.rejected == HowMany(records, r => CountsAsRejected(leq, r))
    ensures report.blocked == HowMany(records, r => CountsAsBlocked(leq, r))
    ensures report.ambiguousPublications == HowMany(records, r => CountsAsAmbiguous(leq, r))
    ensures report.retryGuard == HowMany(records, r => FailsFirst(leq, r, DeliveredOnce))
    ensures report.validatorRejections == HowMany(records, r => FailsFirst(leq, r, WrapperValid))
  {
    forall r
      ensures IsPublished(leq, r) == CountsAsPublished(leq, r) && IsRejected(leq, r) == CountsAsRejected(leq, r)
      ensures IsBlocked(leq, r) == CountsAsBlocked(leq, r) && IsAmbiguous(leq, r) == CountsAsAmbiguous(leq, r)
      ensures (!FirstDelivery(r)) == FailsFirst(leq, r, DeliveredOnce)
      ensures IsInvalid(r) == FailsFirst(leq, r, WrapperValid)
    {
      CountedByTheFirstFailure(leq, r);
    }
    CountIsHowMany(records, r => IsPublished(leq, r), r => CountsAsPublished(leq, r));
    CountIsHowMany(records, r => IsRejected(leq, r), r => CountsAsRejected(leq, r));
    CountIsHowMany(records, r => IsBlocked(leq, r), r => CountsAsBlocked(leq, r));
    CountIsHowMany(records, r => IsAmbiguous(leq, r), r => CountsAsAmbiguous(leq, r));
    CountIsHowMany(records, r => !FirstDelivery(r), r => FailsFirst(leq, r, DeliveredOnce));
    CountIsHowMany(records, r => IsInvalid(r), r => FailsFirst(leq, r, WrapperValid));
  }

  // ----- The age of the oldest record -----------------------------------------------------

  /** A number of whole seconds, from none to a day. */
  ghost predicate IsAge(elapsedMs: int, seconds: int) {
    if elapsedMs < 0 then seconds == 0
    else if elapsedMs >= 86_400_000 then seconds == 86_400
    else seconds * 1_000 <= elapsedMs < (seconds + 1) * 1_000
  }

  ghost predicate HasAge(r: Record, seconds: int) {
    r.bornAt.Some? && IsAge(r.receivedAt - r.bornAt.value, seconds)
  }

  lemma AgeIsWholeSeconds(r: Record, seconds: int)
    requires r.bornAt.Some?
    ensures HasAge(r, seconds) <==> seconds == Age(r)
  {
  }

  /** The reported age is that of a record, and no record is older; none is reported exactly if no record
      tells when it was born. */
  lemma OldestAgeIsReported(leq: (string, string) -> bool, records: seq<Record>, report: Report)
    requires Tallies(leq, records, report)
    ensures report.oldestRecordAgeSeconds.None? <==> forall r :: r in records ==> r.bornAt.None?
    ensures report.oldestRecordAgeSeconds.Some? ==>
      && (exists r :: r in records && HasAge(r, report.oldestRecordAgeSeconds.value))
      && forall r, seconds :: r in records && HasAge(r, seconds) ==> seconds <= report.oldestRecordAgeSeconds.value
  {
    var oldest := report.oldestRecordAgeSeconds;
    if oldest.Some? {
      var i :| 0 <= i < |records| && records[i].bornAt.Some? && Age(records[i]) == oldest.value;
      AgeIsWholeSeconds(records[i], oldest.value);
      assert records[i] in records;
      forall r, seconds | r in records && HasAge(r, seconds)
        ensures seconds <= oldest.value
      {
        AgeIsWholeSeconds(r, seconds);
      }
    }
  }

  // ----- Envelopes that can be received ---------------------------------------------------

  /** For any keys there is an object with exactly these, each with the value wanted for it. */
  lemma {:induction false} ObjectOf(keys: set<string>, value: string -> Json) returns (m: Members)
    requires forall k :: k in keys ==> WellFormed(value(k))
    ensures MembersWellFormed(m) && Keys(m) == keys
    ensures forall k :: k in keys ==> Lookup(m, k) == value(k)
    decreases |keys|
  {
    if keys == {} {
      m := NoMembers;
    } else {
      var key :| key in keys;
      var rest := ObjectOf(keys - {key}, value);
      m := Member(key, value(key), rest);
      assert {key} + (keys - {key}) == keys;
    }
  }

  lemma PayloadOf(scalar: Json) returns (payload: Json)
    requires IsScalar(scalar) && WellFormed(scalar)
    ensures HasPayloadShape(payload)
  {
    var m := ObjectOf(PAYLOAD_KEYS, _ => scalar);
    payload := Obj(m);
  }

  lemma EnvelopeOf(scalar: Json, caused: bool) returns (envelope: Json)
    requires IsScalar(scalar) && WellFormed(scalar)
    ensures HasEnvelopeShape(envelope) && ("causationId" in Keys(envelope.members) <==> caused)
  {
    var keys := REQUIRED_KEYS + if caused then {"causationId"} else {};
    var payload := PayloadOf(scalar);
    var m := ObjectOf(keys, k => if k == "payload" then payload else scalar);
    envelope := Obj(m);
    assert "payload" in Keys(m);
    assert !caused ==> REQUIRED_KEYS + {} == REQUIRED_KEYS;
  }

  /** Envelopes come in two shapes, with and without a cause, and a record of either is sent when nothing
      speaks against it. */
  lemma EachShapeIsSent(leq: (string, string) -> bool, scalar: Json, caused: bool, at: int)
    returns (envelope: Json, r: Record)
    requires IsScalar(scalar) && WellFormed(scalar)
    ensures HasEnvelopeShape(envelope) && ("causationId" in Keys(envelope.members) <==> caused)
    ensures r == Record(None, at, 1, Some(envelope), Some(Inspection(envelope, None)), Claimed(envelope), None, true)
    ensures FailsNone(leq, r)
  {
    envelope := EnvelopeOf(scalar, caused);
    r := Record(None, at, 1, Some(envelope), Some(Inspection(envelope, None)), Claimed(envelope), None, true);
    NothingSpeaksAgainst(leq, r, envelope);
  }

  lemma NothingSpeaksAgainst(leq: (string, string) -> bool, r: Record, envelope: Json)
    requires r.deliveryNumber == 1 && r.wrapped == Some(envelope) && r.inspection == Some(Inspection(envelope, None))
    requires r.claim == Claimed(envelope) && r.publishFault.None? && r.marked
    ensures FailsNone(leq, r)
  {
  }
}
