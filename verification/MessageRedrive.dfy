/** The operator's dead-letter redrive: one pass over a received batch. What the broker, the
    repository and the publisher answer for a record is part of the record here. */
module MessageRedrive {
  import opened Wrappers
  import opened StableSort
  import opened JsonText
  import opened CanonicalJson

  const MAX_OPERATOR_DELIVERY_NUMBER := 1
  const MAX_AGE_SECONDS := 86_400

  datatype FailureClass =
    | BrokerUnavailable
    | InvalidReceipt
    | PublicationTimeout
    | PublisherShutdown
    | Throttled
    | UnknownTransient

  datatype RejectionClass =
    | AuthorizationDenied
    | ChangedIntent
    | DeletedScope
    | Expired
    | InvalidWrapper
    | StateConflict
    | UnsupportedContract

  datatype PublishFault = Classified(failureClass: FailureClass) | Unclassified

  datatype Inspection = Inspection(envelope: Json, rejectionClass: Option<RejectionClass>)

  datatype Claim =
    | AlreadyPublished
    | AlreadyRejected
    | Ineligible
    | Active
    | Conflict
    | Claimed(envelope: Json)

  datatype Record = Record(
    bornAt: Option<int>, receivedAt: int,
    deliveryNumber: int,
    wrapped: Option<Json>,          // the envelope inside the wrapper, when the wrapper is valid
    inspection: Option<Inspection>,
    claim: Claim,
    publishFault: Option<PublishFault>,
    marked: bool)

  /** The calls made on behalf of one record, in order. */
  datatype Call =
    | Reject(rejectionClass: RejectionClass)
    | Send(envelope: Json)
    | MarkPublished
    | Release(failureClass: FailureClass)
    | Acknowledge

  datatype Report = Report(
    received: nat, published: nat, rejected: nat, blocked: nat,
    ambiguousPublications: nat, retryGuard: nat, validatorRejections: nat,
    oldestRecordAgeSeconds: Option<nat>)

  // ----- What a record deserves -----------------------------------------------------------

  predicate FirstDelivery(r: Record) {
    1 <= r.deliveryNumber <= MAX_OPERATOR_DELIVERY_NUMBER
  }

  /** A first delivery whose wrapper is valid and whose envelope the repository still knows, still
      accepts, and holds unchanged. */
  predicate Unchanged(leq: (string, string) -> bool, r: Record) {
    && FirstDelivery(r) && r.wrapped.Some?
    && r.inspection.Some? && r.inspection.value.rejectionClass.None?
    && SameEnvelope(leq, r.wrapped.value, r.inspection.value.envelope)
  }

  predicate Sendable(leq: (string, string) -> bool, r: Record) {
    Unchanged(leq, r) && r.claim.Claimed? && SameEnvelope(leq, r.wrapped.value, r.claim.envelope)
  }

  predicate IsPublished(leq: (string, string) -> bool, r: Record) {
    (Unchanged(leq, r) && r.claim.AlreadyPublished?) || (Sendable(leq, r) && r.publishFault.None? && r.marked)
  }

  /** Sent, or perhaps sent, without the repository having recorded it. */
  predicate IsAmbiguous(leq: (string, string) -> bool, r: Record) {
    Sendable(leq, r) && (r.publishFault.Some? || !r.marked)
  }

  predicate IsBlocked(leq: (string, string) -> bool, r: Record) {
    || !FirstDelivery(r)
    || (Unchanged(leq, r) && (r.claim.Active? || r.claim.Conflict?))
    || IsAmbiguous(leq, r)
  }

  predicate IsInvalid(r: Record) {
    FirstDelivery(r) && r.wrapped.None?
  }

  predicate IsRejected(leq: (string, string) -> bool, r: Record) {
    !IsPublished(leq, r) && !IsBlocked(leq, r)
  }

  /** The class under which the repository is told to reject, if it is told. */
  function RejectedAs(leq: (string, string) -> bool, r: Record): Option<RejectionClass> {
    if !FirstDelivery(r) || r.wrapped.None? then None
    else if r.inspection.None? then Some(AuthorizationDenied)
    else if r.inspection.value.rejectionClass.Some? then r.inspection.value.rejectionClass
    else if !SameEnvelope(leq, r.wrapped.value, r.inspection.value.envelope) then Some(ChangedIntent)
    else if r.claim.Ineligible? then Some(StateConflict)
    else if r.claim.Claimed? && !SameEnvelope(leq, r.wrapped.value, r.claim.envelope) then Some(ChangedIntent)
    else None
  }

  function ReleaseClass(fault: PublishFault): FailureClass {
    match fault
    case Classified(c) => if c == Throttled || c == UnknownTransient then BrokerUnavailable else c
    case Unclassified => BrokerUnavailable
  }

  /** Reject before acknowledging; send, then mark or release; acknowledge last, and never a blocked
      record. */
  function Calls(leq: (string, string) -> bool, r: Record): seq<Call> {
    (if RejectedAs(leq, r).Some? then [Reject(RejectedAs(leq, r).value)] else [])
    + (if !Sendable(leq, r) then []
       else if r.publishFault.Some? then [Send(r.wrapped.value), Release(ReleaseClass(r.publishFault.value))]
       else [Send(r.wrapped.value), MarkPublished])
    + (if IsBlocked(leq, r) then [] else [Acknowledge])
  }

  function Age(r: Record): nat
    requires r.bornAt.Some?
  {
    var seconds := (r.receivedAt - r.bornAt.value) / 1_000;
    if seconds < 0 then 0 else if seconds > MAX_AGE_SECONDS then MAX_AGE_SECONDS else seconds
  }

  function Count(records: seq<Record>, holds: Record -> bool): nat {
    if records == [] then 0
    else Count(records[..|records| - 1], holds) + if holds(records[|records| - 1]) then 1 else 0
  }

  ghost predicate OldestOf(records: seq<Record>, oldest: Option<nat>) {
    && (oldest.None? <==> forall i :: 0 <= i < |records| ==> records[i].bornAt.None?)
    && (oldest.Some? ==> exists i :: 0 <= i < |records| && records[i].bornAt.Some? && Age(records[i]) == oldest.value)
    && (oldest.Some? ==> forall i :: 0 <= i < |records| && records[i].bornAt.Some? ==> Age(records[i]) <= oldest.value)
  }

  ghost predicate Tallies(leq: (string, string) -> bool, records: seq<Record>, report: Report) {
    && report.published == Count(records, r => IsPublished(leq, r))
    && report.rejected == Count(records, r => IsRejected(leq, r))
    && report.blocked == Count(records, r => IsBlocked(leq, r))
    && report.ambiguousPublications == Count(records, r => IsAmbiguous(leq, r))
    && report.retryGuard == Count(records, r => !FirstDelivery(r))
    && report.validatorRejections == Count(records, r => IsInvalid(r))
    && OldestOf(records, report.oldestRecordAgeSeconds)
  }

  // ----- The pass -------------------------------------------------------------------------

  datatype Verdict = Published | Rejected(validator: bool) | Blocked(ambiguous: bool, guard: bool)

  ghost predicate VerdictFits(leq: (string, string) -> bool, r: Record, v: Verdict) {
    match v
    case Published => IsPublished(leq, r)
    case Rejected(validator) => IsRejected(leq, r) && validator == IsInvalid(r)
    case Blocked(ambiguous, guard) =>
      IsBlocked(leq, r) && ambiguous == IsAmbiguous(leq, r) && guard == !FirstDelivery(r)
  }

  method RedriveRecord(leq: (string, string) -> bool, r: Record) returns (v: Verdict, calls: seq<Call>)
    ensures calls == Calls(leq, r) && VerdictFits(leq, r, v)
  {
    if r.deliveryNumber < 1 || r.deliveryNumber > MAX_OPERATOR_DELIVERY_NUMBER {
      return Blocked(false, true), [];
    }
    if r.wrapped.None? {
      return Rejected(true), [Acknowledge];
    }
    var envelope := r.wrapped.value;
    if r.inspection.None? {
      return Rejected(false), [Reject(AuthorizationDenied), Acknowledge];
    }
    var inspection := r.inspection.value;
    if inspection.rejectionClass.Some? {
      return Rejected(false), [Reject(inspection.rejectionClass.value), Acknowledge];
    }
    if !SameEnvelope(leq, envelope, inspection.envelope) {
      return Rejected(false), [Reject(ChangedIntent), Acknowledge];
    }
    if r.claim.AlreadyPublished? {
      return Published, [Acknowledge];
    }
    if r.claim.AlreadyRejected? {
      return Rejected(false), [Acknowledge];
    }
    if r.claim.Ineligible? {
      return Rejected(false), [Reject(StateConflict), Acknowledge];
    }
    if !r.claim.Claimed? {
      return Blocked(false, false), [];
    }
    if !SameEnvelope(leq, envelope, r.claim.envelope) {
      return Rejected(false), [Reject(ChangedIntent), Acknowledge];
    }
    calls := [Send(envelope)];
    if r.publishFault.Some? {
      calls := calls + [Release(ReleaseClass(r.publishFault.value))];
      return Blocked(true, false), calls;
    }
    calls := calls + [MarkPublished];
    if !r.marked {
      return Blocked(true, false), calls;
    }
    calls := calls + [Acknowledge];
    return Published, calls;
  }

  function WithVerdict(report: Report, v: Verdict): Report {
    match v
    case Published => report.(published := report.published + 1)
    case Rejected(validator) =>
      report.(rejected := report.rejected + 1,
              validatorRejections := report.validatorRejections + if validator then 1 else 0)
    case Blocked(ambiguous, guard) =>
      report.(blocked := report.blocked + 1,
              ambiguousPublications := report.ambiguousPublications + (if ambiguous then 1 else 0),
              retryGuard := report.retryGuard + if guard then 1 else 0)
  }

  function Older(oldest: Option<nat>, r: Record): Option<nat> {
    if r.bornAt.None? then oldest
    else if oldest.Some? && oldest.value >= Age(r) then oldest
    else Some(Age(r))
  }

  method Run(leq: (string, string) -> bool, records: seq<Record>) returns (report: Report, calls: seq<seq<Call>>)
    ensures report.received == |records| && Tallies(leq, records, report)
    ensures |calls| == |records| && forall i :: 0 <= i < |records| ==> calls[i] == Calls(leq, records[i])
  {
    report := Report(0, 0, 0, 0, 0, 0, 0, None);
    calls := [];
    assert records[..0] == [];
    for i := 0 to |records|
      invariant report.received == 0 && Tallies(leq, records[..i], report)
      invariant |calls| == i && forall k :: 0 <= k < i ==> calls[k] == Calls(leq, records[k])
    {
      var r := records[i];
      var aged := report.(oldestRecordAgeSeconds := Older(report.oldestRecordAgeSeconds, r));
      var v, made := RedriveRecord(leq, r);
      calls := calls + [made];
      TalliesWithOneMore(leq, records, i, report, aged, v);
      report := WithVerdict(aged, v);
    }
    assert records[..|records|] == records;
    report := report.(received := |records|);
  }

  lemma OldestWithOneMore(records: seq<Record>, i: nat, before: Option<nat>, after: Option<nat>)
    requires i < |records| && OldestOf(records[..i], before)
    requires after == Older(before, records[i])
    ensures OldestOf(records[..i + 1], after)
  {
    var shorter, longer := records[..i], records[..i + 1];
    assert longer == shorter + [records[i]];
    if after.Some? {
      if after != before || before.None? {
        assert longer[i].bornAt.Some? && Age(longer[i]) == after.value;
      } else {
        var k :| 0 <= k < |shorter| && shorter[k].bornAt.Some? && Age(shorter[k]) == before.value;
        assert longer[k] == shorter[k];
      }
    }
  }

  lemma VerdictsAreExclusive(leq: (string, string) -> bool, r: Record)
    ensures !(IsPublished(leq, r) && IsBlocked(leq, r))
    ensures IsAmbiguous(leq, r) || !FirstDelivery(r) ==> IsBlocked(leq, r)
    ensures IsInvalid(r) ==> IsRejected(leq, r)
  {
  }

  lemma CountWithOneMore(records: seq<Record>, i: nat, holds: Record -> bool)
    requires i < |records|
    ensures Count(records[..i + 1], holds) == Count(records[..i], holds) + if holds(records[i]) then 1 else 0
  {
    assert records[..i + 1][..i] == records[..i];
  }

  lemma TalliesWithOneMore(leq: (string, string) -> bool, records: seq<Record>, i: nat, before: Report, aged: Report,
      v: Verdict)
    requires i < |records| && Tallies(leq, records[..i], before) && VerdictFits(leq, records[i], v)
    requires aged == before.(oldestRecordAgeSeconds := Older(before.oldestRecordAgeSeconds, records[i]))
    ensures Tallies(leq, records[..i + 1], WithVerdict(aged, v))
    ensures WithVerdict(aged, v).received == before.received
  {
    OldestWithOneMore(records, i, before.oldestRecordAgeSeconds, aged.oldestRecordAgeSeconds);
    VerdictsAreExclusive(leq, records[i]);
    CountWithOneMore(records, i, r => IsPublished(leq, r));
    CountWithOneMore(records, i, r => IsRejected(leq, r));
    CountWithOneMore(records, i, r => IsBlocked(leq, r));
    CountWithOneMore(records, i, r => IsAmbiguous(leq, r));
    CountWithOneMore(records, i, r => !FirstDelivery(r));
    CountWithOneMore(records, i, r => IsInvalid(r));
  }

  // ----- What a report and its calls imply ------------------------------------------------

  lemma {:induction false} EveryRecordIsCountedOnce(leq: (string, string) -> bool, records: seq<Record>)
    ensures Count(records, r => IsPublished(leq, r)) + Count(records, r => IsRejected(leq, r))
      + Count(records, r => IsBlocked(leq, r))
      == |records|
    ensures Count(records, r => IsBlocked(leq, r))
      >= Count(records, r => IsAmbiguous(leq, r)) + Count(records, r => !FirstDelivery(r))
    ensures Count(records, r => IsRejected(leq, r)) >= Count(records, r => IsInvalid(r))
  {
    if records != [] {
      EveryRecordIsCountedOnce(leq, records[..|records| - 1]);
    }
  }

  lemma ReportAddsUp(leq: (string, string) -> bool, records: seq<Record>, report: Report)
    requires report.received == |records| && Tallies(leq, records, report)
    ensures report.received == report.published + report.rejected + report.blocked
    ensures report.ambiguousPublications + report.retryGuard <= report.blocked
    ensures report.validatorRejections <= report.rejected
    ensures report.oldestRecordAgeSeconds.Some? ==> report.oldestRecordAgeSeconds.value <= MAX_AGE_SECONDS
  {
    EveryRecordIsCountedOnce(leq, records);
  }

  /** Published and rejected records are acknowledged once, as the last thing done for them; blocked
      records never are. */
  lemma AcknowledgedExactlyWhenDone(leq: (string, string) -> bool, r: Record)
    ensures var calls := Calls(leq, r);
      if IsPublished(leq, r) || IsRejected(leq, r)
      then calls != [] && calls[|calls| - 1] == Acknowledge && Acknowledge !in calls[..|calls| - 1]
      else Acknowledge !in calls
  {
    VerdictsAreExclusive(leq, r);
    var calls := Calls(leq, r);
    if !IsBlocked(leq, r) {
      assert Acknowledge !in calls[..|calls| - 1];
    }
  }

  /** An envelope leaves at most once, and only if it has the same value as both the inspected and
      the claimed one; it was a first delivery and nothing spoke against it. */
  lemma SendsOnlyTheInspectedAndClaimedEnvelope(leq: (string, string) -> bool, r: Record, envelope: Json)
    requires Send(envelope) in Calls(leq, r)
    requires WellFormed(envelope) && (r.inspection.Some? ==> WellFormed(r.inspection.value.envelope))
    requires r.claim.Claimed? ==> WellFormed(r.claim.envelope)
    ensures |Calls(leq, r)| >= 2 && Calls(leq, r)[0] == Send(envelope)
    ensures forall i :: 1 <= i < |Calls(leq, r)| ==> !Calls(leq, r)[i].Send?
    ensures r.wrapped == Some(envelope) && FirstDelivery(r) && r.inspection.Some?
      && r.inspection.value.rejectionClass.None?
    ensures Meaning(envelope) == Meaning(r.inspection.value.envelope)
    ensures r.claim.Claimed? && Meaning(envelope) == Meaning(r.claim.envelope)
  {
    SameTextMeansSameValue(leq, envelope, r.inspection.value.envelope);
    SameTextMeansSameValue(leq, envelope, r.claim.envelope);
  }

  /** Whatever its keys, as long as the collation keeps them apart, an unchanged and claimed envelope
      is sent. */
  lemma SendsEveryUnchangedClaimedEnvelope(leq: (string, string) -> bool, r: Record)
    requires TotalPreorder(leq) && FirstDelivery(r) && r.wrapped.Some? && WellFormed(r.wrapped.value)
    requires NoTiedKeys(leq, r.wrapped.value)
    requires r.inspection.Some? && WellFormed(r.inspection.value.envelope) && r.inspection.value.rejectionClass.None?
    requires r.claim.Claimed? && WellFormed(r.claim.envelope)
    requires Meaning(r.wrapped.value) == Meaning(r.inspection.value.envelope) == Meaning(r.claim.envelope)
    ensures Send(r.wrapped.value) in Calls(leq, r)
  {
    SameEnvelopeIsStructuralEquality(leq, r.wrapped.value, r.inspection.value.envelope);
    SameEnvelopeIsStructuralEquality(leq, r.wrapped.value, r.claim.envelope);
  }

  // ----- The envelopes that can be received ------------------------------------------------

  const PAYLOAD_KEYS: set<string> := {"courseId", "operationId", "ownerScopeId"}

  const REQUIRED_KEYS: set<string> :=
    {"correlationId", "deadlineAt", "environment", "idempotencyKey", "messageId", "messageKind",
     "messageName", "messageVersion", "occurredAt", "payload", "producer"}

  const ENVELOPE_KEYS: set<string> := REQUIRED_KEYS + {"causationId"} + PAYLOAD_KEYS

  predicate IsScalar(v: Json) {
    !v.Arr? && !v.Obj?
  }

  /** The shape that a valid wrapper's envelope has been checked for: its exact keys, those of its
      payload, and nothing nested anywhere else. */
  predicate HasEnvelopeShape(v: Json) {
    && v.Obj? && MembersWellFormed(v.members)
    && (Keys(v.members) == REQUIRED_KEYS || Keys(v.members) == REQUIRED_KEYS + {"causationId"})
    && (forall k :: k in Keys(v.members) && k != "payload" ==> IsScalar(Lookup(v.members, k)))
    && HasPayloadShape(Lookup(v.members, "payload"))
  }

  predicate HasPayloadShape(v: Json) {
    && v.Obj? && MembersWellFormed(v.members) && Keys(v.members) == PAYLOAD_KEYS
    && forall k :: k in PAYLOAD_KEYS ==> IsScalar(Lookup(v.members, k))
  }

  lemma {:induction false} MembersLieWithin(keys: set<string>, m: Members)
    requires DistinctKeys(m) && Keys(m) <= keys
    requires forall k :: k in Keys(m) ==> KeysWithin(keys, Lookup(m, k))
    ensures MemberKeysWithin(keys, m)
  {
    if m.Member? {
      assert m.value == Lookup(m, m.key);
      forall k | k in Keys(m.rest)
        ensures KeysWithin(keys, Lookup(m.rest, k))
      {
        assert Lookup(m, k) == Lookup(m.rest, k);
      }
      MembersLieWithin(keys, m.rest);
    }
  }

  lemma PayloadLiesWithin(v: Json)
    requires HasPayloadShape(v)
    ensures KeysWithin(ENVELOPE_KEYS, v)
  {
    WellFormedKeysAreDistinct(v.members);
    MembersLieWithin(ENVELOPE_KEYS, v.members);
  }

  lemma EnvelopeLiesWithin(v: Json)
    requires HasEnvelopeShape(v)
    ensures KeysWithin(ENVELOPE_KEYS, v)
  {
    PayloadLiesWithin(Lookup(v.members, "payload"));
    WellFormedKeysAreDistinct(v.members);
    MembersLieWithin(ENVELOPE_KEYS, v.members);
  }

  /** The envelope of a valid wrapper uses a fixed set of keys. With a collation that keeps those apart
      it is sent exactly if it is delivered for the first time, accepted, claimed, and has the same value
      as both the inspected and the claimed one. */
  lemma ReceivedEnvelopeIsSentExactlyWhenUnchanged(leq: (string, string) -> bool, r: Record)
    requires TotalPreorder(leq) && TiesNone(leq, ENVELOPE_KEYS)
    requires r.wrapped.Some? && HasEnvelopeShape(r.wrapped.value)
    requires r.inspection.Some? ==> WellFormed(r.inspection.value.envelope)
    requires r.claim.Claimed? ==> WellFormed(r.claim.envelope)
    ensures Send(r.wrapped.value) in Calls(leq, r) <==>
      && FirstDelivery(r) && r.inspection.Some? && r.inspection.value.rejectionClass.None? && r.claim.Claimed?
      && Meaning(r.wrapped.value) == Meaning(r.inspection.value.envelope) == Meaning(r.claim.envelope)
  {
    var envelope := r.wrapped.value;
    EnvelopeLiesWithin(envelope);
    SeparatedKeysAreNotTied(leq, ENVELOPE_KEYS, envelope);
    if Send(envelope) in Calls(leq, r) {
      SendsOnlyTheInspectedAndClaimedEnvelope(leq, r, envelope);
    } else if && FirstDelivery(r) && r.inspection.Some? && r.inspection.value.rejectionClass.None? && r.claim.Claimed?
              && Meaning(envelope) == Meaning(r.inspection.value.envelope) == Meaning(r.claim.envelope)
    {
      SendsEveryUnchangedClaimedEnvelope(leq, r);
    }
  }
}
