/** What the controller shows, opens, delivers, closes and polls upon each input, told from the inputs and
    outputs before it alone. */
module ActivationVisible {
  import opened Wrappers
  import opened ActivationProgress

  /** One input and what it made visible. */
  datatype Moment = Moment(input: Input, outputs: seq<Output>)

  /** The outputs of `later` after those of `earlier`. */
  function Since(later: Log, earlier: Log): seq<Output>
    decreases later
  {
    if later == earlier || later.Empty? then [] else Since(later.earlier, earlier) + [later.output]
  }

  function Moments(inputs: seq<Input>, limits: Limits): (h: seq<Moment>)
    ensures |h| == |inputs|
  {
    if inputs == [] then [] else
    var before, i := inputs[..|inputs| - 1], inputs[|inputs| - 1];
    var p := Run(before, limits);
    Moments(before, limits) + [Moment(i, Since(Next(p, i, limits).log, p.log))]
  }

  // ----- What the moments so far say -------------------------------------------------------

  /** The statuses that an event reports on. */
  function StatusesOf(e: Event): set<Status> {
    {e.activation}
      + (if e.artifact.Unreported? then {} else {e.assessment})
      + (if e.artifact.Artifact? then {e.artifact.status} else {})
  }

  /** Nothing that the event reports on is still under way. */
  predicate Conclusive(e: Event) {
    Pending !in StatusesOf(e) && Retrying !in StatusesOf(e)
  }

  /** What has been seen: the connection state shown last, the source opened and not closed, how many polls
      were sent and sources opened, and whether a conclusive event was delivered. */
  datatype Sight = Sight(shown: Option<Connection>, source: Option<int>, polls: nat, opens: nat, concluded: bool)

  function See(s: Sight, o: Output): Sight {
    match o
    case Shown(c) => s.(shown := Some(c))
    case Opened(g) => s.(source := Some(g), opens := s.opens + 1)
    case Closed(_) => s.(source := None)
    case Delivered(_, e) => s.(concluded := s.concluded || Conclusive(e))
    case Polled => s.(polls := s.polls + 1)
  }

  function SeeAll(s: Sight, outputs: seq<Output>): Sight {
    if outputs == [] then s else See(SeeAll(s, outputs[..|outputs| - 1]), outputs[|outputs| - 1])
  }

  function SeenIn(h: seq<Moment>): Sight {
    if h == [] then Sight(None, None, 0, 0, false) else SeeAll(SeenIn(h[..|h| - 1]), h[|h| - 1].outputs)
  }

  /** Whether the open source has reported that it is open. */
  function ReportedIn(h: seq<Moment>): bool {
    if h == [] then false else
    var before, m := h[..|h| - 1], h[|h| - 1];
    if SeenIn(h).opens > SeenIn(before).opens then false
    else ReportedIn(before) || (SeenIn(before).source.Some? && m.input == SourceOpens(SeenIn(before).source.value))
  }

  /** A poll was sent and has not settled. */
  function PollingIn(h: seq<Moment>): bool {
    if h == [] then false else
    var before, m := h[..|h| - 1], h[|h| - 1];
    if SeenIn(h).polls > SeenIn(before).polls then true
    else if m.input.PollSettles? then false
    else PollingIn(before)
  }

  /** Stopped from outside, told to stop by a poll, or finished by a conclusive event. */
  function EndedIn(h: seq<Moment>): bool {
    if h == [] then false else
    var before, m := h[..|h| - 1], h[|h| - 1];
    || EndedIn(before) || m.input.Stop? || SeenIn(h).concluded
    || (PollingIn(before) && m.input == PollSettles(StopPolling))
  }

  /** A connection attempt is due: no source is open, and neither the end nor the offline notice has come. */
  predicate AttemptDue(h: seq<Moment>) {
    !EndedIn(h) && SeenIn(h).source.None? && SeenIn(h).shown != Some(Offline)
  }

  /** A poll is due: offline, none under way, and the limit is not reached. */
  predicate PollDue(h: seq<Moment>, limits: Limits) {
    !EndedIn(h) && SeenIn(h).shown == Some(Offline) && !PollingIn(h) && SeenIn(h).polls < limits.maxPolls
  }

  /** The input fails a connection attempt: the source cannot be opened, does not report in time, or breaks. */
  predicate Fails(h: seq<Moment>, i: Input) {
    !EndedIn(h) &&
    match i
    case ReconnectFires(visible, opens) => AttemptDue(h) && visible && !opens
    case ConnectionTimesOut => SeenIn(h).source.Some? && !ReportedIn(h)
    case SourceFails(g) => SeenIn(h).source == Some(g)
    case _ => false
  }

  function FailuresIn(h: seq<Moment>): nat {
    if h == [] then 0 else
    FailuresIn(h[..|h| - 1]) + if Fails(h[..|h| - 1], h[|h| - 1].input) then 1 else 0
  }

  // ----- What an input makes visible -------------------------------------------------------

  function Showing(shown: Option<Connection>, c: Connection): seq<Output> {
    if shown == Some(c) then [] else [Shown(c)]
  }

  /** After a failure another attempt is announced as long as failures are allowed; then the controller is
      offline. */
  function AfterFailure(h: seq<Moment>, shown: Option<Connection>, limits: Limits): seq<Output> {
    Showing(shown, if FailuresIn(h) < limits.maxReconnects then Connecting else Offline)
  }

  function Visible(h: seq<Moment>, i: Input, limits: Limits): seq<Output> {
    if EndedIn(h) then [] else
    match i
    case ReconnectFires(visible, opens) =>
      if !AttemptDue(h) then []
      else if !visible then Showing(SeenIn(h).shown, Offline)
      else if opens then Showing(SeenIn(h).shown, Connecting) + [Opened(SeenIn(h).opens + FailuresIn(h) + 1)]
      else Showing(SeenIn(h).shown, Connecting) + AfterFailure(h, Some(Connecting), limits)
    case SourceOpens(g) => if SeenIn(h).source == Some(g) then Showing(SeenIn(h).shown, Live) else []
    case MessageArrives(g, e) =>
      if SeenIn(h).source != Some(g) || e.None? then []
      else if Conclusive(e.value) then Showing(SeenIn(h).shown, Idle) + [Delivered(g, e.value), Closed(g)]
      else Showing(SeenIn(h).shown, Live) + [Delivered(g, e.value)]
    case FallbackFires(visible) => if PollDue(h, limits) && visible then [Polled] else []
    case PollSettles(_) => []
    case Stop => if SeenIn(h).source.Some? then [Closed(SeenIn(h).source.value)] else []
    case _ => if Fails(h, i) then [Closed(SeenIn(h).source.value)] + AfterFailure(h, SeenIn(h).shown, limits) else []
  }

  // ----- What the controller holds is what the moments say ---------------------------------

  ghost predicate PhaseTold(h: seq<Moment>, p: Progress, limits: Limits) {
    && (SeenIn(h).source.Some? <==> p.phase.Streaming?) && (PollingIn(h) <==> p.phase.PollInFlight?)
    && match p.phase
       case Waiting => AttemptDue(h) && SeenIn(h).shown != Some(Live)
       case Streaming(g, timeout) =>
         !EndedIn(h) && SeenIn(h).source == Some(g) && g == p.generation
         && timeout == !ReportedIn(h) && SeenIn(h).shown != Some(Offline)
       case PollScheduled => PollDue(h, limits)
       case PollInFlight => if EndedIn(h) then p.stopped else SeenIn(h).shown == Some(Offline)
       case Quiet => EndedIn(h) || (SeenIn(h).shown == Some(Offline) && SeenIn(h).polls >= limits.maxPolls)
  }

  ghost predicate CountsTold(h: seq<Moment>, p: Progress, limits: Limits) {
    && p.generation == SeenIn(h).opens + FailuresIn(h)
    && p.live == (SeenIn(h).shown == Some(Live))
    && if p.reconnects < limits.maxReconnects then p.reconnects == FailuresIn(h)
       else FailuresIn(h) >= limits.maxReconnects
  }

  ghost predicate Told(h: seq<Moment>, p: Progress, limits: Limits) {
    && p.connection == SeenIn(h).shown && p.polls == SeenIn(h).polls && p.terminal == EndedIn(h)
    && (p.stopped ==> p.terminal)
    && PhaseTold(h, p, limits)
    && (!p.terminal ==> CountsTold(h, p, limits))
  }

  // ----- Outputs one at a time -------------------------------------------------------------

  function Length(log: Log): nat {
    if log.Empty? then 0 else Length(log.earlier) + 1
  }

  /** `later` was written on top of `earlier`, adding these outputs. */
  ghost predicate Adds(later: Log, earlier: Log, outputs: seq<Output>) {
    Length(later) == Length(earlier) + |outputs| && Since(later, earlier) == outputs
  }

  lemma AddsNothing(log: Log)
    ensures Adds(log, log, [])
  {
  }

  lemma AddsOne(later: Log, earlier: Log, outputs: seq<Output>, o: Output)
    requires Adds(later, earlier, outputs)
    ensures Adds(After(later, o), earlier, outputs + [o])
  {
  }

  lemma ShowAdds(p: Progress, earlier: Log, outputs: seq<Output>, c: Connection)
    requires Adds(p.log, earlier, outputs)
    ensures Adds(Show(p, c).log, earlier, outputs + Showing(p.connection, c))
  {
    if p.connection != Some(c) {
      AddsOne(p.log, earlier, outputs, Shown(c));
    } else {
      assert outputs + [] == outputs;
    }
  }

  function Closing(p: Progress): seq<Output> {
    if p.phase.Streaming? then [Closed(p.phase.generation)] else []
  }

  lemma DropAdds(p: Progress, earlier: Log, outputs: seq<Output>)
    requires Adds(p.log, earlier, outputs)
    ensures Adds(Drop(p).log, earlier, outputs + Closing(p))
  {
    if p.phase.Streaming? {
      AddsOne(p.log, earlier, outputs, Closed(p.phase.generation));
    } else {
      assert outputs + [] == outputs;
    }
  }

  lemma RetryAdds(p: Progress, earlier: Log, outputs: seq<Output>, limits: Limits)
    requires Adds(p.log, earlier, outputs)
    ensures Adds(Retry(p, limits).log, earlier,
                 outputs + Closing(p)
                 + Showing(p.connection, if p.reconnects < limits.maxReconnects then Connecting else Offline))
  {
    DropAdds(p, earlier, outputs);
    var q := Drop(p).(live := false);
    ShowAdds(q, earlier, outputs + Closing(p), Connecting);
    ShowAdds(q, earlier, outputs + Closing(p), Offline);
  }

  lemma ConnectAdds(p: Progress, visible: bool, opens: bool, limits: Limits)
    requires p.phase.Quiet?
    ensures Adds(Connect(p, visible, opens, limits).log, p.log,
                 if !visible then Showing(p.connection, Offline)
                 else if opens then Showing(p.connection, Connecting) + [Opened(p.generation + 1)]
                 else Showing(p.connection, Connecting)
                      + Showing(Some(Connecting), if p.reconnects < limits.maxReconnects then Connecting else Offline))
  {
    AddsNothing(p.log);
    var shown := Showing(p.connection, if visible then Connecting else Offline);
    assert [] + shown == shown;
    ShowAdds(p, p.log, [], Offline);
    ShowAdds(p, p.log, [], Connecting);
    var q := Show(p, Connecting);
    if visible && opens {
      AddsOne(q.log, p.log, shown, Opened(p.generation + 1));
    } else if visible {
      RetryAdds(q, p.log, shown, limits);
      assert shown + [] == shown;
    }
  }

  lemma AcceptAdds(p: Progress, e: Event)
    requires p.phase.Streaming? && (p.live ==> p.connection == Some(Live)) && p.phase.generation == p.generation
    requires !p.live ==> p.connection != Some(Live)
    ensures Adds(Accept(p, e).log, p.log,
                 if Terminal(e) then Showing(p.connection, Idle) + [Delivered(p.generation, e), Closed(p.generation)]
                 else Showing(p.connection, Live) + [Delivered(p.generation, e)])
  {
    AddsNothing(p.log);
    if Terminal(e) {
      var shown := Showing(p.connection, Idle);
      assert [] + shown == shown;
      var q := Show(p.(terminal := true, live := false), Idle);
      ShowAdds(p.(terminal := true, live := false), p.log, [], Idle);
      AddsOne(q.log, p.log, shown, Delivered(p.generation, e));
      var told := q.(log := After(q.log, Delivered(p.generation, e)));
      DropAdds(told, p.log, shown + [Delivered(p.generation, e)]);
      assert shown + [Delivered(p.generation, e)] + [Closed(p.generation)]
        == shown + [Delivered(p.generation, e), Closed(p.generation)];
    } else {
      var shown := Showing(p.connection, Live);
      assert [] + shown == shown;
      ShowAdds(p.(live := true), p.log, [], Live);
      var q := if p.live then p else Show(p.(live := true), Live);
      AddsOne(q.log, p.log, shown, Delivered(p.generation, e));
    }
  }

  lemma ConclusiveIsTerminal(e: Event)
    ensures Terminal(e) <==> Conclusive(e)
  {
  }

  lemma FailingAdds(h: seq<Moment>, p: Progress, i: Input, limits: Limits)
    requires Told(h, p, limits) && (i.ConnectionTimesOut? || i.SourceFails?)
    ensures Adds(Next(p, i, limits).log, p.log, Visible(h, i, limits))
  {
    AddsNothing(p.log);
    if Fails(h, i) {
      RetryAdds(p, p.log, [], limits);
      assert [] + Closing(p) == Closing(p);
    }
  }

  lemma AttemptAdds(h: seq<Moment>, p: Progress, i: Input, limits: Limits)
    requires Told(h, p, limits) && i.ReconnectFires?
    ensures Adds(Next(p, i, limits).log, p.log, Visible(h, i, limits))
  {
    AddsNothing(p.log);
    if p.phase.Waiting? {
      ConnectAdds(p.(phase := Quiet), i.visible, i.opens, limits);
    }
  }

  lemma MessageAdds(h: seq<Moment>, p: Progress, i: Input, limits: Limits)
    requires Told(h, p, limits) && i.MessageArrives?
    ensures Adds(Next(p, i, limits).log, p.log, Visible(h, i, limits))
  {
    AddsNothing(p.log);
    if p.phase.Streaming? && p.phase.generation == i.generation && i.event.Some? {
      ConclusiveIsTerminal(i.event.value);
      AcceptAdds(p, i.event.value);
    }
  }

  lemma StopAdds(p: Progress)
    ensures Adds(StopAll(p).log, p.log, if p.stopped then [] else Closing(p))
  {
    AddsNothing(p.log);
    DropAdds(p, p.log, []);
    assert [] + Closing(p) == Closing(p);
  }

  /** Each input makes visible exactly what the moments before it call for. */
  lemma StepIsVisibleAsTold(h: seq<Moment>, p: Progress, i: Input, limits: Limits)
    requires Told(h, p, limits)
    ensures Adds(Next(p, i, limits).log, p.log, Visible(h, i, limits))
  {
    AddsNothing(p.log);
    match i
    case ReconnectFires(_, _) => AttemptAdds(h, p, i, limits);
    case ConnectionTimesOut => FailingAdds(h, p, i, limits);
    case SourceFails(_) => FailingAdds(h, p, i, limits);
    case SourceOpens(g) =>
      ShowAdds(p, p.log, [], Live);
      assert [] + Showing(p.connection, Live) == Showing(p.connection, Live);
      if p.phase.Streaming? && p.phase.generation == g {
        ShowAdds(p.(phase := Streaming(g, false), live := true), p.log, [], Live);
      }
    case MessageArrives(_, _) => MessageAdds(h, p, i, limits);
    case FallbackFires(visible) => AddsOne(p.log, p.log, [], Polled);
    case PollSettles(result) => StopAdds(p.(phase := Quiet));
    case Stop => StopAdds(p);
  }

  // ----- One more moment -------------------------------------------------------------------

  lemma SeeOneMore(s: Sight, outputs: seq<Output>, o: Output)
    ensures SeeAll(s, outputs + [o]) == See(SeeAll(s, outputs), o)
  {
    assert (outputs + [o])[..|outputs|] == outputs;
  }

  lemma SeeShowing(s: Sight, outputs: seq<Output>, c: Connection)
    ensures SeeAll(s, outputs + Showing(SeeAll(s, outputs).shown, c)) == SeeAll(s, outputs).(shown := Some(c))
  {
    if SeeAll(s, outputs).shown == Some(c) {
      assert outputs + [] == outputs;
    } else {
      SeeOneMore(s, outputs, Shown(c));
    }
  }

  lemma SeeFirstShowing(s: Sight, c: Connection)
    ensures SeeAll(s, Showing(s.shown, c)) == s.(shown := Some(c))
  {
    SeeShowing(s, [], c);
    assert [] + Showing(s.shown, c) == Showing(s.shown, c);
  }

  /** What is seen after the input. */
  function SeenAfter(h: seq<Moment>, i: Input, limits: Limits): Sight {
    SeeAll(SeenIn(h), Visible(h, i, limits))
  }

  function Failed(s: Sight, h: seq<Moment>, limits: Limits): Sight {
    s.(shown := Some(if FailuresIn(h) < limits.maxReconnects then Connecting else Offline), source := None)
  }

  lemma SeenAfterAttempt(h: seq<Moment>, i: Input, limits: Limits)
    requires i.ReconnectFires? && AttemptDue(h)
    ensures var s := SeenIn(h);
      SeenAfter(h, i, limits) ==
        if !i.visible then s.(shown := Some(Offline))
        else if i.opens then
          s.(shown := Some(Connecting), source := Some(s.opens + FailuresIn(h) + 1), opens := s.opens + 1)
        else Failed(s, h, limits)
  {
    var s := SeenIn(h);
    SeeFirstShowing(s, Offline);
    SeeFirstShowing(s, Connecting);
    var shown := Showing(s.shown, Connecting);
    if i.visible && i.opens {
      SeeOneMore(s, shown, Opened(s.opens + FailuresIn(h) + 1));
    } else if i.visible {
      SeeShowing(s, shown, if FailuresIn(h) < limits.maxReconnects then Connecting else Offline);
    }
  }

  lemma SeenAfterBreak(h: seq<Moment>, i: Input, limits: Limits)
    requires (i.ConnectionTimesOut? || i.SourceFails?) && Fails(h, i)
    ensures SeenAfter(h, i, limits) == Failed(SeenIn(h), h, limits)
  {
    var s := SeenIn(h);
    var c := if FailuresIn(h) < limits.maxReconnects then Connecting else Offline;
    CloseThenShow(s, Closed(s.source.value), c);
    assert Visible(h, i, limits) == [Closed(s.source.value)] + Showing(s.shown, c);
  }

  lemma CloseThenShow(s: Sight, closing: Output, c: Connection)
    requires closing.Closed?
    ensures SeeAll(s, [closing] + Showing(s.shown, c)) == s.(shown := Some(c), source := None)
  {
    SeeOneMore(s, [], closing);
    assert [] + [closing] == [closing];
    SeeShowing(s, [closing], c);
  }

  lemma SeenAfterMessage(h: seq<Moment>, i: Input, limits: Limits)
    requires i.MessageArrives? && i.event.Some? && SeenIn(h).source == Some(i.generation) && !EndedIn(h)
    ensures var s := SeenIn(h);
      SeenAfter(h, i, limits) ==
        if Conclusive(i.event.value) then s.(shown := Some(Idle), source := None, concluded := true)
        else s.(shown := Some(Live))
  {
    var s, e := SeenIn(h), i.event.value;
    var delivered := Delivered(i.generation, e);
    if Conclusive(e) {
      var shown := Showing(s.shown, Idle);
      SeeFirstShowing(s, Idle);
      SeeOneMore(s, shown, delivered);
      SeeOneMore(s, shown + [delivered], Closed(i.generation));
      assert shown + [delivered] + [Closed(i.generation)] == shown + [delivered, Closed(i.generation)];
    } else {
      SeeFirstShowing(s, Live);
      SeeOneMore(s, Showing(s.shown, Live), delivered);
    }
  }

  lemma SeenAfterOpening(h: seq<Moment>, i: Input, limits: Limits)
    requires i.SourceOpens?
    ensures var s := SeenIn(h);
      SeenAfter(h, i, limits)
      == if !EndedIn(h) && s.source == Some(i.generation) then s.(shown := Some(Live)) else s
  {
    SeeFirstShowing(SeenIn(h), Live);
  }

  lemma SeenAfterFallback(h: seq<Moment>, i: Input, limits: Limits)
    requires i.FallbackFires? || i.PollSettles?
    ensures var s := SeenIn(h);
      SeenAfter(h, i, limits)
      == if i.FallbackFires? && i.visible && !EndedIn(h) && PollDue(h, limits) then s.(polls := s.polls + 1) else s
  {
    SeeOneMore(SeenIn(h), [], Polled);
    assert [] + [Polled] == [Polled];
  }

  lemma SeenAfterStop(h: seq<Moment>, i: Input, limits: Limits)
    requires i.Stop?
    ensures SeenAfter(h, i, limits) == if EndedIn(h) then SeenIn(h) else SeenIn(h).(source := None)
  {
    var s := SeenIn(h);
    if s.source.Some? {
      SeeOneMore(s, [], Closed(s.source.value));
      assert [] + [Closed(s.source.value)] == [Closed(s.source.value)];
    }
  }

  lemma SeenAfterOther(h: seq<Moment>, i: Input, limits: Limits)
    requires i.SourceOpens? || i.FallbackFires? || i.PollSettles? || i.Stop?
    ensures var s := SeenIn(h);
      SeenAfter(h, i, limits) ==
        if EndedIn(h) then s
        else if i.SourceOpens? && s.source == Some(i.generation) then s.(shown := Some(Live))
        else if i.FallbackFires? && i.visible && PollDue(h, limits) then s.(polls := s.polls + 1)
        else if i.Stop? then s.(source := None)
        else s
  {
    if i.SourceOpens? {
      SeenAfterOpening(h, i, limits);
    } else if i.Stop? {
      SeenAfterStop(h, i, limits);
    } else {
      SeenAfterFallback(h, i, limits);
    }
  }

  lemma OneMoreMoment(h: seq<Moment>, m: Moment)
    ensures (h + [m])[..|h|] == h && (h + [m])[|h|] == m
    ensures SeenIn(h + [m]) == SeeAll(SeenIn(h), m.outputs)
    ensures SeenIn(h).concluded ==> EndedIn(h)
  {
  }

  /** What the moments say after one more input that leaves this to be seen. */
  ghost predicate Follows(after: seq<Moment>, h: seq<Moment>, i: Input, s: Sight) {
    && SeenIn(after) == s
    && ReportedIn(after)
       == (s.opens <= SeenIn(h).opens
           && (ReportedIn(h) || (SeenIn(h).source.Some? && i == SourceOpens(SeenIn(h).source.value))))
    && PollingIn(after) == (s.polls > SeenIn(h).polls || (!i.PollSettles? && PollingIn(h)))
    && EndedIn(after)
       == (EndedIn(h) || i.Stop? || s.concluded || (PollingIn(h) && i == PollSettles(StopPolling)))
    && FailuresIn(after) == FailuresIn(h) + (if Fails(h, i) then 1 else 0)
  }

  lemma OneMoreFollows(h: seq<Moment>, i: Input, limits: Limits)
    ensures Follows(h + [Moment(i, Visible(h, i, limits))], h, i, SeenAfter(h, i, limits))
    ensures SeenIn(h).concluded ==> EndedIn(h)
  {
    OneMoreMoment(h, Moment(i, Visible(h, i, limits)));
  }

  lemma ToldAfterAttempt(h: seq<Moment>, after: seq<Moment>, p: Progress, i: Input, limits: Limits)
    requires i.ReconnectFires? && Told(h, p, limits)
    requires Follows(after, h, i, SeenAfter(h, i, limits))
    requires SeenIn(h).concluded ==> EndedIn(h)
    ensures Told(after, Next(p, i, limits), limits)
  {
    if AttemptDue(h) {
      SeenAfterAttempt(h, i, limits);
    }
  }

  lemma ToldAfterBreak(h: seq<Moment>, after: seq<Moment>, p: Progress, i: Input, limits: Limits)
    requires (i.ConnectionTimesOut? || i.SourceFails?) && Told(h, p, limits)
    requires Follows(after, h, i, SeenAfter(h, i, limits))
    requires SeenIn(h).concluded ==> EndedIn(h)
    ensures Told(after, Next(p, i, limits), limits)
  {
    if Fails(h, i) {
      SeenAfterBreak(h, i, limits);
    }
  }

  lemma ToldAfterMessage(h: seq<Moment>, after: seq<Moment>, p: Progress, i: Input, limits: Limits)
    requires i.MessageArrives? && Told(h, p, limits)
    requires Follows(after, h, i, SeenAfter(h, i, limits))
    requires SeenIn(h).concluded ==> EndedIn(h)
    ensures Told(after, Next(p, i, limits), limits)
  {
    if i.event.Some? && SeenIn(h).source == Some(i.generation) && !EndedIn(h) {
      ConclusiveIsTerminal(i.event.value);
      SeenAfterMessage(h, i, limits);
    }
  }

  lemma ToldAfterOther(h: seq<Moment>, after: seq<Moment>, p: Progress, i: Input, limits: Limits)
    requires (i.SourceOpens? || i.FallbackFires? || i.PollSettles? || i.Stop?) && Told(h, p, limits)
    requires Follows(after, h, i, SeenAfter(h, i, limits))
    requires SeenIn(h).concluded ==> EndedIn(h)
    ensures Told(after, Next(p, i, limits), limits)
  {
    SeenAfterOther(h, i, limits);
  }

  lemma ToldAfterInput(h: seq<Moment>, after: seq<Moment>, p: Progress, i: Input, limits: Limits)
    requires Told(h, p, limits) && Follows(after, h, i, SeenAfter(h, i, limits))
    requires SeenIn(h).concluded ==> EndedIn(h)
    ensures Told(after, Next(p, i, limits), limits)
  {
    if i.ReconnectFires? {
      ToldAfterAttempt(h, after, p, i, limits);
    } else if i.ConnectionTimesOut? || i.SourceFails? {
      ToldAfterBreak(h, after, p, i, limits);
    } else if i.MessageArrives? {
      ToldAfterMessage(h, after, p, i, limits);
    } else {
      ToldAfterOther(h, after, p, i, limits);
    }
  }

  lemma MomentsGrow(inputs: seq<Input>, limits: Limits)
    requires inputs != []
    requires Told(Moments(inputs[..|inputs| - 1], limits), Run(inputs[..|inputs| - 1], limits), limits)
    ensures var before, i := inputs[..|inputs| - 1], inputs[|inputs| - 1];
      && Moments(inputs, limits)
         == Moments(before, limits) + [Moment(i, Visible(Moments(before, limits), i, limits))]
      && Run(inputs, limits) == Next(Run(before, limits), i, limits)
  {
    var before, i := inputs[..|inputs| - 1], inputs[|inputs| - 1];
    StepIsVisibleAsTold(Moments(before, limits), Run(before, limits), i, limits);
  }

  /** In every run the controller's state is what its moments say, and each input makes visible exactly what
      the moments before it call for. */
  lemma {:induction false} EveryRunIsTold(inputs: seq<Input>, limits: Limits)
    ensures Told(Moments(inputs, limits), Run(inputs, limits), limits)
  {
    if inputs != [] {
      var before, i := inputs[..|inputs| - 1], inputs[|inputs| - 1];
      EveryRunIsTold(before, limits);
      MomentsGrow(inputs, limits);
      OneMoreFollows(Moments(before, limits), i, limits);
      ToldAfterInput(Moments(before, limits), Moments(inputs, limits), Run(before, limits), i, limits);
    }
  }

  lemma EachInputIsVisibleAsTold(inputs: seq<Input>, i: Input, limits: Limits)
    ensures var p := Run(inputs, limits);
      Adds(Next(p, i, limits).log, p.log, Visible(Moments(inputs, limits), i, limits))
  {
    EveryRunIsTold(inputs, limits);
    StepIsVisibleAsTold(Moments(inputs, limits), Run(inputs, limits), i, limits);
  }

  // ----- What follows ----------------------------------------------------------------------

  /** The controller is quiet only when it has ended, or is offline with all its polls spent. */
  lemma QuietOnlyWhenDone(inputs: seq<Input>, limits: Limits)
    requires Run(inputs, limits).phase.Quiet?
    ensures var h := Moments(inputs, limits);
      EndedIn(h) || (SeenIn(h).shown == Some(Offline) && SeenIn(h).polls >= limits.maxPolls)
  {
    EveryRunIsTold(inputs, limits);
  }

  /** Then, `n` times, the fallback fires on a visible page and the poll answers that there is more to come. */
  function WithPollRounds(inputs: seq<Input>, n: nat): seq<Input> {
    if n == 0 then inputs else WithPollRounds(inputs, n - 1) + [FallbackFires(true)] + [PollSettles(Continue)]
  }

  lemma OneMoreInput(inputs: seq<Input>, i: Input, limits: Limits)
    ensures Moments(inputs + [i], limits)
      == Moments(inputs, limits) + [Moment(i, Visible(Moments(inputs, limits), i, limits))]
  {
    EachInputIsVisibleAsTold(inputs, i, limits);
    assert (inputs + [i])[..|inputs|] == inputs;
  }

  predicate OfflineIdle(h: seq<Moment>) {
    !EndedIn(h) && SeenIn(h).shown == Some(Offline) && !PollingIn(h)
  }

  lemma FallbackMoment(h: seq<Moment>, after: seq<Moment>, limits: Limits)
    requires OfflineIdle(h) && after == h + [Moment(FallbackFires(true), Visible(h, FallbackFires(true), limits))]
    ensures !EndedIn(after) && SeenIn(after).shown == Some(Offline)
    ensures SeenIn(after).polls == Capped(SeenIn(h).polls, 1, limits.maxPolls)
  {
    OneMoreMoment(h, Moment(FallbackFires(true), Visible(h, FallbackFires(true), limits)));
    SeenAfterOther(h, FallbackFires(true), limits);
  }

  lemma SettlingMoment(h: seq<Moment>, after: seq<Moment>, limits: Limits)
    requires !EndedIn(h) && SeenIn(h).shown == Some(Offline)
    requires after == h + [Moment(PollSettles(Continue), Visible(h, PollSettles(Continue), limits))]
    ensures OfflineIdle(after) && SeenIn(after).polls == SeenIn(h).polls
  {
    OneMoreMoment(h, Moment(PollSettles(Continue), Visible(h, PollSettles(Continue), limits)));
    SeenAfterOther(h, PollSettles(Continue), limits);
  }

  function Capped(polls: nat, n: nat, maxPolls: int): nat {
    if polls + n <= maxPolls then polls + n else if polls < maxPolls then maxPolls else polls
  }

  lemma OnePollRound(inputs: seq<Input>, limits: Limits)
    requires OfflineIdle(Moments(inputs, limits))
    ensures var h := Moments(inputs, limits);
      var after := Moments(inputs + [FallbackFires(true)] + [PollSettles(Continue)], limits);
      OfflineIdle(after) && SeenIn(after).polls == Capped(SeenIn(h).polls, 1, limits.maxPolls)
  {
    var longer := inputs + [FallbackFires(true)];
    OneMoreInput(inputs, FallbackFires(true), limits);
    FallbackMoment(Moments(inputs, limits), Moments(longer, limits), limits);
    OneMoreInput(longer, PollSettles(Continue), limits);
    SettlingMoment(Moments(longer, limits), Moments(longer + [PollSettles(Continue)], limits), limits);
  }

  lemma OneMoreCapped(polls: nat, n: nat, maxPolls: int)
    ensures Capped(Capped(polls, n, maxPolls), 1, maxPolls) == Capped(polls, n + 1, maxPolls)
  {
  }

  /** Offline and idle after these inputs, with so many polls sent. */
  ghost predicate IdleAfter(inputs: seq<Input>, polls: nat, limits: Limits) {
    var h := Moments(inputs, limits);
    OfflineIdle(h) && SeenIn(h).polls == polls
  }

  lemma OneMoreRound(inputs: seq<Input>, polls: nat, limits: Limits)
    requires IdleAfter(inputs, polls, limits)
    ensures IdleAfter(WithPollRounds(inputs, 1), Capped(polls, 1, limits.maxPolls), limits)
  {
    assert WithPollRounds(inputs, 0) == inputs;
    OnePollRound(inputs, limits);
  }

  lemma {:induction false} RoundAfterRound(
    idle: (seq<Input>, nat) -> bool, inputs: seq<Input>, polls: nat, n: nat, maxPolls: int)
    requires idle(inputs, polls)
    requires forall xs, p :: idle(xs, p) ==> idle(WithPollRounds(xs, 1), Capped(p, 1, maxPolls))
    ensures idle(WithPollRounds(inputs, n), Capped(polls, n, maxPolls))
  {
    if n > 0 {
      RoundAfterRound(idle, inputs, polls, n - 1, maxPolls);
      assert WithPollRounds(WithPollRounds(inputs, n - 1), 1) == WithPollRounds(inputs, n) by {
        assert WithPollRounds(WithPollRounds(inputs, n - 1), 0) == WithPollRounds(inputs, n - 1);
      }
      OneMoreCapped(polls, n - 1, maxPolls);
    }
  }

  /** An offline controller that is still polling sends every poll it is allowed, as long as each answers that
      there is more to come and the page is visible: exactly `maxPolls` of them in all, if that is positive. */
  lemma OfflineSendsEveryPoll(inputs: seq<Input>, polls: nat, n: nat, limits: Limits)
    requires IdleAfter(inputs, polls, limits)
    ensures IdleAfter(WithPollRounds(inputs, n), Capped(polls, n, limits.maxPolls), limits)
  {
    var idle := (xs: seq<Input>, p: nat) => IdleAfter(xs, p, limits);
    forall xs, p: nat | idle(xs, p)
      ensures idle(WithPollRounds(xs, 1), Capped(p, 1, limits.maxPolls))
    {
      OneMoreRound(xs, p, limits);
    }
    RoundAfterRound(idle, inputs, polls, n, limits.maxPolls);
  }
}
