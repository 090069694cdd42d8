/** The controller that follows lesson preparation: it streams, reconnects a bounded number of
    times, and falls back to bounded polling. `Progress` is the controller as a machine in one
    phase at a time; the class below keeps the source's separate timers, source and flags and is
    shown to be that machine. Callbacks are assumed not to call back into the controller. */
module ActivationProgress {
  import opened Wrappers

  datatype Status = Pending | Retrying | Ready | Failed

  datatype AssessmentArtifact = Unreported | NullArtifact | Artifact(status: Status)

  datatype Event = Event(activation: Status, assessment: Status, artifact: AssessmentArtifact)

  predicate Settled(s: Status) {
    s == Ready || s == Failed
  }

  predicate Terminal(e: Event) {
    && Settled(e.activation)
    && (e.artifact.Unreported? || (Settled(e.assessment) && (e.artifact.NullArtifact? || Settled(e.artifact.status))))
  }

  datatype Connection = Idle | Connecting | Live | Offline

  /** What the outside sees, in order. */
  datatype Output =
    | Shown(connection: Connection)
    | Delivered(generation: int, event: Event)
    | Opened(generation: int)
    | Closed(generation: int)
    | Polled

  datatype Log = Empty | After(earlier: Log, output: Output)

  function Outputs(log: Log): seq<Output> {
    if log.Empty? then [] else Outputs(log.earlier) + [log.output]
  }

  datatype PollResult = Continue | StopPolling | PollFailed

  datatype Input =
    | ReconnectFires(visible: bool, opens: bool)
    | ConnectionTimesOut
    | SourceOpens(generation: int)
    | SourceFails(generation: int)
    | MessageArrives(generation: int, event: Option<Event>)
    | FallbackFires(visible: bool)
    | PollSettles(result: PollResult)
    | Stop

  datatype Limits = Limits(maxReconnects: int, maxPolls: int)

  /** At most one thing is pending: a reconnect, an open source, a scheduled or a running poll. */
  datatype Phase =
    | Waiting
    | Streaming(generation: int, timeout: bool)
    | PollScheduled
    | PollInFlight
    | Quiet

  datatype Progress = Progress(
    phase: Phase, connection: Option<Connection>, generation: int, live: bool, polls: nat, reconnects: nat,
    stopped: bool, terminal: bool, log: Log)

  const START := Progress(Waiting, None, 0, false, 0, 0, false, false, Empty)

  function Show(p: Progress, c: Connection): Progress {
    if p.connection == Some(c) then p else p.(connection := Some(c), log := After(p.log, Shown(c)))
  }

  function Drop(p: Progress): Progress {
    p.(phase := Quiet, generation := p.generation + 1,
       log := if p.phase.Streaming? then After(p.log, Closed(p.phase.generation)) else p.log)
  }

  function ScheduleFallback(p: Progress, limits: Limits): Progress {
    p.(phase := if p.stopped || p.live || p.polls >= limits.maxPolls then Quiet else PollScheduled)
  }

  function MoveOffline(p: Progress, limits: Limits): Progress {
    ScheduleFallback(Show(p.(live := false), Offline), limits)
  }

  function Retry(p: Progress, limits: Limits): Progress {
    var q := Drop(p).(live := false);
    if q.reconnects >= limits.maxReconnects then MoveOffline(q, limits)
    else Show(q.(reconnects := q.reconnects + 1), Connecting).(phase := Waiting)
  }

  function Connect(p: Progress, visible: bool, opens: bool, limits: Limits): Progress {
    if !visible then MoveOffline(p, limits)
    else
      var q := Show(p, Connecting);
      if !opens then Retry(q, limits)
      else q.(phase := Streaming(q.generation + 1, true), generation := q.generation + 1,
              log := After(q.log, Opened(q.generation + 1)))
  }

  function Accept(p: Progress, e: Event): Progress {
    if Terminal(e) then
      var q := Show(p.(terminal := true, live := false), Idle);
      Drop(q.(log := After(q.log, Delivered(p.generation, e))))
    else
      var q := if p.live then p else Show(p.(live := true), Live);
      q.(log := After(q.log, Delivered(p.generation, e)))
  }

  function StopAll(p: Progress): Progress {
    if p.stopped then p
    else Drop(p).(stopped := true, terminal := true, phase := if p.phase.PollInFlight? then PollInFlight else Quiet)
  }

  /** An input whose timer, source or poll is not the pending one changes nothing. */
  function Next(p: Progress, i: Input, limits: Limits): Progress {
    match i
    case ReconnectFires(visible, opens) =>
      if p.phase.Waiting? then Connect(p.(phase := Quiet), visible, opens, limits) else p
    case ConnectionTimesOut => if p.phase.Streaming? && p.phase.timeout then Retry(p, limits) else p
    case SourceOpens(g) =>
      if p.phase.Streaming? && p.phase.generation == g then Show(p.(phase := Streaming(g, false), live := true), Live)
      else p
    case SourceFails(g) => if p.phase.Streaming? && p.phase.generation == g then Retry(p, limits) else p
    case MessageArrives(g, e) =>
      if p.phase.Streaming? && p.phase.generation == g && e.Some? then Accept(p, e.value) else p
    case FallbackFires(visible) =>
      if !p.phase.PollScheduled? then p
      else if !visible then ScheduleFallback(p, limits)
      else p.(phase := PollInFlight, polls := p.polls + 1, log := After(p.log, Polled))
    case PollSettles(result) =>
      if !p.phase.PollInFlight? then p
      else if result.StopPolling? then StopAll(p.(phase := Quiet))
      else ScheduleFallback(p.(phase := Quiet), limits)
    case Stop => StopAll(p)
  }

  // ----- The controller -------------------------------------------------------------------

  class Controller {
    const limits: Limits
    var connectionHandle: Option<int>  // pending connection timeout, with the generation it captured
    var connectionState: Option<Connection>
    var fallbackHandle: bool           // pending fallback timer
    var reconnectHandle: bool          // pending reconnect timer
    var source: Option<int>            // the open source, by the generation its listeners captured
    var sourceGeneration: int
    var live: bool
    var pollCount: nat
    var reconnectCount: nat
    var stopped: bool
    var terminal: bool
    ghost var pollsInFlight: nat
    ghost var issued: set<int>         // generations captured by any source ever opened
    ghost var log: Log

    ghost function CurrentPhase(): Phase
      reads this
    {
      if reconnectHandle then Waiting
      else if source.Some? then Streaming(source.value, connectionHandle.Some?)
      else if fallbackHandle then PollScheduled
      else if pollsInFlight > 0 then PollInFlight
      else Quiet
    }

    ghost function State(): Progress
      reads this
    {
      Progress(CurrentPhase(), connectionState, sourceGeneration, live, pollCount, reconnectCount, stopped, terminal,
        log)
    }

    /** Never two of: reconnect timer, open source, fallback timer, poll in flight. */
    ghost predicate AtMostOnePending()
      reads this
    {
      (if reconnectHandle then 1 else 0) + (if source.Some? then 1 else 0)
        + (if fallbackHandle then 1 else 0) + pollsInFlight <= 1
    }

    ghost predicate Consistent()
      reads this
    {
      && AtMostOnePending()
      && (connectionHandle.Some? ==> source == connectionHandle)
      && (source.Some? ==> source.value == sourceGeneration && source.value in issued)
      && (source.None? ==> sourceGeneration !in issued)
      && (forall g :: g in issued ==> g <= sourceGeneration)
    }

    ghost predicate Valid()
      reads this
    {
      && Consistent()
      && (live ==> source.Some? || stopped)
      && (stopped ==> terminal)
      && (terminal ==> !reconnectHandle && source.None? && !fallbackHandle)
      && (terminal && !stopped ==> pollsInFlight == 0)
    }

    constructor (limits: Limits)
      ensures Valid() && this.limits == limits && State() == START
    {
      this.limits := limits;
      connectionHandle, connectionState, fallbackHandle, source, sourceGeneration := None, None, false, None, 0;
      live, pollCount, reconnectCount, stopped, terminal := false, 0, 0, false, false;
      pollsInFlight, issued, log := 0, {}, Empty;
      reconnectHandle := true;
    }

    method SetConnection(c: Connection)
      modifies `connectionState, `log
      ensures State() == Show(old(State()), c)
    {
      if connectionState == Some(c) {
        return;
      }
      connectionState := Some(c);
      log := After(log, Shown(c));
    }

    method CloseSource()
      requires Consistent() && !reconnectHandle && !fallbackHandle
      modifies `connectionHandle, `source, `sourceGeneration, `log
      ensures Consistent() && source.None? && connectionHandle.None? && sourceGeneration == old(sourceGeneration) + 1
      ensures log == if old(source).Some? then After(old(log), Closed(old(source).value)) else old(log)
    {
      connectionHandle := None;
      var closing := source;
      source := None;
      sourceGeneration := sourceGeneration + 1;
      if closing.Some? {
        log := After(log, Closed(closing.value));
      }
    }

    method StopController()
      requires Valid()
      modifies this
      ensures Valid() && State() == StopAll(old(State()))
      ensures issued == old(issued) && pollsInFlight == old(pollsInFlight)
    {
      if stopped {
        return;
      }
      stopped := true;
      terminal := true;
      reconnectHandle := false;
      fallbackHandle := false;
      CloseSource();
    }

    /** `generation` belongs to some source that was opened, perhaps long ago. */
    method AcceptMessage(generation: int, event: Option<Event>)
      requires Valid() && generation in issued
      modifies this
      ensures Valid() && State() == Next(old(State()), MessageArrives(generation, event), limits)
      ensures issued == old(issued) && pollsInFlight == old(pollsInFlight)
    {
      if event.None? || stopped || terminal || generation != sourceGeneration {
        return;
      }
      assert source == Some(generation) && !reconnectHandle && !fallbackHandle && pollsInFlight == 0;
      if Terminal(event.value) {
        DeliverLast(event.value);
      } else {
        DeliverProgress(event.value);
      }
    }

    /** The terminal flag is set before anybody is told, so that a closing source changes nothing. */
    method DeliverLast(event: Event)
      requires Valid() && CurrentPhase().Streaming? && !stopped && !terminal && Terminal(event)
      modifies this
      ensures Valid() && State() == Accept(old(State()), event)
      ensures issued == old(issued) && pollsInFlight == old(pollsInFlight)
    {
      terminal := true;
      live := false;
      SetConnection(Idle);
      log := After(log, Delivered(sourceGeneration, event));
      FinishStream();
    }

    method FinishStream()
      requires Consistent() && CurrentPhase().Streaming? && terminal && !live && !stopped
      modifies this
      ensures Valid() && State() == Drop(old(State()))
      ensures issued == old(issued) && pollsInFlight == old(pollsInFlight)
    {
      reconnectHandle := false;
      fallbackHandle := false;
      CloseSource();
    }

    method DeliverProgress(event: Event)
      requires Valid() && CurrentPhase().Streaming? && !stopped && !terminal && !Terminal(event)
      modifies this
      ensures Valid() && State() == Accept(old(State()), event)
      ensures issued == old(issued) && pollsInFlight == old(pollsInFlight)
    {
      if !live {
        live := true;
        SetConnection(Live);
        fallbackHandle := false;
      }
      log := After(log, Delivered(sourceGeneration, event));
    }

    method Reschedule()
      requires Consistent() && CurrentPhase() == Quiet && (live ==> stopped)
      modifies `fallbackHandle
      ensures Consistent() && State() == ScheduleFallback(old(State()), limits)
      ensures fallbackHandle ==> !stopped
    {
      if stopped || live || fallbackHandle || pollCount >= limits.maxPolls {
        return;
      }
      fallbackHandle := true;
    }

    method GoOffline()
      requires Consistent() && CurrentPhase() == Quiet && !terminal && !stopped
      modifies `live, `connectionState, `log, `fallbackHandle
      ensures Valid() && State() == MoveOffline(old(State()), limits)
    {
      live := false;
      SetConnection(Offline);
      Reschedule();
    }

    /** Called for a source that failed, or by `connect` itself when no source could be created. */
    method RetryConnection(generation: int)
      requires (Valid() && generation in issued)
            || (Consistent() && CurrentPhase() == Quiet && !terminal && !stopped && generation == sourceGeneration)
      modifies this
      ensures Valid() && issued == old(issued) && pollsInFlight == old(pollsInFlight)
      ensures State() == if !old(stopped) && !old(terminal) && generation == old(sourceGeneration)
                         then Retry(old(State()), limits) else old(State())
    {
      if stopped || terminal || generation != sourceGeneration {
        return;
      }
      CloseSource();
      live := false;
      assert State() == Drop(old(State())).(live := false);
      if reconnectCount >= limits.maxReconnects {
        GoOffline();
        return;
      }
      reconnectCount := reconnectCount + 1;
      SetConnection(Connecting);
      reconnectHandle := true;
    }

    /** A reconnect timer that is pending fires; `opens` is false if the source cannot be created. */
    method FireReconnect(visible: bool, opens: bool)
      requires Valid() && reconnectHandle
      modifies this
      ensures Valid() && State() == Next(old(State()), ReconnectFires(visible, opens), limits)
    {
      reconnectHandle := false;
      if stopped || terminal {
        return;
      }
      if !visible {
        GoOffline();
        return;
      }
      SetConnection(Connecting);
      if !opens {
        RetryConnection(sourceGeneration);
        return;
      }
      sourceGeneration := sourceGeneration + 1;
      source := Some(sourceGeneration);
      issued := issued + {sourceGeneration};
      log := After(log, Opened(sourceGeneration));
      connectionHandle := Some(sourceGeneration);
    }

    method FireConnectionTimeout()
      requires Valid() && connectionHandle.Some?
      modifies this
      ensures Valid() && State() == Next(old(State()), ConnectionTimesOut, limits)
    {
      var generation := connectionHandle.value;
      connectionHandle := None;
      RetryConnection(generation);
    }

    method HandleOpen(generation: int)
      requires Valid() && generation in issued
      modifies this
      ensures Valid() && State() == Next(old(State()), SourceOpens(generation), limits)
    {
      if stopped || terminal || generation != sourceGeneration {
        return;
      }
      connectionHandle := None;
      live := true;
      SetConnection(Live);
      fallbackHandle := false;
    }

    /** The native error event and the server's request to reconnect. */
    method HandleFailure(generation: int)
      requires Valid() && generation in issued
      modifies this
      ensures Valid() && State() == Next(old(State()), SourceFails(generation), limits)
    {
      RetryConnection(generation);
    }

    method FireFallback(visible: bool)
      requires Valid() && fallbackHandle
      modifies this
      ensures Valid() && State() == Next(old(State()), FallbackFires(visible), limits)
    {
      fallbackHandle := false;
      if stopped {
        return;
      }
      if !visible {
        Reschedule();
        return;
      }
      pollCount := pollCount + 1;
      pollsInFlight := pollsInFlight + 1;
      log := After(log, Polled);
    }

    method SettlePoll(result: PollResult)
      requires Valid() && pollsInFlight > 0
      modifies this
      ensures Valid() && State() == Next(old(State()), PollSettles(result), limits)
    {
      pollsInFlight := pollsInFlight - 1;
      if result.StopPolling? {
        StopController();
      } else {
        Reschedule();
      }
    }
  }

  // ----- Every run ------------------------------------------------------------------------

  function Run(inputs: seq<Input>, limits: Limits): Progress {
    if inputs == [] then START else Next(Run(inputs[..|inputs| - 1], limits), inputs[|inputs| - 1], limits)
  }

  /** Where the visible history stands. */
  datatype Mode =
    | Between            // no source is open and another may still open
    | Following(generation: int)
    | Finishing(generation: int) // idle is shown, the terminal event is still to be delivered
    | Finished(generation: int)  // it is delivered, the source is still to be closed
    | FellBack           // shown as offline; only polls follow
    | Ended

  /** The order in which outputs may appear. */
  function Advance(m: Mode, o: Output): Option<Mode> {
    match m
    case Between =>
      (match o
       case Shown(Connecting) => Some(Between)
       case Shown(Offline) => Some(FellBack)
       case Opened(g) => Some(Following(g))
       case _ => None)
    case Following(g) =>
      (match o
       case Shown(Live) => Some(m)
       case Shown(Idle) => Some(Finishing(g))
       case Delivered(h, e) => if h == g && !Terminal(e) then Some(m) else None
       case Closed(h) => if h == g then Some(Between) else None
       case _ => None)
    case Finishing(g) =>
      if o.Delivered? && o.generation == g && Terminal(o.event) then Some(Finished(g)) else None
    case Finished(g) => if o == Closed(g) then Some(Ended) else None
    case FellBack => if o.Polled? then Some(FellBack) else None
    case Ended => None
  }

  function Scan(log: Log): Option<Mode> {
    if log.Empty? then Some(Between)
    else
      match Scan(log.earlier)
      case None => None
      case Some(m) => Advance(m, log.output)
  }

  /** Shown as offline or idle: no stream will be shown any more. */
  predicate Beyond(c: Option<Connection>) {
    c == Some(Offline) || c == Some(Idle)
  }

  /** How the visible history and the controller's state belong together. */
  ghost predicate Fits(m: Mode, p: Progress) {
    && (p.live ==> p.phase.Streaming? || p.stopped)
    && (p.stopped ==> p.terminal)
    && (p.phase.Waiting? ==> m.Between? && !p.terminal && !Beyond(p.connection))
    && (p.phase.Streaming? ==> m == Following(p.phase.generation) && p.phase.generation == p.generation)
    && (p.phase.Streaming? ==> !p.terminal && !Beyond(p.connection))
    && (p.phase.PollScheduled? ==> m.FellBack? && !p.terminal)
    && (p.phase.PollInFlight? ==> m.FellBack? && (p.terminal ==> p.stopped))
    && (p.phase.Quiet? && !p.terminal ==> m.FellBack?)
    && (m.FellBack? ==> p.connection == Some(Offline))
    && (m.Ended? || m.FellBack? || m.Between? || m.Following?)
  }

  lemma DropFits(p: Progress, m: Mode)
    requires Scan(p.log) == Some(m)
    requires p.phase.Streaming? ==> m == Following(p.phase.generation) || m == Finished(p.phase.generation)
    ensures Scan(Drop(p).log) == Some(if !p.phase.Streaming? then m else if m.Following? then Between else Ended)
  {
  }

  ghost predicate Tracks(m: Mode, p: Progress) {
    Scan(p.log) == Some(m) && Fits(m, p)
  }

  lemma OfflineFits(p: Progress, limits: Limits)
    requires Scan(p.log) == Some(Between) && p.phase.Quiet? && !p.terminal && !p.stopped && !Beyond(p.connection)
    ensures Tracks(FellBack, MoveOffline(p, limits))
  {
  }

  lemma RetryFits(p: Progress, m: Mode, limits: Limits) returns (n: Mode)
    requires Scan(p.log) == Some(m) && !p.terminal && !p.stopped && !Beyond(p.connection)
    requires (p.phase.Streaming? && m == Following(p.phase.generation)) || (p.phase.Quiet? && m.Between?)
    ensures Tracks(n, Retry(p, limits))
  {
    DropFits(p, m);
    var q := Drop(p).(live := false);
    if q.reconnects >= limits.maxReconnects {
      OfflineFits(q, limits);
      n := FellBack;
    } else {
      n := Between;
    }
  }

  lemma ConnectFits(p: Progress, visible: bool, opens: bool, limits: Limits) returns (n: Mode)
    requires Scan(p.log) == Some(Between) && p.phase.Quiet? && !p.terminal && !p.stopped && !p.live
    requires !Beyond(p.connection)
    ensures Tracks(n, Connect(p, visible, opens, limits))
  {
    if !visible {
      OfflineFits(p, limits);
      n := FellBack;
    } else {
      if opens {
        n := Following(p.generation + 1);
      } else {
        n := RetryFits(Show(p, Connecting), Between, limits);
      }
    }
  }

  lemma AcceptFits(p: Progress, e: Event) returns (n: Mode)
    requires p.phase.Streaming? && Tracks(Following(p.phase.generation), p)
    ensures Tracks(n, Accept(p, e))
  {
    if Terminal(e) {
      var q := Show(p.(terminal := true, live := false), Idle);
      DropFits(q.(log := After(q.log, Delivered(p.generation, e))), Finished(p.generation));
      n := Ended;
    } else {
      var q := if p.live then p else Show(p.(live := true), Live);
      n := Following(p.generation);
    }
  }

  lemma StreamingFits(p: Progress, i: Input, limits: Limits) returns (n: Mode)
    requires p.phase.Streaming? && Tracks(Following(p.phase.generation), p)
    requires i.ConnectionTimesOut? || i.SourceOpens? || i.SourceFails? || i.MessageArrives?
    ensures Tracks(n, Next(p, i, limits))
  {
    n := Following(p.phase.generation);
    if i.SourceOpens? {
    } else if i.ConnectionTimesOut? {
      if p.phase.timeout { n := RetryFits(p, n, limits); }
    } else if i.generation == p.phase.generation {
      if i.SourceFails? {
        n := RetryFits(p, n, limits);
      } else if i.event.Some? {
        n := AcceptFits(p, i.event.value);
      }
    }
  }

  lemma StopFits(p: Progress, m: Mode) returns (n: Mode)
    requires Tracks(m, p) || (p.phase.Quiet? && Tracks(m, p.(phase := PollInFlight)))
    ensures Tracks(n, StopAll(p))
  {
    DropFits(p, m);
    n := if p.phase.Streaming? && !p.stopped then Between else m;
  }

  lemma StepFits(p: Progress, m: Mode, i: Input, limits: Limits) returns (n: Mode)
    requires Tracks(m, p)
    ensures Tracks(n, Next(p, i, limits))
  {
    n := m;
    if i.ReconnectFires? {
      if p.phase.Waiting? { n := ConnectFits(p.(phase := Quiet), i.visible, i.opens, limits); }
    } else if i.Stop? {
      n := StopFits(p, m);
    } else if i.FallbackFires? {
    } else if i.PollSettles? {
      if p.phase.PollInFlight? && i.result.StopPolling? { n := StopFits(p.(phase := Quiet), m); }
    } else if p.phase.Streaming? {
      n := StreamingFits(p, i, limits);
    }
  }

  /** Over every run the visible history follows the grammar of `Advance`. */
  lemma {:induction false} EveryRunFits(inputs: seq<Input>, limits: Limits)
    ensures var p := Run(inputs, limits); Scan(p.log).Some? && Fits(Scan(p.log).value, p)
  {
    if inputs != [] {
      var p := Run(inputs[..|inputs| - 1], limits);
      EveryRunFits(inputs[..|inputs| - 1], limits);
      var n := StepFits(p, Scan(p.log).value, inputs[|inputs| - 1], limits);
    }
  }

  predicate Offlines(o: Output) {
    o == Shown(Offline) || o.Polled?
  }

  predicate Concludes(o: Output) {
    o.Delivered? && Terminal(o.event)
  }

  /** Nothing but polls after going offline, and nothing but the closing after a terminal event. */
  ghost predicate Orderly(log: seq<Output>) {
    forall i, j :: 0 <= i < j < |log| ==>
      (Offlines(log[i]) ==> log[j].Polled?) && (Concludes(log[i]) ==> log[j].Closed?)
  }

  lemma {:induction false} LawfulIsOrderly(log: Log)
    requires Scan(log).Some?
    ensures Orderly(Outputs(log))
    ensures forall o :: o in Outputs(log) && Offlines(o) ==> Scan(log).value.FellBack?
    ensures forall o :: o in Outputs(log) && Concludes(o) ==> Scan(log).value.Finished? || Scan(log).value.Ended?
  {
    if log.After? {
      LawfulIsOrderly(log.earlier);
      var before, all := Outputs(log.earlier), Outputs(log);
      forall i, j | 0 <= i < j < |all|
        ensures (Offlines(all[i]) ==> all[j].Polled?) && (Concludes(all[i]) ==> all[j].Closed?)
      {
        assert all[i] == before[i] && all[i] in before;
      }
    }
  }

  /** The source opened at `o` is still the open one after all of `log`. */
  ghost predicate OpenSince(log: seq<Output>, o: nat, generation: int) {
    && o < |log| && log[o] == Opened(generation)
    && forall k :: o < k < |log| ==> !log[k].Opened? && !log[k].Closed?
  }

  lemma {:induction false} FollowingIsOpen(log: Log) returns (o: nat)
    requires Scan(log).Some? && (Scan(log).value.Following? || Scan(log).value.Finishing?)
    ensures OpenSince(Outputs(log), o, Scan(log).value.generation)
  {
    if Scan(log.earlier).value.Between? {
      o := |Outputs(log.earlier)|;
    } else {
      o := FollowingIsOpen(log.earlier);
    }
  }

  lemma {:induction false} DeliveredWhileOpen(log: Log, i: nat) returns (o: nat)
    requires Scan(log).Some? && i < |Outputs(log)| && Outputs(log)[i].Delivered?
    ensures OpenSince(Outputs(log)[..i], o, Outputs(log)[i].generation)
  {
    if i < |Outputs(log.earlier)| {
      o := DeliveredWhileOpen(log.earlier, i);
      assert Outputs(log)[..i] == Outputs(log.earlier)[..i];
    } else {
      o := FollowingIsOpen(log.earlier);
      assert Outputs(log)[..i] == Outputs(log.earlier);
    }
  }

  /** In every run: after the offline notice or a poll only polls follow, so no stream opens and
      no streamed event arrives; after a terminal event only its source is closed, so there is no
      further event and no offline state. */
  lemma PollingAndTerminalAreFinal(inputs: seq<Input>, limits: Limits)
    ensures Orderly(Outputs(Run(inputs, limits).log))
  {
    EveryRunFits(inputs, limits);
    LawfulIsOrderly(Run(inputs, limits).log);
  }

  /** In every run each delivered event comes from the source that is open at that moment; an
      event of an earlier generation is never delivered. */
  lemma DeliveredOnlyFromOpenSource(inputs: seq<Input>, limits: Limits, i: nat) returns (o: nat)
    requires i < |Outputs(Run(inputs, limits).log)| && Outputs(Run(inputs, limits).log)[i].Delivered?
    ensures OpenSince(Outputs(Run(inputs, limits).log)[..i], o, Outputs(Run(inputs, limits).log)[i].generation)
  {
    EveryRunFits(inputs, limits);
    o := DeliveredWhileOpen(Run(inputs, limits).log, i);
  }

  datatype Tally = Tally(opens: nat, polls: nat)

  function Count(log: Log): Tally {
    if log.Empty? then Tally(0, 0) else AddTo(Count(log.earlier), log.output)
  }

  function AddTo(t: Tally, o: Output): Tally {
    match o
    case Opened(_) => t.(opens := t.opens + 1)
    case Polled => t.(polls := t.polls + 1)
    case _ => t
  }

  /** `t` is the tally of what `p` has shown. */
  ghost predicate WithinLimits(p: Progress, t: Tally, limits: Limits) {
    && t.opens + (if p.phase.Waiting? then 1 else 0) <= 1 + p.reconnects
    && (p.reconnects > 0 ==> p.reconnects <= limits.maxReconnects)
    && t.polls == p.polls
    && (p.polls > 0 ==> p.polls <= limits.maxPolls)
    && (p.phase.PollScheduled? ==> p.polls < limits.maxPolls)
  }

  lemma RetryCounts(p: Progress, limits: Limits)
    ensures Count(Retry(p, limits).log) == Count(p.log)
  {
    var q := Drop(p).(live := false);
    assert Count(q.log) == Count(p.log);
    assert Count(Show(q, Offline).log) == Count(q.log) && Count(Show(q, Connecting).log) == Count(q.log);
  }

  lemma ConnectCounts(p: Progress, visible: bool, opens: bool, limits: Limits)
    ensures Count(Connect(p, visible, opens, limits).log)
      == if visible && opens then AddTo(Count(p.log), Opened(0)) else Count(p.log)
  {
    var q := Show(p, Connecting);
    assert Count(q.log) == Count(p.log);
    RetryCounts(q, limits);
  }

  lemma AcceptCounts(p: Progress, e: Event)
    ensures Count(Accept(p, e).log) == Count(p.log)
  {
    if Terminal(e) {
      var q := Show(p.(terminal := true, live := false), Idle);
      assert Count(After(q.log, Delivered(p.generation, e))) == Count(q.log) == Count(p.log);
    }
  }

  lemma StepCounts(p: Progress, i: Input, limits: Limits)
    ensures Count(Next(p, i, limits).log) ==
      if i.ReconnectFires? && p.phase.Waiting? && i.visible && i.opens then AddTo(Count(p.log), Opened(0))
      else if i.FallbackFires? && p.phase.PollScheduled? && i.visible then AddTo(Count(p.log), Polled)
      else Count(p.log)
  {
    match i
    case ReconnectFires(visible, opens) => ConnectCounts(p.(phase := Quiet), visible, opens, limits);
    case ConnectionTimesOut => RetryCounts(p, limits);
    case SourceFails(_) => RetryCounts(p, limits);
    case MessageArrives(_, e) =>
      if e.Some? {
        AcceptCounts(p, e.value);
      }
    case _ =>
  }

  lemma StepWithinLimits(p: Progress, t: Tally, i: Input, limits: Limits)
    requires WithinLimits(p, t, limits)
    ensures WithinLimits(Next(p, i, limits),
      if i.ReconnectFires? && p.phase.Waiting? && i.visible && i.opens then AddTo(t, Opened(0))
      else if i.FallbackFires? && p.phase.PollScheduled? && i.visible then AddTo(t, Polled)
      else t, limits)
  {
  }

  /** In every run at most `maxReconnects` reconnects follow the first attempt and at most
      `maxPolls` polls are sent, whatever the server does. */
  lemma {:induction false} ReconnectsAndPollsAreBounded(inputs: seq<Input>, limits: Limits)
    ensures var p := Run(inputs, limits);
      && Count(p.log).opens <= 1 + (if limits.maxReconnects > 0 then limits.maxReconnects else 0)
      && Count(p.log).polls <= if limits.maxPolls > 0 then limits.maxPolls else 0
    ensures WithinLimits(Run(inputs, limits), Count(Run(inputs, limits).log), limits)
  {
    if inputs != [] {
      var before, i := Run(inputs[..|inputs| - 1], limits), inputs[|inputs| - 1];
      ReconnectsAndPollsAreBounded(inputs[..|inputs| - 1], limits);
      StepCounts(before, i, limits);
      StepWithinLimits(before, Count(before.log), i, limits);
    }
  }

  /** Once stopped, the controller is silent whatever still arrives. */
  lemma StoppedIsSilent(inputs: seq<Input>, i: Input, limits: Limits)
    requires Run(inputs, limits).stopped
    ensures Next(Run(inputs, limits), i, limits).log == Run(inputs, limits).log
    ensures Next(Run(inputs, limits), i, limits).stopped
  {
    EveryRunFits(inputs, limits);
  }
}
