/**
 The client runtime (slt-client/src/runtime/mod.rs, slt-client/src/tun/mod.rs): the session loop, the
 supervisor that races it against the two TUN tasks, and the lifecycle events both emit.

 A step is one thing that can happen: the environment cancels or a TUN task ends, the session loop
 gets an answer it waits for, or the supervisor goes on. The loop and the supervisor are one task, so
 a result of the loop is picked up at once.
 */
module ClientRuntime {
  import opened Bytes

  datatype TunTask = Reader | Writer

  /** How a task ended: returned, failed, panicked or was aborted. */
  datatype Outcome = Returned | Failed | Panicked | Aborted

  datatype RuntimeError =
    | Connect
    | Session
    | TunEnded(task: TunTask, outcome: Outcome)
    | ChannelClosed(task: TunTask)
    | FaultSignalled

  type Ending = Result<(), RuntimeError>

  datatype Event =
    | Starting
    | TunReady
    | Connecting(attempt: nat)
    | ReconnectFailed(attempt: nat)
    | ReconnectScheduled(attempt: nat)
    | NetworkChanged
    | Progress
    | Stopping
    | Stopped
    | Error

  /** A join handle: still held, the task's outcome once there is one, and how often it was joined. */
  datatype Handle = Handle(held: bool, outcome: Option<Outcome>, joins: nat)

  datatype Loop = AtTop | InConnect | InSession | Sleeping | Left(result: Ending)

  datatype Supervisor =
    | Racing
    | DrainCancelled
    | DrainFault(error: RuntimeError)
    | Resolving(result: Ending)
    | Joining(result: Ending)
    | Ended(result: Ending)

  datatype Client = Client(
    cancel: bool,
    tunFault: bool,
    attempt: nat,
    loop: Loop,
    sup: Supervisor,
    reader: Handle,
    writer: Handle,
    expectationFailed: bool,
    events: seq<Event>)

  const RUNNING: Handle := Handle(true, None, 0)

  const BEGIN: Client := Client(false, false, 0, AtTop, Racing, RUNNING, RUNNING, false, [Starting, TunReady])

  datatype SessionExit = Shutdown | TunClosed(task: TunTask) | TunFault | Fatal | Retry | RetryNow

  datatype Step =
    | Cancel
    | TaskEnds(task: TunTask, outcome: Outcome)
    | Attempt
    | ConnectFault
    | Connected
    | ConnectFails(retriable: bool)
    | ConnectCommand(stop: bool)
    | Works
    | SessionEnds(exit: SessionExit)
    | Wakes(stop: bool, changed: bool)
    | TunExit(task: TunTask)
    | Resolve
    | Join(task: TunTask)
    | Finish

  function HandleOf(s: Client, task: TunTask): Handle {
    if task.Reader? then s.reader else s.writer
  }

  function WithHandle(s: Client, task: TunTask, h: Handle): Client {
    if task.Reader? then s.(reader := h) else s.(writer := h)
  }

  predicate LoopLives(s: Client) {
    s.sup.Racing? || s.sup.DrainCancelled? || s.sup.DrainFault?
  }

  /** The loop is polled only while the supervisor waits for it; a select looks at the fault signal first. */
  predicate Enabled(s: Client, step: Step) {
    !s.expectationFailed &&
    match step
    case Cancel => true
    case TaskEnds(task, _) => HandleOf(s, task).outcome.None?
    case Attempt => LoopLives(s) && s.loop.AtTop?
    case ConnectFault => LoopLives(s) && s.loop.InConnect? && s.tunFault
    case Connected => LoopLives(s) && s.loop.InConnect? && !s.tunFault
    case ConnectFails(_) => LoopLives(s) && s.loop.InConnect?
    case ConnectCommand(_) => LoopLives(s) && s.loop.InConnect? && !s.tunFault
    case Works => LoopLives(s) && (s.loop.InConnect? || s.loop.InSession?)
    case SessionEnds(exit) => LoopLives(s) && s.loop.InSession? && (exit.TunFault? ==> s.tunFault)
    case Wakes(_, _) => LoopLives(s) && s.loop.Sleeping?
    case TunExit(task) => s.sup.Racing? && HandleOf(s, task).outcome.Some?
    case Resolve =>
      && s.sup.Resolving?
      && (s.sup.result.Err? && s.sup.result.error.ChannelClosed? ==> HandleOf(s, s.sup.result.error.task).outcome.Some?)
    case Join(task) =>
      s.sup.Joining? && HandleOf(s, task).held && HandleOf(s, task).outcome.Some? && (task.Writer? ==> !s.reader.held)
    case Finish => s.sup.Joining? && !s.reader.held && !s.writer.held
  }

  function Emit(s: Client, e: Event): Client {
    s.(events := s.events + [e])
  }

  /** The session loop returns, and the supervisor takes its result. */
  function Return(s: Client, result: Ending): Client {
    s.(loop := Left(result),
       sup := if s.sup.DrainFault? then Resolving(Err(s.sup.error)) else Resolving(result))
  }

  /** The announced number wraps where the counter saturates. */
  function Announced(attempt: nat): (next: nat)
    ensures attempt < U64_MAX ==> next == attempt + 1
    ensures attempt == U64_MAX ==> next == 0
  {
    (attempt + 1) % (U64_MAX + 1)
  }

  function Schedule(s: Client): Client {
    Emit(s.(loop := Sleeping), ReconnectScheduled(Announced(s.attempt)))
  }

  function Await(s: Client, task: TunTask): Client {
    var h := HandleOf(s, task);
    if h.held then WithHandle(s, task, h.(held := false, joins := h.joins + 1)) else s.(expectationFailed := true)
  }

  function Next(s: Client, step: Step): Client
    requires Enabled(s, step)
  {
    match step
    case Cancel => s.(cancel := true)
    case TaskEnds(task, outcome) => WithHandle(s, task, HandleOf(s, task).(outcome := Some(outcome)))
    case Attempt =>
      if s.tunFault then Return(s, Err(FaultSignalled))
      else if s.cancel then Return(s, Ok(()))
      else
        var n := Min(s.attempt + 1, U64_MAX);
        Emit(s.(attempt := n, loop := InConnect), Connecting(n))
    case ConnectFault => Return(s, Err(FaultSignalled))
    case Connected => s.(loop := InSession)
    case ConnectFails(retriable) =>
      if s.tunFault then Return(s, Err(FaultSignalled))
      else if s.cancel then Return(s, Ok(()))
      else if !retriable then Return(s, Err(Connect))
      else Schedule(Emit(s, ReconnectFailed(s.attempt)))
    case ConnectCommand(stop) =>
      if stop then Return(s.(cancel := true), Ok(())) else Emit(s.(loop := AtTop), NetworkChanged)
    case Works => Emit(s, Progress)
    case SessionEnds(exit) =>
      if s.cancel then Return(s, Ok(()))
      else (match exit
            case Shutdown => Return(s, Ok(()))
            case TunClosed(task) => Return(s, Err(ChannelClosed(task)))
            case TunFault => Return(s, Err(FaultSignalled))
            case Fatal => Return(s, Err(Session))
            case Retry => Schedule(s)
            case RetryNow => s.(loop := AtTop))
    case Wakes(stop, changed) =>
      var awake := s.(loop := AtTop, cancel := s.cancel || stop);
      if changed && !stop then Emit(awake, NetworkChanged) else awake
    case TunExit(task) =>
      if !s.reader.held || !s.writer.held then s.(expectationFailed := true)
      else
        var joined := Await(s, task);
        if s.cancel then joined.(sup := DrainCancelled)
        else joined.(tunFault := true, sup := DrainFault(TunEnded(task, HandleOf(s, task).outcome.value)))
    case Resolve =>
      if s.sup.result.Err? && s.sup.result.error.ChannelClosed? then
        var task := s.sup.result.error.task;
        Await(s, task).(cancel := true, sup := Joining(Err(TunEnded(task, HandleOf(s, task).outcome.value))))
      else s.(cancel := true, sup := Joining(s.sup.result))
    case Join(task) => Await(s, task)
    case Finish =>
      var over := s.(sup := Ended(s.sup.result));
      if s.sup.result.Ok? then Emit(Emit(over, Stopping), Stopped) else Emit(over, Error)
  }

  predicate IsRun(s: Client, steps: seq<Step>)
    decreases |steps|
  {
    steps == [] || (Enabled(s, steps[0]) && IsRun(Next(s, steps[0]), steps[1..]))
  }

  function After(s: Client, steps: seq<Step>): Client
    requires IsRun(s, steps)
    decreases |steps|
  {
    if steps == [] then s else After(Next(s, steps[0]), steps[1..])
  }

  // ----- TUN handles and the final error

  ghost predicate HandleOk(h: Handle) {
    h.joins == (if h.held then 0 else 1) && (h.held || h.outcome.Some?)
  }

  predicate Internal(e: RuntimeError) {
    e.ChannelClosed? || e.FaultSignalled?
  }

  /** What the supervisor's state says about the handles and the result it carries. */
  ghost predicate SupOk(s: Client) {
    match s.sup
    case Racing => s.reader.held && s.writer.held && !s.tunFault
    case DrainCancelled => s.cancel && !s.tunFault
    case DrainFault(error) => error.TunEnded?
    case Resolving(result) =>
      result.Err? && Internal(result.error) ==> result.error.ChannelClosed? && s.reader.held && s.writer.held
    case Joining(result) => result.Err? ==> !Internal(result.error)
    case Ended(result) => (result.Err? ==> !Internal(result.error)) && !s.reader.held && !s.writer.held
  }

  ghost predicate Inv(s: Client) {
    HandleOk(s.reader) && HandleOk(s.writer) && !s.expectationFailed && SupOk(s)
  }

  lemma SupervisorKeeps(s: Client, step: Step)
    requires Inv(s) && Enabled(s, step) && (step.TunExit? || step.Resolve? || step.Join? || step.Finish?)
    ensures Inv(Next(s, step))
  {
    match step
    case TunExit(_) =>
    case Resolve =>
    case Join(_) =>
    case Finish =>
  }

  lemma StepKeeps(s: Client, step: Step)
    requires Inv(s) && Enabled(s, step)
    ensures Inv(Next(s, step))
  {
    match step
    case TunExit(_) => SupervisorKeeps(s, step);
    case Resolve => SupervisorKeeps(s, step);
    case Join(_) => SupervisorKeeps(s, step);
    case Finish => SupervisorKeeps(s, step);
    case SessionEnds(_) =>
    case _ =>
  }

  lemma {:induction false} RunKeeps(s: Client, steps: seq<Step>)
    requires Inv(s) && IsRun(s, steps)
    ensures Inv(After(s, steps))
    decreases |steps|
  {
    hide Inv, Next, Enabled;
    if steps != [] {
      StepKeeps(s, steps[0]);
      RunKeeps(Next(s, steps[0]), steps[1..]);
    }
  }

  /**
   In every run no expectation on a TUN handle fails, no handle is joined twice, and by the end each
   has been joined once after its task ended; the final error is never one of the two internal ones.
   */
  lemma HandlesJoinedOnce(steps: seq<Step>)
    requires IsRun(BEGIN, steps)
    ensures var s := After(BEGIN, steps);
            && !s.expectationFailed
            && s.reader.joins <= 1 && s.writer.joins <= 1
            && (s.sup.Ended? ==>
                  && s.reader.joins == s.writer.joins == 1 && s.reader.outcome.Some? && s.writer.outcome.Some?
                  && (s.sup.result.Err? ==> !s.sup.result.error.ChannelClosed? && !s.sup.result.error.FaultSignalled?))
  {
    RunKeeps(BEGIN, steps);
  }

  // ----- Clean shutdown

  /** The result is settled as success, or will be. */
  ghost predicate Clean(s: Client) {
    s.cancel &&
    match s.sup
    case Racing => false
    case DrainCancelled => !s.tunFault
    case DrainFault(_) => false
    case Resolving(result) => result.Ok?
    case Joining(result) => result.Ok?
    case Ended(result) => result.Ok?
  }

  lemma CancelStep(s: Client, step: Step)
    requires Inv(s) && Enabled(s, step) && s.cancel && (s.sup.Racing? || Clean(s))
    ensures var s' := Next(s, step); s'.cancel && (s'.sup.Racing? || Clean(s'))
  {
  }

  /** A cancellation that comes before any TUN task was seen to end makes the run end without an error. */
  lemma {:induction false} CancelEndsClean(s: Client, steps: seq<Step>)
    requires Inv(s) && IsRun(s, steps) && s.cancel && (s.sup.Racing? || Clean(s))
    ensures var s' := After(s, steps); s'.sup.Ended? ==> s'.sup.result.Ok?
    decreases |steps|
  {
    hide Inv, Next, Enabled;
    if steps != [] {
      StepKeeps(s, steps[0]);
      CancelStep(s, steps[0]);
      CancelEndsClean(Next(s, steps[0]), steps[1..]);
    }
  }

  // ----- The event stream

  /** How far a stream of events has come: `Live` counts attempts and keeps the announced next one. */
  datatype Stage = Fresh | Begun | Live(attempts: nat, announced: Option<nat>) | Closing | Over | Bad

  function Read(p: Stage, e: Event): Stage {
    match e
    case Starting => if p.Fresh? then Begun else Bad
    case TunReady => if p.Begun? then Live(0, None) else Bad
    case Connecting(n) =>
      var asAnnounced := p.Live? && p.announced.Some? && p.attempts < U64_MAX ==> p.announced.value == n;
      if p.Live? && n == Min(p.attempts + 1, U64_MAX) && asAnnounced then Live(p.attempts + 1, None) else Bad
    case ReconnectFailed(n) =>
      if p.Live? && p.announced.None? && 0 < p.attempts && n == Min(p.attempts, U64_MAX) then p else Bad
    case ReconnectScheduled(n) =>
      if p.Live? && p.announced.None? && 0 < p.attempts then p.(announced := Some(n)) else Bad
    case NetworkChanged => if p.Live? && 0 < p.attempts then p else Bad
    case Progress => if p.Live? && p.announced.None? && 0 < p.attempts then p else Bad
    case Stopping => if p.Live? then Closing else Bad
    case Stopped => if p.Closing? then Over else Bad
    case Error => if p.Live? then Over else Bad
  }

  function ReadAll(events: seq<Event>): Stage {
    if events == [] then Fresh else Read(ReadAll(events[..|events| - 1]), events[|events| - 1])
  }

  lemma ReadMore(events: seq<Event>, e: Event)
    ensures ReadAll(events + [e]) == Read(ReadAll(events), e)
  {
    assert (events + [e])[..|events|] == events;
  }

  /** The stream so far is well formed and matches where the runtime is. */
  ghost predicate EventsOk(s: Client) {
    var p := ReadAll(s.events);
    if s.sup.Ended? then
      && p.Over? && s.events != []
      && (s.events[|s.events| - 1].Stopped? <==> s.sup.result.Ok?)
    else
      && p.Live? && s.attempt == Min(p.attempts, U64_MAX)
      && (s.loop.InConnect? || s.loop.InSession? ==> 0 < p.attempts && p.announced.None?)
      && (s.loop.Sleeping? ==> 0 < p.attempts)
      && (p.announced.Some? ==> 0 < p.attempts && (p.attempts < U64_MAX ==> p.announced.value == p.attempts + 1))
  }

  lemma EventStep(s: Client, step: Step)
    requires Inv(s) && EventsOk(s) && Enabled(s, step)
    ensures EventsOk(Next(s, step))
  {
    hide ReadAll, HandleOk, SupOk;
    match step
    case Attempt => EventAttempt(s);
    case ConnectFails(retriable) => EventConnectFails(s, retriable);
    case ConnectCommand(_) => ReadMore(s.events, NetworkChanged);
    case Works => ReadMore(s.events, Progress);
    case SessionEnds(exit) => EventSessionEnds(s, exit);
    case Wakes(_, _) => ReadMore(s.events, NetworkChanged);
    case Finish => EventFinish(s);
    case _ => EventQuiet(s, step);
  }

  /** Steps that emit nothing. */
  lemma EventQuiet(s: Client, step: Step)
    requires EventsOk(s) && Enabled(s, step)
    requires step.Cancel? || step.TaskEnds? || step.ConnectFault? || step.Connected?
          || step.TunExit? || step.Resolve? || step.Join?
    ensures EventsOk(Next(s, step))
  {
    hide ReadAll;
  }

  lemma EventAttempt(s: Client)
    requires EventsOk(s) && Enabled(s, Attempt)
    ensures EventsOk(Next(s, Attempt))
  {
    hide ReadAll;
    ReadMore(s.events, Connecting(Min(s.attempt + 1, U64_MAX)));
  }

  lemma EventFinish(s: Client)
    requires EventsOk(s) && Enabled(s, Finish)
    ensures EventsOk(Next(s, Finish))
  {
    hide ReadAll;
    ReadMore(s.events, Stopping);
    ReadMore(s.events + [Stopping], Stopped);
    ReadMore(s.events, Error);
  }

  lemma EventConnectFails(s: Client, retriable: bool)
    requires EventsOk(s) && Enabled(s, ConnectFails(retriable))
    ensures EventsOk(Next(s, ConnectFails(retriable)))
  {
    hide ReadAll, Announced;
    AnnouncedNext(s.attempt);
    ReadMore(s.events, ReconnectFailed(s.attempt));
    ReadMore(s.events + [ReconnectFailed(s.attempt)], ReconnectScheduled(Announced(s.attempt)));
  }

  lemma EventSessionEnds(s: Client, exit: SessionExit)
    requires EventsOk(s) && Enabled(s, SessionEnds(exit))
    ensures EventsOk(Next(s, SessionEnds(exit)))
  {
    hide ReadAll, Announced;
    AnnouncedNext(s.attempt);
    ReadMore(s.events, ReconnectScheduled(Announced(s.attempt)));
  }

  lemma AnnouncedNext(attempt: nat)
    ensures attempt < U64_MAX ==> Announced(attempt) == attempt + 1
  {
  }

  lemma {:induction false} EventRun(s: Client, steps: seq<Step>)
    requires Inv(s) && EventsOk(s) && IsRun(s, steps)
    ensures EventsOk(After(s, steps))
    decreases |steps|
  {
    hide Inv, EventsOk, Next, Enabled;
    if steps != [] {
      StepKeeps(s, steps[0]);
      EventStep(s, steps[0]);
      EventRun(Next(s, steps[0]), steps[1..]);
    }
  }

  lemma BeginsOk()
    ensures Inv(BEGIN) && EventsOk(BEGIN)
  {
    assert BEGIN.events == ([] + [Starting]) + [TunReady];
    ReadMore([], Starting);
    ReadMore([] + [Starting], TunReady);
  }

  /**
   In every run the events form one well-formed stream: it starts with `Starting`, numbers its
   attempts, announces the number of the next one, and ends, exactly when the runtime has ended, with
   one terminal event after which there is nothing.
   */
  lemma EventStreamWellFormed(steps: seq<Step>)
    requires IsRun(BEGIN, steps)
    ensures var s := After(BEGIN, steps);
            && !ReadAll(s.events).Bad?
            && (s.sup.Ended? <==> ReadAll(s.events).Over?)
            && (s.sup.Ended? ==>
                  s.events != [] && s.events[|s.events| - 1] == if s.sup.result.Ok? then Stopped else Error)
  {
    BeginsOk();
    EventRun(BEGIN, steps);
    var s := After(BEGIN, steps);
    if s.sup.Ended? {
      OverEndsTerminal(s.events);
    }
  }

  lemma OverEndsTerminal(events: seq<Event>)
    requires ReadAll(events).Over?
    ensures events != [] && (events[|events| - 1].Stopped? || events[|events| - 1].Error?)
  {
  }

  // ----- What a well-formed stream is

  /** The attempt numbers of a stream. */
  function Attempts(events: seq<Event>): seq<nat> {
    if events == [] then []
    else
      var last := events[|events| - 1];
      Attempts(events[..|events| - 1]) + if last.Connecting? then [last.attempt] else []
  }

  predicate Terminal(e: Event) {
    e.Stopped? || e.Error?
  }

  /** Attempts count up from one, the first event is `Starting`, and a terminal event can only be the last. */
  lemma {:induction false} WellFormedMeans(events: seq<Event>)
    requires !ReadAll(events).Bad?
    ensures forall i :: 0 <= i < |Attempts(events)| ==> Attempts(events)[i] == Min(i + 1, U64_MAX)
    ensures ReadAll(events).Live? ==> |Attempts(events)| == ReadAll(events).attempts
    ensures !(ReadAll(events).Live? || ReadAll(events).Closing? || ReadAll(events).Over?) ==> Attempts(events) == []
    ensures events != [] ==> events[0].Starting?
    ensures forall i :: 0 <= i < |events| - 1 ==> !Terminal(events[i]) && (0 < i ==> !events[i].Starting?)
    ensures ReadAll(events).Over? <==> events != [] && Terminal(events[|events| - 1])
  {
    if events != [] {
      var init := events[..|events| - 1];
      WellFormedMeans(init);
      assert forall i :: 0 <= i < |init| ==> init[i] == events[i];
    }
  }

  lemma {:induction false} PrefixOk(events: seq<Event>, k: nat)
    requires k <= |events| && !ReadAll(events).Bad?
    ensures !ReadAll(events[..k]).Bad?
  {
    if k < |events| {
      var init := events[..|events| - 1];
      PrefixOk(init, k);
      assert init[..k] == events[..k];
    } else {
      assert events[..k] == events;
    }
  }

  /** From an announcement on, and until the next attempt, the stream is waiting for that attempt or closing. */
  lemma {:induction false} StillAnnounced(events: seq<Event>, i: nat, k: nat)
    requires i < k <= |events| && !ReadAll(events).Bad? && events[i].ReconnectScheduled?
    requires forall j :: i < j < k ==> !events[j].Connecting?
    ensures var p := ReadAll(events[..k]);
            var q := ReadAll(events[..i]);
            || (p.Live? && q.Live? && p == q.(announced := Some(events[i].attempt)))
            || p.Closing? || p.Over?
    decreases k
  {
    hide ReadAll;
    PrefixOk(events, k);
    ReadNext(events, k - 1);
    if k > i + 1 {
      StillAnnounced(events, i, k - 1);
    }
  }

  /** Between an announcement and the next attempt the stream has only network changes, or ends. */
  lemma QuietWhileWaiting(events: seq<Event>, i: nat, k: nat)
    requires i < k < |events| && !ReadAll(events).Bad? && events[i].ReconnectScheduled?
    requires forall j :: i < j <= k ==> !events[j].Connecting?
    ensures events[k].NetworkChanged? || events[k].Stopping? || Terminal(events[k])
  {
    hide ReadAll;
    StillAnnounced(events, i, k);
    ReadNext(events, k);
    PrefixOk(events, k + 1);
  }

  /** The announced number of a scheduled reconnect is the number of the next attempt, below the 64-bit limit. */
  lemma AnnouncedIsNext(events: seq<Event>, i: nat, j: nat)
    requires i < j < |events| && !ReadAll(events).Bad?
    requires events[i].ReconnectScheduled? && events[j].Connecting? && forall k :: i < k < j ==> !events[k].Connecting?
    ensures |Attempts(events[..i])| < U64_MAX ==> events[j].attempt == events[i].attempt == |Attempts(events[..i])| + 1
  {
    hide ReadAll, Attempts;
    StillAnnounced(events, i, j);
    ReadNext(events, j);
    ReadNext(events, i);
    PrefixOk(events, j + 1);
    PrefixOk(events, i + 1);
    PrefixOk(events, i);
    WellFormedMeans(events[..i]);
  }

  /** Nothing but `Starting`, `TunReady` and the end of the stream comes before the first attempt. */
  lemma NothingBeforeTheFirstAttempt(events: seq<Event>, i: nat)
    requires i < |events| && !ReadAll(events).Bad? && Attempts(events[..i]) == []
    ensures var e := events[i]; e.Starting? || e.TunReady? || e.Connecting? || e.Stopping? || Terminal(e)
  {
    hide ReadAll, Attempts;
    ReadNext(events, i);
    PrefixOk(events, i + 1);
    PrefixOk(events, i);
    WellFormedMeans(events[..i]);
  }

  lemma ReadNext(events: seq<Event>, k: nat)
    requires k < |events|
    ensures ReadAll(events[..k + 1]) == Read(ReadAll(events[..k]), events[k])
  {
    assert events[..k + 1] == events[..k] + [events[k]];
    ReadMore(events[..k], events[k]);
  }

  // ----- Fatal failures

  lemma {:induction false} NoAttemptAfterTheLoop(s: Client, steps: seq<Step>)
    requires !LoopLives(s) && IsRun(s, steps)
    ensures Attempts(After(s, steps).events) == Attempts(s.events)
    decreases |steps|
  {
    hide IsRun;
    if steps != [] {
      NoAttemptStep(s, steps);
      NoAttemptAfterTheLoop(Next(s, steps[0]), steps[1..]);
    }
  }

  lemma NoAttemptStep(s: Client, steps: seq<Step>)
    requires !LoopLives(s) && IsRun(s, steps) && steps != []
    ensures Enabled(s, steps[0]) && IsRun(Next(s, steps[0]), steps[1..])
    ensures var s' := Next(s, steps[0]); !LoopLives(s') && Attempts(s'.events) == Attempts(s.events)
  {
    hide Attempts;
    AttemptsMore(s.events, Stopping);
    AttemptsMore(s.events + [Stopping], Stopped);
    AttemptsMore(s.events, Error);
  }

  lemma AttemptsMore(events: seq<Event>, e: Event)
    requires !e.Connecting?
    ensures Attempts(events + [e]) == Attempts(events)
  {
    assert (events + [e])[..|events|] == events;
  }

  /** The result is settled, and is not one that still has to be resolved. */
  predicate SettledOn(s: Client, result: Ending) {
    && (s.sup.Resolving? || s.sup.Joining? || s.sup.Ended?) && s.sup.result == result
    && (result.Err? ==> !Internal(result.error))
  }

  lemma {:induction false} ResultIsFinal(s: Client, result: Ending, steps: seq<Step>)
    requires SettledOn(s, result) && IsRun(s, steps)
    ensures SettledOn(After(s, steps), result)
    decreases |steps|
  {
    if steps != [] {
      ResultIsFinal(Next(s, steps[0]), result, steps[1..]);
    }
  }

  /** A connect error that is not worth retrying, or a session exit that is fatal. */
  predicate IsFatal(step: Step) {
    step == ConnectFails(false) || step == SessionEnds(Fatal)
  }

  /**
   After a fatal connect error or session exit no run makes another attempt; and unless the runtime was
   already stopping, or a TUN task had failed, it can only end with that error.
   */
  lemma FatalIsFinal(before: seq<Step>, fatal: Step, after: seq<Step>)
    requires IsRun(BEGIN, before) && IsFatal(fatal) && Enabled(After(BEGIN, before), fatal)
    requires IsRun(Next(After(BEGIN, before), fatal), after)
    ensures var s := After(BEGIN, before);
            var s' := After(Next(s, fatal), after);
            && Attempts(s'.events) == Attempts(s.events)
            && (s.sup.Racing? && !s.cancel && s'.sup.Ended? ==>
                  s'.sup.result == Err(if fatal.ConnectFails? then Connect else Session))
  {
    var s := After(BEGIN, before);
    RunKeeps(BEGIN, before);
    NoAttemptAfterTheLoop(Next(s, fatal), after);
    if s.sup.Racing? && !s.cancel {
      ResultIsFinal(Next(s, fatal), Err(if fatal.ConnectFails? then Connect else Session), after);
    }
  }

  // ----- Reconnecting

  /** Steps of a client whose connections come and go: nothing stops it and nothing is fatal. */
  predicate Routine(step: Step) {
    match step
    case TaskEnds(_, _) => true
    case Attempt => true
    case Connected => true
    case ConnectFails(retriable) => retriable
    case ConnectCommand(stop) => !stop
    case Works => true
    case SessionEnds(exit) => exit.Retry? || exit.RetryNow?
    case Wakes(stop, _) => !stop
    case _ => false
  }

  ghost predicate Trying(s: Client) {
    s.sup.Racing? && !s.cancel && !s.tunFault && !s.loop.Left?
  }

  function FailedEvents(events: seq<Event>): nat {
    if events == [] then 0
    else FailedEvents(events[..|events| - 1]) + if events[|events| - 1].ReconnectFailed? then 1 else 0
  }

  function ScheduledEvents(events: seq<Event>): nat {
    if events == [] then 0
    else ScheduledEvents(events[..|events| - 1]) + if events[|events| - 1].ReconnectScheduled? then 1 else 0
  }

  lemma CountEvent(events: seq<Event>, e: Event)
    ensures FailedEvents(events + [e]) == FailedEvents(events) + if e.ReconnectFailed? then 1 else 0
    ensures ScheduledEvents(events + [e]) == ScheduledEvents(events) + if e.ReconnectScheduled? then 1 else 0
  {
    assert (events + [e])[..|events|] == events;
  }

  function Failures(steps: seq<Step>): nat {
    if steps == [] then 0 else (if steps[0] == ConnectFails(true) then 1 else 0) + Failures(steps[1..])
  }

  function Reschedules(steps: seq<Step>): nat {
    if steps == [] then 0
    else (if steps[0] == ConnectFails(true) || steps[0] == SessionEnds(Retry) then 1 else 0) + Reschedules(steps[1..])
  }

  lemma RoutineStep(s: Client, step: Step)
    requires Trying(s) && Enabled(s, step) && Routine(step)
    ensures var s' := Next(s, step);
            && Trying(s')
            && FailedEvents(s'.events) == FailedEvents(s.events) + Failures([step])
            && ScheduledEvents(s'.events) == ScheduledEvents(s.events) + Reschedules([step])
  {
    hide FailedEvents, ScheduledEvents;
    OneStep(step);
    var scheduled := ReconnectScheduled(Announced(s.attempt));
    match step
    case Attempt => CountEvent(s.events, Connecting(Min(s.attempt + 1, U64_MAX)));
    case ConnectFails(_) =>
      CountEvent(s.events, ReconnectFailed(s.attempt));
      CountEvent(s.events + [ReconnectFailed(s.attempt)], scheduled);
    case ConnectCommand(_) => CountEvent(s.events, NetworkChanged);
    case Works => CountEvent(s.events, Progress);
    case SessionEnds(_) => CountEvent(s.events, scheduled);
    case Wakes(_, _) => CountEvent(s.events, NetworkChanged);
    case _ =>
  }

  lemma OneStep(step: Step)
    ensures Failures([step]) == if step == ConnectFails(true) then 1 else 0
    ensures Reschedules([step]) == if step == ConnectFails(true) || step == SessionEnds(Retry) then 1 else 0
  {
    assert [step][1..] == [];
  }

  lemma {:induction false} TryingRun(s: Client, steps: seq<Step>)
    requires Trying(s) && IsRun(s, steps) && forall i :: 0 <= i < |steps| ==> Routine(steps[i])
    ensures var s' := After(s, steps);
            && Trying(s')
            && FailedEvents(s'.events) == FailedEvents(s.events) + Failures(steps)
            && ScheduledEvents(s'.events) == ScheduledEvents(s.events) + Reschedules(steps)
    decreases |steps|
  {
    hide Trying, Next, Enabled, FailedEvents, ScheduledEvents;
    if steps != [] {
      RoutineStep(s, steps[0]);
      OneStep(steps[0]);
      TryingRun(Next(s, steps[0]), steps[1..]);
    }
  }

  /**
   However often connecting fails, sessions end and the network changes, the client goes on trying, reports
   each failed attempt once, and schedules a reconnect for each and for each session that ended.
   */
  lemma KeepsTrying(steps: seq<Step>)
    requires IsRun(BEGIN, steps) && forall i :: 0 <= i < |steps| ==> Routine(steps[i])
    ensures var s := After(BEGIN, steps);
            && s.sup.Racing? && LoopLives(s) && !s.loop.Left?
            && FailedEvents(s.events) == Failures(steps) && ScheduledEvents(s.events) == Reschedules(steps)
  {
    hide Next, Enabled, After, IsRun, Routine, Failures, Reschedules, FailedEvents, ScheduledEvents;
    TryingRun(BEGIN, steps);
    NothingFailedYet();
  }

  lemma NothingFailedYet()
    ensures FailedEvents(BEGIN.events) == 0 && ScheduledEvents(BEGIN.events) == 0
  {
    assert BEGIN.events == ([] + [Starting]) + [TunReady];
    CountEvent([], Starting);
    CountEvent([] + [Starting], TunReady);
  }

  /** What a client that is trying does next: it waits, if it has to, and makes its next attempt. */
  lemma TriesAgain(s: Client)
    requires Trying(s) && !s.expectationFailed
    ensures s.loop.InConnect? ==>
      var s1 := Next(s, ConnectFails(true));
      && Enabled(s1, Wakes(false, false)) && Enabled(Next(s1, Wakes(false, false)), Attempt)
      && Next(Next(s1, Wakes(false, false)), Attempt).events ==
           s.events + [ReconnectFailed(s.attempt)] + [ReconnectScheduled(Announced(s.attempt))]
           + [Connecting(Min(s.attempt + 1, U64_MAX))]
    ensures s.loop.InSession? ==>
      var s1 := Next(s, SessionEnds(Retry));
      && Enabled(s1, Wakes(false, false)) && Enabled(Next(s1, Wakes(false, false)), Attempt)
      && Next(Next(s1, Wakes(false, false)), Attempt).events ==
           s.events + [ReconnectScheduled(Announced(s.attempt))] + [Connecting(Min(s.attempt + 1, U64_MAX))]
    ensures s.loop.InSession? ==>
      var s1 := Next(s, SessionEnds(RetryNow));
      Enabled(s1, Attempt) && Next(s1, Attempt).events == s.events + [Connecting(Min(s.attempt + 1, U64_MAX))]
    ensures s.loop.InConnect? ==>
      var s1 := Next(s, ConnectCommand(false));
      && Enabled(s1, Attempt)
      && Next(s1, Attempt).events == s.events + [NetworkChanged] + [Connecting(Min(s.attempt + 1, U64_MAX))]
    ensures s.loop.InConnect? ==> Enabled(s, Connected) && Next(s, Connected) == s.(loop := InSession)
  {
  }

  /** An attempt is one connect in progress; a waiting client wakes for it and says so if the network changed. */
  lemma OneAttemptAtATime(s: Client, changed: bool)
    requires Trying(s) && !s.expectationFailed
    ensures s.loop.AtTop? ==>
      var s' := Next(s, Attempt);
      Trying(s') && !Enabled(s', Attempt) && Enabled(s', Connected) && Enabled(s', ConnectFails(true))
    ensures s.loop.Sleeping? ==>
      var s' := Next(s, Wakes(false, changed));
      && Trying(s') && !Enabled(s', Wakes(false, changed)) && Enabled(s', Attempt)
      && s'.events == s.events + if changed then [NetworkChanged] else []
  {
  }

  // ----- Stopping

  predicate LoopStep(step: Step) {
    && (step.Attempt? || step.ConnectFault? || step.Connected? || step.ConnectFails? || step.ConnectCommand?
        || step.SessionEnds? || step.Wakes?)
  }

  function LoopSteps(steps: seq<Step>): nat {
    if steps == [] then 0 else (if LoopStep(steps[0]) then 1 else 0) + LoopSteps(steps[1..])
  }

  /** How many steps a loop that has been told to stop can still make. */
  function StepsLeft(s: Client): nat {
    if !LoopLives(s) then 0
    else match s.loop
      case Left(_) => 0
      case AtTop => 1
      case Sleeping => 2
      case InConnect => if s.tunFault then 1 else 2
      case InSession => if s.cancel then 1 else 3
  }

  lemma StoppingStep(s: Client, step: Step)
    requires Enabled(s, step) && (s.tunFault || s.cancel)
    ensures var s' := Next(s, step);
            && (s'.tunFault || s'.cancel)
            && StepsLeft(s') + (if LoopStep(step) then 1 else 0) <= StepsLeft(s)
            && Attempts(s'.events) == Attempts(s.events)
  {
    hide Attempts;
    AttemptsStay(s, step);
    if !LoopStep(step) {
      StoppingOther(s, step);
    }
  }

  lemma StoppingOther(s: Client, step: Step)
    requires Enabled(s, step) && (s.tunFault || s.cancel) && !LoopStep(step)
    ensures StepsLeft(Next(s, step)) <= StepsLeft(s)
  {
  }

  lemma AttemptsStay(s: Client, step: Step)
    requires Enabled(s, step) && (s.tunFault || s.cancel)
    ensures Attempts(Next(s, step).events) == Attempts(s.events)
  {
    hide Attempts;
    match step
    case SessionEnds(_) => AttemptsMore(s.events, ReconnectScheduled(Announced(s.attempt)));
    case ConnectCommand(_) => AttemptsMore(s.events, NetworkChanged);
    case Works => AttemptsMore(s.events, Progress);
    case Wakes(_, _) => AttemptsMore(s.events, NetworkChanged);
    case Finish =>
      AttemptsMore(s.events, Stopping);
      AttemptsMore(s.events + [Stopping], Stopped);
      AttemptsMore(s.events, Error);
    case _ =>
  }

  /**
   Once cancelled, or once a TUN task has failed, no run makes another attempt, and the loop makes at most
   three more steps besides reporting progress.
   */
  lemma {:induction false} StopsWithinThreeSteps(s: Client, steps: seq<Step>)
    requires IsRun(s, steps) && (s.tunFault || s.cancel)
    ensures LoopSteps(steps) <= StepsLeft(s) <= 3
    ensures Attempts(After(s, steps).events) == Attempts(s.events)
    decreases |steps|
  {
    hide Next, Enabled, LoopStep, Attempts;
    if steps != [] {
      StoppingStep(s, steps[0]);
      StopsWithinThreeSteps(Next(s, steps[0]), steps[1..]);
    }
  }

  /** What a settled result becomes: a closed channel is explained by the outcome of its task. */
  function FinalResult(s: Client): Ending
    requires s.sup.Resolving? && s.reader.outcome.Some? && s.writer.outcome.Some?
  {
    if s.sup.result.Err? && s.sup.result.error.ChannelClosed? then
      Err(TunEnded(s.sup.result.error.task, HandleOf(s, s.sup.result.error.task).outcome.value))
    else s.sup.result
  }

  lemma ResolveJoins(s: Client)
    requires Inv(s) && s.sup.Resolving? && s.reader.outcome.Some? && s.writer.outcome.Some?
    ensures Enabled(s, Resolve)
    ensures var s' := Next(s, Resolve);
            && s'.cancel && s'.sup == Joining(FinalResult(s)) && Inv(s')
            && s'.reader.outcome == s.reader.outcome && s'.writer.outcome == s.writer.outcome
  {
    StepKeeps(s, Resolve);
  }

  lemma JoinsReader(s: Client) returns (steps: seq<Step>)
    requires Inv(s) && s.sup.Joining? && s.reader.outcome.Some?
    ensures |steps| <= 1 && IsRun(s, steps)
    ensures var s' := After(s, steps);
            Inv(s') && s'.sup == s.sup && !s'.reader.held && s'.writer == s.writer
  {
    if s.reader.held {
      StepKeeps(s, Join(Reader));
      steps := [Join(Reader)];
    } else {
      steps := [];
    }
  }

  lemma JoinsWriter(s: Client) returns (steps: seq<Step>)
    requires Inv(s) && s.sup.Joining? && !s.reader.held && s.writer.outcome.Some?
    ensures |steps| <= 1 && IsRun(s, steps)
    ensures var s' := After(s, steps);
            Inv(s') && s'.sup == s.sup && !s'.reader.held && !s'.writer.held
  {
    if s.writer.held {
      StepKeeps(s, Join(Writer));
      steps := [Join(Writer)];
    } else {
      steps := [];
    }
  }

  lemma {:induction false} RunAppend(s: Client, a: seq<Step>, b: seq<Step>)
    requires IsRun(s, a) && IsRun(After(s, a), b)
    ensures IsRun(s, a + b) && After(s, a + b) == After(After(s, a), b)
    decreases |a|
  {
    hide Next, Enabled;
    if a == [] {
      assert a + b == b;
    } else {
      assert (a + b)[1..] == a[1..] + b && (a + b)[0] == a[0];
      RunAppend(Next(s, a[0]), a[1..], b);
    }
  }

  lemma OneMore(s: Client, steps: seq<Step>, step: Step)
    requires IsRun(s, steps) && Enabled(After(s, steps), step)
    ensures IsRun(s, steps + [step]) && After(s, steps + [step]) == Next(After(s, steps), step)
  {
    hide Next, Enabled;
    assert [step][1..] == [];
    assert After(Next(After(s, steps), step), []) == Next(After(s, steps), step);
    RunAppend(s, steps, [step]);
  }

  /** A client whose loop has returned ends with its result as soon as both TUN tasks have ended. */
  lemma EndsOnceTasksEnd(before: seq<Step>) returns (steps: seq<Step>)
    requires IsRun(BEGIN, before) && After(BEGIN, before).sup.Resolving?
    requires After(BEGIN, before).reader.outcome.Some? && After(BEGIN, before).writer.outcome.Some?
    ensures |steps| <= 4 && IsRun(After(BEGIN, before), steps)
    ensures var s := After(BEGIN, before); After(s, steps).sup == Ended(FinalResult(s))
  {
    hide Inv, IsRun, After;
    var s := After(BEGIN, before);
    BeginsWell();
    RunKeeps(BEGIN, before);
    ResolveJoins(s);
    NoSteps(s);
    OneMore(s, [], Resolve);
    var s1 := Next(s, Resolve);
    var reader := JoinsReader(s1);
    RunAppend(s, [] + [Resolve], reader);
    var s2 := After(s1, reader);
    var writer := JoinsWriter(s2);
    RunAppend(s, [] + [Resolve] + reader, writer);
    var s3 := After(s2, writer);
    OneMore(s, [] + [Resolve] + reader + writer, Finish);
    steps := [] + [Resolve] + reader + writer + [Finish];
  }

  lemma BeginsWell()
    ensures Inv(BEGIN)
  {
  }

  lemma NoSteps(s: Client)
    ensures IsRun(s, []) && After(s, []) == s
  {
  }

  ghost predicate ToldToStop(s: Client) {
    s.sup.Joining? || s.sup.Ended? ==> s.cancel
  }

  lemma ToldStep(s: Client, step: Step)
    requires ToldToStop(s) && Enabled(s, step)
    ensures ToldToStop(Next(s, step))
  {
  }

  /** The TUN tasks have been told to stop before the supervisor waits for them. */
  lemma {:induction false} TasksToldToStop(s: Client, steps: seq<Step>)
    requires ToldToStop(s) && IsRun(s, steps)
    ensures ToldToStop(After(s, steps))
    decreases |steps|
  {
    hide ToldToStop, Next, Enabled;
    if steps != [] {
      ToldStep(s, steps[0]);
      TasksToldToStop(Next(s, steps[0]), steps[1..]);
    }
  }

  ghost predicate LoopPresent(s: Client) {
    LoopLives(s) ==> !s.loop.Left?
  }

  lemma PresentStep(s: Client, step: Step)
    requires LoopPresent(s) && Enabled(s, step)
    ensures LoopPresent(Next(s, step))
  {
  }

  lemma {:induction false} PresentRun(s: Client, steps: seq<Step>)
    requires LoopPresent(s) && IsRun(s, steps)
    ensures LoopPresent(After(s, steps))
    decreases |steps|
  {
    hide LoopPresent, Next, Enabled;
    if steps != [] {
      PresentStep(s, steps[0]);
      PresentRun(Next(s, steps[0]), steps[1..]);
    }
  }

  /** A step of the loop that does not depend on what its surroundings answer. */
  function LoopMove(s: Client): Step
    requires !s.loop.Left?
  {
    match s.loop
    case AtTop => Attempt
    case InConnect => if s.tunFault then ConnectFault else Connected
    case InSession => SessionEnds(Retry)
    case Sleeping => Wakes(false, false)
  }

  /** The TUN task the supervisor waits for, if it has settled on a result. */
  function Awaited(s: Client): Option<TunTask> {
    match s.sup
    case Resolving(Err(ChannelClosed(task))) => Some(task)
    case Joining(_) => if s.reader.held then Some(Reader) else if s.writer.held then Some(Writer) else None
    case _ => None
  }

  function SupervisorMove(s: Client): Step {
    if s.sup.Resolving? then Resolve else if Awaited(s).Some? then Join(Awaited(s).value) else Finish
  }

  /**
   No reachable state is stuck: while the loop lives it can go on, and whatever ends can be seen to end;
   after that the supervisor can go on unless the one task it waits for still runs. It can be cancelled and
   a running task can end at any time.
   */
  lemma NeverStuck(steps: seq<Step>, task: TunTask, outcome: Outcome)
    requires IsRun(BEGIN, steps)
    ensures var s := After(BEGIN, steps);
            && Enabled(s, Cancel) && (HandleOf(s, task).outcome.None? ==> Enabled(s, TaskEnds(task, outcome)))
            && (LoopLives(s) ==> !s.loop.Left? && Enabled(s, LoopMove(s)))
            && (LoopLives(s) && (s.loop.InConnect? || s.loop.InSession?) ==> Enabled(s, Works))
            && (s.sup.Racing? && HandleOf(s, task).outcome.Some? ==> Enabled(s, TunExit(task)))
            && (!LoopLives(s) && !s.sup.Ended? ==>
                  var waits := Awaited(s);
                  if waits.Some? && HandleOf(s, waits.value).outcome.None? then !Enabled(s, SupervisorMove(s))
                  else Enabled(s, SupervisorMove(s)))
            && (s.sup.Joining? && s.reader.held ==> !Enabled(s, Join(Writer)))
  {
    hide IsRun, After;
    PresentRun(BEGIN, steps);
    RunKeeps(BEGIN, steps);
    var s := After(BEGIN, steps);
    if !LoopLives(s) && !s.sup.Ended? {
      MoveEnabled(s);
    }
  }

  lemma MoveEnabled(s: Client)
    requires Inv(s) && !LoopLives(s) && !s.sup.Ended?
    ensures var waits := Awaited(s);
            Enabled(s, SupervisorMove(s)) <==> !(waits.Some? && HandleOf(s, waits.value).outcome.None?)
  {
  }

  /** A handle that is awaited and is gone is noticed, so runs without a failed expectation miss none. */
  lemma MissingHandleNoticed(s: Client, step: Step)
    requires Enabled(s, step)
    ensures Next(s, step).expectationFailed
       <==> || (step.TunExit? && (!s.reader.held || !s.writer.held))
            || (step.Resolve? && s.sup.result.Err? && s.sup.result.error.ChannelClosed?
                && !HandleOf(s, s.sup.result.error.task).held)
  {
  }

  // ----- Why a run ended

  predicate StopStep(step: Step) {
    step == Cancel || step == ConnectCommand(true) || step == SessionEnds(Shutdown) || (step.Wakes? && step.stop)
  }

  /** Something in the run asked the client to stop. */
  ghost predicate AskedToStop(run: seq<Step>) {
    exists i :: 0 <= i < |run| && StopStep(run[i])
  }

  /** The run explains the result. */
  ghost predicate Explains(run: seq<Step>, result: Ending) {
    match result
    case Ok(_) => AskedToStop(run)
    case Err(Connect) => ConnectFails(false) in run
    case Err(Session) => SessionEnds(Fatal) in run
    case Err(TunEnded(task, outcome)) =>
      TaskEnds(task, outcome) in run && (TunExit(task) in run || SessionEnds(TunClosed(task)) in run)
    case Err(ChannelClosed(task)) => SessionEnds(TunClosed(task)) in run
    case Err(FaultSignalled) => false
  }

  /** Every outcome of a TUN task is one the run has. */
  ghost predicate OutcomesSeen(s: Client, run: seq<Step>) {
    forall task :: HandleOf(s, task).outcome.Some? ==> TaskEnds(task, HandleOf(s, task).outcome.value) in run
  }

  ghost predicate CauseSeen(s: Client, run: seq<Step>) {
    && (LoopLives(s) && s.cancel ==> AskedToStop(run))
    && (s.sup.DrainFault? ==> Explains(run, Err(s.sup.error)))
    && (s.sup.Resolving? || s.sup.Joining? || s.sup.Ended? ==> Explains(run, s.sup.result))
  }

  ghost predicate Explained(s: Client, run: seq<Step>) {
    OutcomesSeen(s, run) && CauseSeen(s, run)
  }

  lemma StoppedStays(run: seq<Step>, step: Step)
    ensures AskedToStop(run) ==> AskedToStop(run + [step])
    ensures StopStep(step) ==> AskedToStop(run + [step])
  {
    if AskedToStop(run) {
      var i :| 0 <= i < |run| && StopStep(run[i]);
      assert (run + [step])[i] == run[i];
    }
    assert (run + [step])[|run|] == step;
  }

  lemma ExplainsStays(run: seq<Step>, step: Step, result: Ending)
    requires Explains(run, result)
    ensures Explains(run + [step], result)
  {
    StoppedStays(run, step);
  }

  lemma OutcomesStep(s: Client, run: seq<Step>, step: Step)
    requires OutcomesSeen(s, run) && Enabled(s, step)
    ensures OutcomesSeen(Next(s, step), run + [step])
  {
    hide Next, Enabled, HandleOf;
    forall task | HandleOf(Next(s, step), task).outcome.Some?
      ensures TaskEnds(task, HandleOf(Next(s, step), task).outcome.value) in run + [step]
    {
      OutcomeAfter(s, step, task);
    }
  }

  lemma OutcomeAfter(s: Client, step: Step, task: TunTask)
    requires Enabled(s, step)
    ensures HandleOf(Next(s, step), task).outcome
         == if step.TaskEnds? && step.task == task then Some(step.outcome) else HandleOf(s, task).outcome
  {
  }

  lemma SupervisorCause(s: Client, run: seq<Step>, step: Step)
    requires Inv(s) && Explained(s, run) && Enabled(s, step) && (step.TunExit? || step.Resolve?)
    ensures CauseSeen(Next(s, step), run + [step])
  {
    hide AskedToStop;
    StoppedStays(run, step);
    assert step in run + [step] && forall x :: x in run ==> x in run + [step];
  }

  lemma LoopCause(s: Client, run: seq<Step>, step: Step)
    requires Inv(s) && CauseSeen(s, run) && Enabled(s, step) && !step.TunExit? && !step.Resolve?
    ensures CauseSeen(Next(s, step), run + [step])
  {
    hide AskedToStop, HandleOk;
    StoppedStays(run, step);
    assert step in run + [step];
    if s.sup.DrainFault? {
      ExplainsStays(run, step, Err(s.sup.error));
    } else if s.sup.Resolving? || s.sup.Joining? || s.sup.Ended? {
      ExplainsStays(run, step, s.sup.result);
    }
  }

  lemma ExplainedStep(s: Client, run: seq<Step>, step: Step)
    requires Inv(s) && Explained(s, run) && Enabled(s, step)
    ensures Explained(Next(s, step), run + [step])
  {
    hide Inv, Next, Enabled, OutcomesSeen, CauseSeen;
    OutcomesStep(s, run, step);
    if step.TunExit? || step.Resolve? {
      SupervisorCause(s, run, step);
    } else {
      LoopCause(s, run, step);
    }
  }

  lemma {:induction false} ExplainedRun(s: Client, before: seq<Step>, steps: seq<Step>)
    requires Inv(s) && Explained(s, before) && IsRun(s, steps)
    ensures Explained(After(s, steps), before + steps)
    decreases |steps|
  {
    hide Inv, Explained, Next, Enabled;
    if steps == [] {
      assert before + steps == before;
    } else {
      StepKeeps(s, steps[0]);
      ExplainedStep(s, before, steps[0]);
      ExplainedRun(Next(s, steps[0]), before + [steps[0]], steps[1..]);
      assert before + [steps[0]] + steps[1..] == before + steps;
    }
  }

  /**
   Every ending has its cause in the run: success a request to stop, a connect or session error a fatal one,
   and a TUN error that very end of that task, seen by the supervisor or through its closed channel.
   */
  lemma EndingExplained(steps: seq<Step>)
    requires IsRun(BEGIN, steps) && After(BEGIN, steps).sup.Ended?
    ensures Explains(steps, After(BEGIN, steps).sup.result)
  {
    ExplainedRun(BEGIN, [], steps);
    assert [] + steps == steps;
  }

  // ----- TUN failures are reported

  ghost predicate WillReport(s: Client, error: RuntimeError) {
    s.sup == DrainFault(error) || SettledOn(s, Err(error))
  }

  lemma {:induction false} ReportStays(s: Client, error: RuntimeError, steps: seq<Step>)
    requires error.TunEnded? && WillReport(s, error) && IsRun(s, steps)
    ensures WillReport(After(s, steps), error)
    decreases |steps|
  {
    if steps != [] {
      ReportStays(Next(s, steps[0]), error, steps[1..]);
    }
  }

  /** A TUN task seen to end, unless the client was being cancelled, is what the run ends with. */
  lemma TunFailureReported(before: seq<Step>, task: TunTask, after: seq<Step>)
    requires IsRun(BEGIN, before) && Enabled(After(BEGIN, before), TunExit(task)) && !After(BEGIN, before).cancel
    requires IsRun(Next(After(BEGIN, before), TunExit(task)), after)
    ensures var s := After(BEGIN, before);
            var s' := After(Next(s, TunExit(task)), after);
            && HandleOf(s, task).outcome.Some?
            && (s'.sup.Ended? ==> s'.sup.result == Err(TunEnded(task, HandleOf(s, task).outcome.value)))
  {
    var s := After(BEGIN, before);
    RunKeeps(BEGIN, before);
    ReportStays(Next(s, TunExit(task)), TunEnded(task, HandleOf(s, task).outcome.value), after);
  }

  /** A channel found closed is reported as the end of the task that had it, whatever that turns out to be. */
  lemma ClosedChannelReported(before: seq<Step>, task: TunTask, after: seq<Step>)
    requires IsRun(BEGIN, before) && Enabled(After(BEGIN, before), SessionEnds(TunClosed(task)))
    requires After(BEGIN, before).sup.Racing? && !After(BEGIN, before).cancel
    requires IsRun(Next(After(BEGIN, before), SessionEnds(TunClosed(task))), after)
    ensures var s := After(Next(After(BEGIN, before), SessionEnds(TunClosed(task))), after);
            s.sup.Ended? ==>
              HandleOf(s, task).outcome.Some? && s.sup.result == Err(TunEnded(task, HandleOf(s, task).outcome.value))
  {
    ClosedStays(Next(After(BEGIN, before), SessionEnds(TunClosed(task))), task, after);
  }

  ghost predicate WillResolve(s: Client, task: TunTask) {
    || s.sup == Resolving(Err(ChannelClosed(task)))
    || (HandleOf(s, task).outcome.Some? && SettledOn(s, Err(TunEnded(task, HandleOf(s, task).outcome.value))))
  }

  lemma {:induction false} ClosedStays(s: Client, task: TunTask, steps: seq<Step>)
    requires WillResolve(s, task) && IsRun(s, steps)
    ensures WillResolve(After(s, steps), task)
    decreases |steps|
  {
    if steps != [] {
      ClosedStep(s, task, steps[0]);
      ClosedStays(Next(s, steps[0]), task, steps[1..]);
    }
  }

  lemma ClosedStep(s: Client, task: TunTask, step: Step)
    requires WillResolve(s, task) && Enabled(s, step)
    ensures WillResolve(Next(s, step), task)
  {
  }

  /**
   A client that is trying and is asked to stop does: a stop command or a session that was shut down ends the
   loop at once with success, and a cancellation, or a stop while waiting, the next time it is about to
   connect.
   */
  lemma StopsWhenAsked(s: Client, step: Step)
    requires Trying(s) && Enabled(s, step) && StopStep(step)
    ensures var s' := Next(s, step);
            && (step.ConnectCommand? || step.SessionEnds? ==> SettledOn(s', Ok(())))
            && (step.ConnectCommand? ==> s'.cancel)
            && (step.Cancel? || step.Wakes? ==> s'.cancel && s'.sup.Racing?)
            && (s'.cancel && s'.loop.AtTop? && Enabled(s', Attempt) ==> SettledOn(Next(s', Attempt), Ok(())))
            && (step.Wakes? ==> s'.loop.AtTop? && Enabled(s', Attempt) && s'.events == s.events)
  {
  }
}
