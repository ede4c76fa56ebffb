/**
 Shutdown of the authentication tasks and the sessions they start
 (slt-server/src/server_runtime/supervision.rs).

 `count` is what the task tracker counts: a reservation, and a tracked task, each weigh one. A
 connection first reserves, then looks at the gate, then starts its task, which gives the
 reservation back before it ends.
 */
module Supervision {
  import opened Registry
  import opened Lifecycle

  datatype Server = Server(
    gate: bool,
    closed: bool,
    count: int,
    reserved: set<nat>,
    admitted: set<nat>,
    working: set<nat>,
    finishing: set<nat>,
    authWaited: bool,
    life: Life,
    sessionsWaited: bool)

  const IDLE: Server := Server(true, false, 0, {}, {}, {}, {}, false, START, false)

  datatype Action =
    | Reserve(id: nat)
    | CheckGate(id: nat)
    | StartTask(id: nat)
    | DropReservation(id: nat)
    | TaskEnds(id: nat)
    | CloseGate
    | CloseTracker
    | AuthWaitReturns
    | SessionStep(step: Step, task: nat)
    | SessionsWaitReturns

  predicate Unused(v: Server, id: nat) {
    id !in v.reserved && id !in v.admitted && id !in v.working && id !in v.finishing
  }

  ghost predicate AllDone(s: Life) {
    forall n :: n in s.tasks ==> s.tasks[n].phase == Done
  }

  ghost predicate Allowed(v: Server, ipOf: map<ClientId, Ip>, a: Action) {
    match a
    case Reserve(id) => Unused(v, id)
    case CheckGate(id) => id in v.reserved
    case StartTask(id) => id in v.admitted
    case DropReservation(id) => id in v.working
    case TaskEnds(id) => id in v.finishing
    case CloseGate => true
    case CloseTracker => !v.gate
    case AuthWaitReturns => v.closed && v.count == 0
    case SessionStep(step, task) => Enabled(v.life, ipOf, step) && (step.CheckAccepting? ==> task in v.working)
    case SessionsWaitReturns => v.life.closed && AllDone(v.life)
  }

  ghost function Act(v: Server, ipOf: map<ClientId, Ip>, a: Action): Server
    requires Allowed(v, ipOf, a)
  {
    match a
    case Reserve(id) => v.(reserved := v.reserved + {id}, count := v.count + 1)
    case CheckGate(id) =>
      if v.gate then v.(reserved := v.reserved - {id}, admitted := v.admitted + {id})
      else v.(reserved := v.reserved - {id}, count := v.count - 1)
    case StartTask(id) => v.(admitted := v.admitted - {id}, working := v.working + {id}, count := v.count + 1)
    case DropReservation(id) => v.(working := v.working - {id}, finishing := v.finishing + {id}, count := v.count - 1)
    case TaskEnds(id) => v.(finishing := v.finishing - {id}, count := v.count - 1)
    case CloseGate => v.(gate := false)
    case CloseTracker => v.(closed := true)
    case AuthWaitReturns => v.(authWaited := true)
    case SessionStep(step, task) => v.(life := Next(v.life, ipOf, step))
    case SessionsWaitReturns => v.(sessionsWaited := true)
  }

  ghost predicate Acts(v: Server, ipOf: map<ClientId, Ip>, run: seq<Action>)
    decreases |run|
  {
    run == [] || (Allowed(v, ipOf, run[0]) && Acts(Act(v, ipOf, run[0]), ipOf, run[1..]))
  }

  ghost function Result(v: Server, ipOf: map<ClientId, Ip>, run: seq<Action>): Server
    requires Acts(v, ipOf, run)
    decreases |run|
  {
    if run == [] then v else Result(Act(v, ipOf, run[0]), ipOf, run[1..])
  }

  // ----- The invariant

  /** The tracker counts every reservation and every task, and nothing else. */
  ghost predicate CountOk(v: Server) {
    && v.count == Weight(v)
    && Apart(v)
    && (v.closed ==> !v.gate)
  }

  function Weight(v: Server): nat {
    |v.reserved| + |v.admitted| + 2 * |v.working| + |v.finishing|
  }

  ghost predicate Apart(v: Server) {
    && (forall id :: id in v.reserved ==> id !in v.admitted && id !in v.working && id !in v.finishing)
    && (forall id :: id in v.admitted ==> id !in v.working && id !in v.finishing)
    && (forall id :: id in v.working ==> id !in v.finishing)
  }

  /** Past the authentication wait nobody is past the gate. */
  ghost predicate AuthOver(v: Server) {
    v.closed && v.admitted == {} && v.working == {} && v.finishing == {}
  }

  ghost predicate SessionsOver(v: Server) {
    v.life.closed && AllDone(v.life)
  }

  ghost predicate ServerOk(v: Server, ipOf: map<ClientId, Ip>) {
    && CountOk(v)
    && Inv(v.life, ipOf)
    && (v.authWaited ==> AuthOver(v))
    && (v.sessionsWaited ==> SessionsOver(v))
  }

  lemma ActKeepsApart(v: Server, ipOf: map<ClientId, Ip>, a: Action)
    requires Apart(v) && Allowed(v, ipOf, a)
    ensures Apart(Act(v, ipOf, a))
  {
    hide Next, Enabled;
  }

  lemma ActKeepsWeight(v: Server, ipOf: map<ClientId, Ip>, a: Action)
    requires Apart(v) && Allowed(v, ipOf, a)
    ensures Act(v, ipOf, a).count - Weight(Act(v, ipOf, a)) == v.count - Weight(v)
  {
    hide Next, Enabled, Apart, Weight;
    match a
    case Reserve(id) =>
      ReserveWeighs(v, id);
      WeighsOnlyTasks(v.(reserved := v.reserved + {id}), Act(v, ipOf, a));
    case CheckGate(id) =>
      GateWeighs(v, id);
      var admitted := if v.gate then v.admitted + {id} else v.admitted;
      WeighsOnlyTasks(v.(reserved := v.reserved - {id}, admitted := admitted), Act(v, ipOf, a));
    case StartTask(id) =>
      StartWeighs(v, id);
      WeighsOnlyTasks(v.(admitted := v.admitted - {id}, working := v.working + {id}), Act(v, ipOf, a));
    case DropReservation(id) =>
      DropWeighs(v, id);
      WeighsOnlyTasks(v.(working := v.working - {id}, finishing := v.finishing + {id}), Act(v, ipOf, a));
    case TaskEnds(id) =>
      EndWeighs(v, id);
      WeighsOnlyTasks(v.(finishing := v.finishing - {id}), Act(v, ipOf, a));
    case _ => WeighsOnlyTasks(v, Act(v, ipOf, a));
  }

  lemma WeighsOnlyTasks(v: Server, w: Server)
    requires v.reserved == w.reserved && v.admitted == w.admitted
    requires v.working == w.working && v.finishing == w.finishing
    ensures Weight(v) == Weight(w)
  {
  }

  lemma EndWeighs(v: Server, id: nat)
    requires id in v.finishing
    ensures Weight(v.(finishing := v.finishing - {id})) == Weight(v) - 1
  {
    Sizes(v.finishing, id);
  }

  lemma ReserveWeighs(v: Server, id: nat)
    requires Unused(v, id)
    ensures Weight(v.(reserved := v.reserved + {id})) == Weight(v) + 1
  {
    Sizes(v.reserved, id);
  }

  lemma GateWeighs(v: Server, id: nat)
    requires Apart(v) && id in v.reserved
    ensures Weight(v.(reserved := v.reserved - {id}, admitted := v.admitted + {id})) == Weight(v)
    ensures Weight(v.(reserved := v.reserved - {id})) == Weight(v) - 1
  {
    Sizes(v.reserved, id);
    Sizes(v.admitted, id);
  }

  lemma StartWeighs(v: Server, id: nat)
    requires Apart(v) && id in v.admitted
    ensures Weight(v.(admitted := v.admitted - {id}, working := v.working + {id})) == Weight(v) + 1
  {
    Sizes(v.admitted, id);
    Sizes(v.working, id);
  }

  lemma DropWeighs(v: Server, id: nat)
    requires Apart(v) && id in v.working
    ensures Weight(v.(working := v.working - {id}, finishing := v.finishing + {id})) == Weight(v) - 1
  {
    Sizes(v.working, id);
    Sizes(v.finishing, id);
  }

  lemma Sizes(ids: set<nat>, id: nat)
    ensures id in ids ==> |ids - {id}| == |ids| - 1
    ensures id !in ids ==> |ids + {id}| == |ids| + 1
  {
  }

  lemma ActKeepsCount(v: Server, ipOf: map<ClientId, Ip>, a: Action)
    requires CountOk(v) && Allowed(v, ipOf, a)
    ensures CountOk(Act(v, ipOf, a))
    ensures AuthOver(v) ==> AuthOver(Act(v, ipOf, a))
    ensures a.AuthWaitReturns? ==> AuthOver(v)
  {
    hide Next, Enabled, Apart, Weight;
    ActKeepsApart(v, ipOf, a);
    ActKeepsWeight(v, ipOf, a);
    if a.AuthWaitReturns? {
      Weightless(v);
    }
  }

  lemma Weightless(v: Server)
    ensures Weight(v) == 0 <==> v.reserved == {} && v.admitted == {} && v.working == {} && v.finishing == {}
  {
  }

  lemma StepKeepsOver(s: Life, ipOf: map<ClientId, Ip>, step: Step)
    requires Inv(s, ipOf) && s.closed && AllDone(s) && Enabled(s, ipOf, step)
    ensures Next(s, ipOf, step).closed && AllDone(Next(s, ipOf, step)) && Next(s, ipOf, step).tasks == s.tasks
  {
    hide RoutesOk, ActiveOk, NoneForgotten, ManagedOk;
  }

  lemma ActKeeps(v: Server, ipOf: map<ClientId, Ip>, a: Action)
    requires Injective(ipOf) && ServerOk(v, ipOf) && Allowed(v, ipOf, a)
    ensures ServerOk(Act(v, ipOf, a), ipOf)
    ensures SessionsOver(v) ==> SessionsOver(Act(v, ipOf, a)) && Act(v, ipOf, a).life.tasks == v.life.tasks
  {
    hide Inv, Next, Enabled, CountOk, AuthOver, AllDone;
    ActKeepsCount(v, ipOf, a);
    if a.SessionStep? {
      StepKeeps(v.life, ipOf, a.step);
      if SessionsOver(v) {
        StepKeepsOver(v.life, ipOf, a.step);
      }
    }
  }

  lemma {:induction false} ActsKeep(v: Server, ipOf: map<ClientId, Ip>, run: seq<Action>)
    requires Injective(ipOf) && ServerOk(v, ipOf) && Acts(v, ipOf, run)
    ensures ServerOk(Result(v, ipOf, run), ipOf)
    ensures AuthOver(v) ==> AuthOver(Result(v, ipOf, run))
    ensures SessionsOver(v) ==> SessionsOver(Result(v, ipOf, run)) && Result(v, ipOf, run).life.tasks == v.life.tasks
    decreases |run|
  {
    hide Inv, Next, Enabled, CountOk, AuthOver, AllDone, Act, Allowed;
    if run != [] {
      ActKeeps(v, ipOf, run[0]);
      CountKept(v, ipOf, run[0]);
      ActsKeep(Act(v, ipOf, run[0]), ipOf, run[1..]);
    }
  }

  lemma CountKept(v: Server, ipOf: map<ClientId, Ip>, a: Action)
    requires ServerOk(v, ipOf) && Allowed(v, ipOf, a)
    ensures AuthOver(v) ==> AuthOver(Act(v, ipOf, a))
  {
    hide Inv, Next, Enabled;
    ActKeepsCount(v, ipOf, a);
  }

  // ----- What shutdown guarantees

  /** The tracker's count never goes below zero, and is zero exactly when nobody holds or runs anything. */
  lemma TrackerCountsExactly(ipOf: map<ClientId, Ip>, run: seq<Action>)
    requires Injective(ipOf) && Acts(IDLE, ipOf, run)
    ensures var v := Result(IDLE, ipOf, run);
            && 0 <= v.count == |v.reserved| + |v.admitted| + 2 * |v.working| + |v.finishing|
            && (v.count == 0 <==> v.reserved == {} && v.admitted == {} && v.working == {} && v.finishing == {})
  {
    StartsOk(ipOf);
    ActsKeep(IDLE, ipOf, run);
    Weightless(Result(IDLE, ipOf, run));
  }

  lemma StartsOk(ipOf: map<ClientId, Ip>)
    ensures ServerOk(IDLE, ipOf)
  {
  }

  /**
   Once both waits have returned no authentication task and no session task runs, and whatever
   happens afterwards, connections that had reserved before or reserve later included, none starts.
   */
  lemma NothingRunsAfterTheWaits(ipOf: map<ClientId, Ip>, run: seq<Action>, later: seq<Action>)
    requires Injective(ipOf) && Acts(IDLE, ipOf, run) && Acts(Result(IDLE, ipOf, run), ipOf, later)
    requires Result(IDLE, ipOf, run).authWaited && Result(IDLE, ipOf, run).sessionsWaited
    ensures var v := Result(IDLE, ipOf, run);
            var w := Result(v, ipOf, later);
            && w.admitted == w.working == w.finishing == {}
            && AllDone(w.life) && w.life.tasks == v.life.tasks && w.life.lock.Free?
  {
    hide Next, Enabled, Act, Allowed;
    StartsOk(ipOf);
    ActsKeep(IDLE, ipOf, run);
    ActsKeep(Result(IDLE, ipOf, run), ipOf, later);
    LockFree(Result(Result(IDLE, ipOf, run), ipOf, later).life, ipOf);
  }

  lemma LockFree(s: Life, ipOf: map<ClientId, Ip>)
    requires Inv(s, ipOf) && s.closed
    ensures s.lock.Free? && !s.accepting
  {
    hide RoutesOk;
  }

  // ----- Who is served

  /**
   A connection that reserves while the gate is open gets its task, and one that finds it closed gets
   nothing and leaves no trace.
   */
  lemma ServedExactlyIfOpen(v: Server, ipOf: map<ClientId, Ip>, id: nat)
    requires Unused(v, id)
    ensures Acts(v, ipOf, [Reserve(id), CheckGate(id)])
    ensures var w := Result(v, ipOf, [Reserve(id), CheckGate(id)]);
            && (v.gate ==>
                  && Allowed(w, ipOf, StartTask(id)) && id in Act(w, ipOf, StartTask(id)).working
                  && Act(w, ipOf, StartTask(id)).count == v.count + 2)
            && (!v.gate ==> w == v)
  {
    var run := [Reserve(id), CheckGate(id)];
    var w1 := Act(v, ipOf, run[0]);
    var w2 := Act(w1, ipOf, run[1]);
    assert run[1..] == [CheckGate(id)] && [CheckGate(id)][1..] == [];
    assert Acts(w2, ipOf, []) && Result(w2, ipOf, []) == w2;
    assert Acts(w1, ipOf, [CheckGate(id)]) && Result(w1, ipOf, [CheckGate(id)]) == w2;
    if !v.gate {
      assert v.reserved + {id} - {id} == v.reserved;
    }
  }

  /** What shutting down does, before it waits. */
  function Closing(): seq<Action> {
    [SessionStep(TakeSenders, 0), SessionStep(Step.CloseTracker, 0), CloseGate, Action.CloseTracker]
  }

  /**
   A server without connections and with all sessions done can be shut down: sessions and gate are closed,
   both trackers too, and both waits return.
   */
  lemma ShutdownCompletes(v: Server, ipOf: map<ClientId, Ip>)
    requires v.count == 0 && v.life.lock.Free? && AllDone(v.life)
    ensures var closing := Closing();
            && Acts(v, ipOf, closing)
            && !Result(v, ipOf, closing).gate && !Result(v, ipOf, closing).life.accepting
            && Allowed(Result(v, ipOf, closing), ipOf, AuthWaitReturns)
            && Allowed(Result(v, ipOf, closing), ipOf, SessionsWaitReturns)
            && Act(Result(v, ipOf, closing), ipOf, AuthWaitReturns).authWaited
            && Act(Result(v, ipOf, closing), ipOf, SessionsWaitReturns).sessionsWaited
  {
    hide Disarmed, ArmedIds, Acts, Result;
    var v1 := Act(v, ipOf, SessionStep(TakeSenders, 0));
    var v2 := Act(v1, ipOf, SessionStep(Step.CloseTracker, 0));
    var v3 := Act(v2, ipOf, CloseGate);
    FourActs(v, ipOf, SessionStep(TakeSenders, 0), SessionStep(Step.CloseTracker, 0), CloseGate, Action.CloseTracker);
  }

  lemma FourActs(v: Server, ipOf: map<ClientId, Ip>, a: Action, b: Action, c: Action, d: Action)
    requires Allowed(v, ipOf, a) && Allowed(Act(v, ipOf, a), ipOf, b)
    requires Allowed(Act(Act(v, ipOf, a), ipOf, b), ipOf, c)
    requires Allowed(Act(Act(Act(v, ipOf, a), ipOf, b), ipOf, c), ipOf, d)
    ensures Acts(v, ipOf, [a, b, c, d])
    ensures Result(v, ipOf, [a, b, c, d]) == Act(Act(Act(Act(v, ipOf, a), ipOf, b), ipOf, c), ipOf, d)
  {
    hide Allowed, Act;
    var v1 := Act(v, ipOf, a);
    var v2 := Act(v1, ipOf, b);
    var v3 := Act(v2, ipOf, c);
    var v4 := Act(v3, ipOf, d);
    assert [a, b, c, d][1..] == [b, c, d] && [b, c, d][1..] == [c, d] && [c, d][1..] == [d] && [d][1..] == [];
    assert Acts(v4, ipOf, []) && Result(v4, ipOf, []) == v4;
    assert Acts(v3, ipOf, [d]) && Result(v3, ipOf, [d]) == v4;
    assert Acts(v2, ipOf, [c, d]) && Result(v2, ipOf, [c, d]) == v4;
    assert Acts(v1, ipOf, [b, c, d]) && Result(v1, ipOf, [b, c, d]) == v4;
  }
}
