/**
 Session lifecycle as a state machine (slt-server/src/auth/session_manager.rs,
 slt-server/src/registry.rs, slt-server/src/sessions/lifecycle.rs).

 Session tasks touch the registry without the manager lock, so a spawn is three steps: take the
 lock and see that sessions are accepted, register, then replace, signal and start the task. Other
 tasks' registry steps fall between them; steps that need the lock do not.
 */
module Lifecycle {
  import opened Bytes
  import opened Registry

  datatype Reason = Takeover | ServerRestart

  /** A manager entry; it is armed while it still holds the sender of the shutdown channel. */
  datatype Managed = Managed(sessionId: nat, armed: bool)

  datatype Phase = Running | Cleaned | Done

  datatype Task = Task(client: ClientId, phase: Phase)

  datatype Lock = Free | Checked(client: ClientId) | Registered(client: ClientId, sid: nat)

  /**
   `sent` has what went over each session's shutdown channel, `pending` the sessions whose sender
   shutdown took and has not used yet. `held` and `replaced` record who was managed at shutdown and
   who was taken over.
   */
  datatype Life = Life(
    reg: Routes,
    accepting: bool,
    managed: map<ClientId, Managed>,
    lock: Lock,
    tasks: map<nat, Task>,
    sent: map<nat, seq<Reason>>,
    pending: set<nat>,
    closed: bool,
    held: set<nat>,
    replaced: set<nat>)

  const START: Life := Life(EMPTY, true, map[], Free, map[], map[], {}, false, {}, {})

  datatype Step =
    | CheckAccepting(client: ClientId)
    | RegisterSession
    | ReplaceAndStart
    | InsertCid(sid: nat, prefix: CidPrefix)
    | RemoveCidRoutes(sid: nat, keep: Option<CidPrefix>)
    | SessionCleanup(sid: nat)
    | ManagerCleanup(sid: nat)
    | TakeSenders
    | SendRestart(sid: nat)
    | CloseTracker

  function Disarmed(m: map<ClientId, Managed>): map<ClientId, Managed> {
    map c | c in m :: Managed(m[c].sessionId, false)
  }

  /** The sessions whose sender the manager still has. */
  function ArmedIds(m: map<ClientId, Managed>): set<nat> {
    set c | c in m && m[c].armed :: m[c].sessionId
  }

  function RemovedIfCurrent(m: map<ClientId, Managed>, client: ClientId, sid: nat): map<ClientId, Managed> {
    if client in m && m[client].sessionId == sid then m - {client} else m
  }

  predicate InPhase(s: Life, sid: nat, phase: Phase) {
    sid in s.tasks && s.tasks[sid].phase == phase
  }

  predicate Enabled(s: Life, ipOf: map<ClientId, Ip>, step: Step) {
    match step
    case CheckAccepting(client) => s.lock.Free? && s.accepting && client in ipOf
    case RegisterSession => s.lock.Checked? && s.lock.client in ipOf && s.reg.nextSessionId < U64_MAX
    case ReplaceAndStart => s.lock.Registered?
    case InsertCid(sid, _) => InPhase(s, sid, Running)
    case RemoveCidRoutes(sid, _) => InPhase(s, sid, Running)
    case SessionCleanup(sid) => InPhase(s, sid, Running) && s.tasks[sid].client in ipOf
    case ManagerCleanup(sid) => s.lock.Free? && InPhase(s, sid, Cleaned)
    case TakeSenders => s.lock.Free?
    case SendRestart(sid) => sid in s.pending
    case CloseTracker => !s.accepting
  }

  function Replace(s: Life, client: ClientId, sid: nat): Life {
    var started := s.(lock := Free,
                      managed := s.managed[client := Managed(sid, true)],
                      tasks := s.tasks[sid := Task(client, Running)],
                      sent := s.sent[sid := []]);
    if client !in s.managed then started
    else
      var previous := s.managed[client].sessionId;
      started.(sent := if s.managed[client].armed then Signal(started.sent, previous, Takeover) else started.sent,
               replaced := s.replaced + {previous})
  }

  function Signal(sent: map<nat, seq<Reason>>, sid: nat, reason: Reason): map<nat, seq<Reason>> {
    if sid in sent then sent[sid := sent[sid] + [reason]] else sent
  }

  function Next(s: Life, ipOf: map<ClientId, Ip>, step: Step): Life
    requires Enabled(s, ipOf, step)
  {
    match step
    case CheckAccepting(client) => s.(lock := Checked(client))
    case RegisterSession =>
      s.(reg := Register(s.reg, s.lock.client, ipOf[s.lock.client], s.reg.nextSessionId),
         lock := Registered(s.lock.client, s.reg.nextSessionId))
    case ReplaceAndStart => Replace(s, s.lock.client, s.lock.sid)
    case InsertCid(sid, prefix) => s.(reg := BindCid(s.reg, s.tasks[sid].client, sid, prefix, sid).0)
    case RemoveCidRoutes(sid, keep) => s.(reg := RemoveCids(s.reg, sid, keep))
    case SessionCleanup(sid) =>
      var client := s.tasks[sid].client;
      s.(reg := Remove(s.reg, sid, client, ipOf[client]), tasks := s.tasks[sid := Task(client, Cleaned)])
    case ManagerCleanup(sid) =>
      var client := s.tasks[sid].client;
      s.(managed := RemovedIfCurrent(s.managed, client, sid), tasks := s.tasks[sid := Task(client, Done)])
    case TakeSenders =>
      s.(accepting := false, managed := Disarmed(s.managed), pending := s.pending + ArmedIds(s.managed),
         held := s.held + ArmedIds(s.managed))
    case SendRestart(sid) => s.(sent := Signal(s.sent, sid, ServerRestart), pending := s.pending - {sid})
    case CloseTracker => s.(closed := true)
  }

  ghost predicate IsRun(s: Life, ipOf: map<ClientId, Ip>, steps: seq<Step>)
    decreases |steps|
  {
    steps == [] || (Enabled(s, ipOf, steps[0]) && IsRun(Next(s, ipOf, steps[0]), ipOf, steps[1..]))
  }

  ghost function After(s: Life, ipOf: map<ClientId, Ip>, steps: seq<Step>): Life
    requires IsRun(s, ipOf, steps)
    decreases |steps|
  {
    if steps == [] then s else After(Next(s, ipOf, steps[0]), ipOf, steps[1..])
  }

  // ----- The invariant

  ghost predicate TasksOk(s: Life, ipOf: map<ClientId, Ip>) {
    && (forall n :: n in s.tasks ==> n < s.reg.nextSessionId && s.tasks[n].client in ipOf)
    && s.sent.Keys == s.tasks.Keys
    && (!s.lock.Free? ==> s.accepting && s.lock.client in ipOf)
    && (s.lock.Registered? ==>
          && s.lock.sid < s.reg.nextSessionId && s.lock.sid !in s.tasks
          && ActiveId(s.reg, s.lock.client) == Some(s.lock.sid))
  }

  /** An active session is running and is the managed one, unless its spawn has yet to finish. */
  ghost predicate ActiveOk(s: Life) {
    forall c :: c in s.reg.sessions ==>
      var n := s.reg.sessions[c].sessionId;
      && s.reg.sessions[c].tx == n
      && (s.lock == Registered(c, n)
          || (n in s.tasks && s.tasks[n] == Task(c, Running) && c in s.managed && s.managed[c].sessionId == n))
  }

  /** A managed session is unfinished, and while it is running it is the active one or about to be replaced. */
  ghost predicate ManagedOk(s: Life) {
    forall c :: c in s.managed ==>
      var n := s.managed[c].sessionId;
      && n in s.tasks && s.tasks[n].client == c && s.tasks[n].phase != Done
      && (s.tasks[n].phase == Running ==>
            ActiveId(s.reg, c) == Some(n) || (s.lock.Registered? && s.lock.client == c))
  }

  /** Every unfinished session is managed or was replaced. */
  ghost predicate NoneForgotten(s: Life) {
    forall n :: n in s.tasks && s.tasks[n].phase != Done && n !in s.replaced ==>
      s.tasks[n].client in s.managed && s.managed[s.tasks[n].client].sessionId == n
  }

  function Expected(s: Life, n: nat): seq<Reason> {
    if n in s.replaced then [Takeover] else if n in s.held && n !in s.pending then [ServerRestart] else []
  }

  ghost predicate SignalsOk(s: Life) {
    && (forall n :: n in s.sent ==> s.sent[n] == Expected(s, n))
    && s.replaced !! s.held && s.pending <= s.held && s.held <= s.sent.Keys && s.replaced <= s.sent.Keys
    && (s.accepting ==> s.held == {} && !s.closed)
    && (forall c :: c in s.managed ==> s.managed[c].armed == s.accepting && s.managed[c].sessionId !in s.replaced)
    && (forall c :: c in s.managed && !s.accepting ==> s.managed[c].sessionId in s.held)
  }

  ghost predicate Inv(s: Life, ipOf: map<ClientId, Ip>) {
    && RoutesOk(s.reg, ipOf) && TasksOk(s, ipOf) && ActiveOk(s) && ManagedOk(s) && NoneForgotten(s) && SignalsOk(s)
  }

  /** Changing connection-id routes alone keeps everything else. */
  lemma RoutesOnly(s: Life, reg: Routes, ipOf: map<ClientId, Ip>)
    requires Inv(s, ipOf) && RoutesOk(reg, ipOf)
    requires reg.sessions == s.reg.sessions && reg.nextSessionId == s.reg.nextSessionId
    ensures Inv(s.(reg := reg), ipOf)
  {
    hide RoutesOk, TasksOk, ActiveOk, ManagedOk;
    RoutesOnlyOwners(s, reg, ipOf);
  }

  lemma RoutesOnlyOwners(s: Life, reg: Routes, ipOf: map<ClientId, Ip>)
    requires TasksOk(s, ipOf) && ActiveOk(s) && ManagedOk(s)
    requires reg.sessions == s.reg.sessions && reg.nextSessionId == s.reg.nextSessionId
    ensures var s' := s.(reg := reg); TasksOk(s', ipOf) && ActiveOk(s') && ManagedOk(s')
  {
  }

  lemma CheckKeeps(s: Life, ipOf: map<ClientId, Ip>, client: ClientId)
    requires Inv(s, ipOf) && Enabled(s, ipOf, CheckAccepting(client))
    ensures Inv(Next(s, ipOf, CheckAccepting(client)), ipOf)
  {
    hide RoutesOk;
  }

  lemma RegisterKeepsRest(s: Life, ipOf: map<ClientId, Ip>)
    requires Inv(s, ipOf) && Enabled(s, ipOf, RegisterSession)
    ensures var s' := Next(s, ipOf, RegisterSession);
            TasksOk(s', ipOf) && ActiveOk(s') && ManagedOk(s') && NoneForgotten(s') && SignalsOk(s')
  {
    hide RoutesOk, Register;
    RegisteredSessions(s.reg, s.lock.client, ipOf[s.lock.client], s.reg.nextSessionId);
  }

  lemma RegisterKeeps(s: Life, ipOf: map<ClientId, Ip>)
    requires Injective(ipOf) && Inv(s, ipOf) && Enabled(s, ipOf, RegisterSession)
    ensures Inv(Next(s, ipOf, RegisterSession), ipOf)
  {
    hide RoutesOk, Register, TasksOk, ActiveOk, ManagedOk, NoneForgotten, SignalsOk;
    RegisterKeepsRoutes(s.reg, s.lock.client, s.reg.nextSessionId, ipOf);
    RegisterKeepsRest(s, ipOf);
  }

  lemma RegisteredSessions(r: Routes, client: ClientId, ip: Ip, tx: SessionTx)
    ensures var r' := Register(r, client, ip, tx);
            && r'.nextSessionId == Min(r.nextSessionId + 1, U64_MAX)
            && r'.sessions == r.sessions[client := SessionHandle(r.nextSessionId, client, ip, tx)]
  {
    hide WithoutCids;
  }

  lemma ReplaceKeepsTasks(s: Life, ipOf: map<ClientId, Ip>)
    requires Inv(s, ipOf) && Enabled(s, ipOf, ReplaceAndStart)
    ensures TasksOk(Replace(s, s.lock.client, s.lock.sid), ipOf)
  {
    hide RoutesOk, ActiveOk, NoneForgotten;
  }

  lemma ReplaceKeepsActive(s: Life, ipOf: map<ClientId, Ip>)
    requires Inv(s, ipOf) && Enabled(s, ipOf, ReplaceAndStart)
    ensures ActiveOk(Replace(s, s.lock.client, s.lock.sid))
  {
    hide RoutesOk, ManagedOk, SignalsOk, NoneForgotten;
  }

  lemma ReplaceKeepsManaged(s: Life, ipOf: map<ClientId, Ip>)
    requires Inv(s, ipOf) && Enabled(s, ipOf, ReplaceAndStart)
    ensures ManagedOk(Replace(s, s.lock.client, s.lock.sid))
  {
    hide RoutesOk, SignalsOk, NoneForgotten, ActiveOk;
  }

  lemma ReplaceKeepsSignals(s: Life, ipOf: map<ClientId, Ip>)
    requires Inv(s, ipOf) && Enabled(s, ipOf, ReplaceAndStart)
    ensures SignalsOk(Replace(s, s.lock.client, s.lock.sid))
  {
    hide RoutesOk, ActiveOk, NoneForgotten;
  }

  lemma ReplaceForgetsNone(s: Life, ipOf: map<ClientId, Ip>)
    requires Inv(s, ipOf) && Enabled(s, ipOf, ReplaceAndStart)
    ensures NoneForgotten(Replace(s, s.lock.client, s.lock.sid))
  {
    hide RoutesOk, ActiveOk, SignalsOk;
  }

  lemma ReplaceKeeps(s: Life, ipOf: map<ClientId, Ip>)
    requires Inv(s, ipOf) && Enabled(s, ipOf, ReplaceAndStart)
    ensures Inv(Next(s, ipOf, ReplaceAndStart), ipOf)
  {
    hide RoutesOk, TasksOk, ActiveOk, ManagedOk, NoneForgotten, SignalsOk;
    ReplaceKeepsTasks(s, ipOf);
    ReplaceKeepsActive(s, ipOf);
    ReplaceKeepsManaged(s, ipOf);
    ReplaceKeepsSignals(s, ipOf);
    ReplaceForgetsNone(s, ipOf);
  }

  lemma InsertCidKeeps(s: Life, ipOf: map<ClientId, Ip>, sid: nat, prefix: CidPrefix)
    requires Inv(s, ipOf) && Enabled(s, ipOf, InsertCid(sid, prefix))
    ensures Inv(Next(s, ipOf, InsertCid(sid, prefix)), ipOf)
  {
    hide RoutesOk, WithoutCids, ManagedOk, NoneForgotten, SignalsOk;
    BindCidKeepsRoutes(s.reg, s.tasks[sid].client, sid, prefix, sid, ipOf);
    RoutesOnly(s, BindCid(s.reg, s.tasks[sid].client, sid, prefix, sid).0, ipOf);
  }

  lemma RemoveCidsKeeps(s: Life, ipOf: map<ClientId, Ip>, sid: nat, keep: Option<CidPrefix>)
    requires Inv(s, ipOf) && Enabled(s, ipOf, RemoveCidRoutes(sid, keep))
    ensures Inv(Next(s, ipOf, RemoveCidRoutes(sid, keep)), ipOf)
  {
    hide RoutesOk, WithoutCids, ActiveOk, TasksOk, ManagedOk, NoneForgotten, SignalsOk;
    RemoveCidsKeepsRoutes(s.reg, sid, keep, ipOf);
    RoutesOnly(s, RemoveCids(s.reg, sid, keep), ipOf);
  }

  /** Only the session's own entry can go. */
  lemma RemovedSessions(r: Routes, sid: nat, client: ClientId, ip: Ip)
    ensures var r' := Remove(r, sid, client, ip);
            && r'.nextSessionId == r.nextSessionId
            && r'.sessions == if ActiveId(r, client) == Some(sid) then r.sessions - {client} else r.sessions
  {
    hide WithoutCids;
  }

  lemma CleanupKeepsActive(s: Life, ipOf: map<ClientId, Ip>, sid: nat)
    requires Inv(s, ipOf) && Enabled(s, ipOf, SessionCleanup(sid))
    ensures var s' := Next(s, ipOf, SessionCleanup(sid)); TasksOk(s', ipOf) && ActiveOk(s')
  {
    hide RoutesOk, Remove, SignalsOk, NoneForgotten, ManagedOk;
    RemovedSessions(s.reg, sid, s.tasks[sid].client, ipOf[s.tasks[sid].client]);
  }

  lemma CleanupKeepsManaged(s: Life, ipOf: map<ClientId, Ip>, sid: nat)
    requires Inv(s, ipOf) && Enabled(s, ipOf, SessionCleanup(sid))
    ensures ManagedOk(Next(s, ipOf, SessionCleanup(sid)))
  {
    hide RoutesOk, Remove, SignalsOk, NoneForgotten, ActiveOk, TasksOk;
    RemovedSessions(s.reg, sid, s.tasks[sid].client, ipOf[s.tasks[sid].client]);
  }

  lemma CleanupKeepsSignals(s: Life, ipOf: map<ClientId, Ip>, sid: nat)
    requires Inv(s, ipOf) && Enabled(s, ipOf, SessionCleanup(sid))
    ensures var s' := Next(s, ipOf, SessionCleanup(sid)); NoneForgotten(s') && SignalsOk(s')
  {
    hide RoutesOk, Remove, ActiveOk, TasksOk, ManagedOk;
  }

  lemma CleanupKeepsRoutes(s: Life, ipOf: map<ClientId, Ip>, sid: nat)
    requires Injective(ipOf) && Inv(s, ipOf) && Enabled(s, ipOf, SessionCleanup(sid))
    ensures RoutesOk(Next(s, ipOf, SessionCleanup(sid)).reg, ipOf)
  {
    hide RoutesOk, Remove, ManagedOk, NoneForgotten, SignalsOk;
    RemoveKeepsRoutes(s.reg, sid, s.tasks[sid].client, ipOf);
  }

  lemma SessionCleanupKeeps(s: Life, ipOf: map<ClientId, Ip>, sid: nat)
    requires Injective(ipOf) && Inv(s, ipOf) && Enabled(s, ipOf, SessionCleanup(sid))
    ensures Inv(Next(s, ipOf, SessionCleanup(sid)), ipOf)
  {
    hide RoutesOk, TasksOk, ActiveOk, ManagedOk, NoneForgotten, SignalsOk, Next;
    CleanupKeepsRoutes(s, ipOf, sid);
    CleanupKeepsActive(s, ipOf, sid);
    CleanupKeepsManaged(s, ipOf, sid);
    CleanupKeepsSignals(s, ipOf, sid);
  }

  lemma ManagerCleanupKeepsOwners(s: Life, ipOf: map<ClientId, Ip>, sid: nat)
    requires Inv(s, ipOf) && Enabled(s, ipOf, ManagerCleanup(sid))
    ensures var s' := Next(s, ipOf, ManagerCleanup(sid)); TasksOk(s', ipOf) && ActiveOk(s') && ManagedOk(s')
  {
    hide RoutesOk, NoneForgotten, SignalsOk;
  }

  lemma ManagerCleanupKeeps(s: Life, ipOf: map<ClientId, Ip>, sid: nat)
    requires Inv(s, ipOf) && Enabled(s, ipOf, ManagerCleanup(sid))
    ensures Inv(Next(s, ipOf, ManagerCleanup(sid)), ipOf)
  {
    hide RoutesOk, TasksOk, ActiveOk, ManagedOk;
    ManagerCleanupKeepsOwners(s, ipOf, sid);
  }

  lemma TakeSendersKeepsOwners(s: Life, ipOf: map<ClientId, Ip>)
    requires Inv(s, ipOf) && Enabled(s, ipOf, TakeSenders)
    ensures var s' := Next(s, ipOf, TakeSenders);
            TasksOk(s', ipOf) && ActiveOk(s') && ManagedOk(s') && NoneForgotten(s')
  {
    hide RoutesOk, SignalsOk, ArmedIds;
  }

  lemma TakeSendersKeeps(s: Life, ipOf: map<ClientId, Ip>)
    requires Inv(s, ipOf) && Enabled(s, ipOf, TakeSenders)
    ensures Inv(Next(s, ipOf, TakeSenders), ipOf)
  {
    hide RoutesOk, ActiveOk, NoneForgotten;
    TakeSendersKeepsOwners(s, ipOf);
  }

  lemma SendRestartKeeps(s: Life, ipOf: map<ClientId, Ip>, sid: nat)
    requires Inv(s, ipOf) && Enabled(s, ipOf, SendRestart(sid))
    ensures Inv(Next(s, ipOf, SendRestart(sid)), ipOf)
  {
    hide RoutesOk;
  }

  lemma StepKeeps(s: Life, ipOf: map<ClientId, Ip>, step: Step)
    requires Injective(ipOf) && Inv(s, ipOf) && Enabled(s, ipOf, step)
    ensures Inv(Next(s, ipOf, step), ipOf)
  {
    hide Inv, Next, Enabled;
    match step
    case CheckAccepting(client) => CheckKeeps(s, ipOf, client);
    case RegisterSession => RegisterKeeps(s, ipOf);
    case ReplaceAndStart => ReplaceKeeps(s, ipOf);
    case InsertCid(sid, prefix) => InsertCidKeeps(s, ipOf, sid, prefix);
    case RemoveCidRoutes(sid, keep) => RemoveCidsKeeps(s, ipOf, sid, keep);
    case SessionCleanup(sid) => SessionCleanupKeeps(s, ipOf, sid);
    case ManagerCleanup(sid) => ManagerCleanupKeeps(s, ipOf, sid);
    case TakeSenders => TakeSendersKeeps(s, ipOf);
    case SendRestart(sid) => SendRestartKeeps(s, ipOf, sid);
    case CloseTracker => CloseTrackerKeeps(s, ipOf);
  }

  lemma CloseTrackerKeeps(s: Life, ipOf: map<ClientId, Ip>)
    requires Inv(s, ipOf) && Enabled(s, ipOf, CloseTracker)
    ensures Inv(Next(s, ipOf, CloseTracker), ipOf)
  {
    hide RoutesOk;
  }

  lemma {:induction false} RunKeeps(s: Life, ipOf: map<ClientId, Ip>, steps: seq<Step>)
    requires Injective(ipOf) && Inv(s, ipOf) && IsRun(s, ipOf, steps)
    ensures Inv(After(s, ipOf, steps), ipOf)
    decreases |steps|
  {
    hide Inv;
    if steps != [] {
      StepKeeps(s, ipOf, steps[0]);
      RunKeeps(Next(s, ipOf, steps[0]), ipOf, steps[1..]);
    }
  }

  lemma Reachable(ipOf: map<ClientId, Ip>, steps: seq<Step>)
    requires Injective(ipOf) && IsRun(START, ipOf, steps)
    ensures Inv(After(START, ipOf, steps), ipOf)
  {
    RunKeeps(START, ipOf, steps);
  }

  // ----- What every run guarantees

  /** Whenever no spawn is under way, manager and registry name the same session for every client. */
  lemma ManagerAndRegistryAgree(ipOf: map<ClientId, Ip>, steps: seq<Step>, client: ClientId)
    requires Injective(ipOf) && IsRun(START, ipOf, steps)
    ensures var s := After(START, ipOf, steps);
            s.lock.Free? ==>
              && (client in s.reg.sessions ==>
                    client in s.managed && s.managed[client].sessionId == s.reg.sessions[client].sessionId)
              && (client in s.managed && !InPhase(s, s.managed[client].sessionId, Cleaned) ==>
                    ActiveId(s.reg, client) == Some(s.managed[client].sessionId))
  {
    Reachable(ipOf, steps);
  }

  /**
   In every reachable state, packets for a client's address, and for a registered connection id, go to
   a session that is active and runs (or is about to); a client without an active session has no
   route.
   */
  lemma RoutesLeadToActiveSessions(ipOf: map<ClientId, Ip>, steps: seq<Step>)
    requires Injective(ipOf) && IsRun(START, ipOf, steps)
    ensures var s := After(START, ipOf, steps);
            && (forall c :: c in ipOf ==> (ipOf[c] in s.reg.ipRoutes <==> c in s.reg.sessions))
            && (forall ip :: ip in s.reg.ipRoutes ==> exists c :: c in ipOf && ipOf[c] == ip)
            && (forall c :: c in s.reg.sessions ==>
                  c in ipOf && ipOf[c] in s.reg.ipRoutes && s.reg.ipRoutes[ipOf[c]].tx == s.reg.sessions[c].sessionId)
            && (forall p :: p in s.reg.cidRoutes ==>
                  exists c :: c in s.reg.sessions && s.reg.sessions[c].sessionId == s.reg.cidRoutes[p].tx)
            && (forall c :: c in s.reg.sessions ==>
                  var n := s.reg.sessions[c].sessionId;
                  InPhase(s, n, Running) || s.lock == Registered(c, n))
  {
    Reachable(ipOf, steps);
    var s := After(START, ipOf, steps);
    RoutesRead(s, ipOf);
  }

  lemma RoutesRead(s: Life, ipOf: map<ClientId, Ip>)
    requires Injective(ipOf) && Inv(s, ipOf)
    ensures forall ip :: ip in s.reg.ipRoutes ==> exists c :: c in ipOf && ipOf[c] == ip
    ensures forall c :: c in ipOf ==> (ipOf[c] in s.reg.ipRoutes <==> c in s.reg.sessions)
    ensures forall p :: p in s.reg.cidRoutes ==>
      exists c :: c in s.reg.sessions && s.reg.sessions[c].sessionId == s.reg.cidRoutes[p].tx
  {
    forall ip | ip in s.reg.ipRoutes ensures exists c :: c in ipOf && ipOf[c] == ip {
      var c := s.reg.ipRoutes[ip].clientId;
      assert c in s.reg.sessions && c in ipOf && ipOf[c] == ip;
    }
    forall p | p in s.reg.cidRoutes
      ensures exists c :: c in s.reg.sessions && s.reg.sessions[c].sessionId == s.reg.cidRoutes[p].tx
    {
      assert Owned(s.reg, s.reg.cidRoutes[p]);
    }
  }

  /** A later session of the same client has started. */
  ghost predicate Superseded(s: Life, n: nat)
    requires n in s.tasks
  {
    exists m :: m in s.tasks && m > n && s.tasks[m].client == s.tasks[n].client
  }

  /** Ids grow: a session being started is the latest, and the managed one is its client's latest. */
  ghost predicate OrderOk(s: Life) {
    && (s.lock.Registered? ==> forall n :: n in s.tasks ==> n < s.lock.sid)
    && (forall n :: n in s.tasks && s.tasks[n].client in s.managed ==> n <= s.managed[s.tasks[n].client].sessionId)
    && (forall n :: n in s.replaced ==> n in s.tasks && Superseded(s, n))
  }

  lemma StillSuperseded(s: Life, s': Life, n: nat)
    requires n in s.tasks && Superseded(s, n)
    requires forall m :: m in s.tasks ==> m in s'.tasks && s'.tasks[m].client == s.tasks[m].client
    ensures n in s'.tasks && Superseded(s', n)
  {
    var m :| m in s.tasks && m > n && s.tasks[m].client == s.tasks[n].client;
    assert m in s'.tasks && s'.tasks[m].client == s'.tasks[n].client;
  }

  lemma ReplaceKeepsOrder(s: Life, ipOf: map<ClientId, Ip>)
    requires Inv(s, ipOf) && OrderOk(s) && s.lock.Registered?
    ensures OrderOk(Replace(s, s.lock.client, s.lock.sid))
  {
    hide RoutesOk, ActiveOk, NoneForgotten, SignalsOk, Superseded;
    var s' := Replace(s, s.lock.client, s.lock.sid);
    forall n | n in s'.replaced ensures n in s'.tasks && Superseded(s', n) {
      if n in s.replaced {
        StillSuperseded(s, s', n);
      } else {
        assert s.lock.sid in s'.tasks && s.lock.sid > n;
        Supersedes(s', n, s.lock.sid);
      }
    }
  }

  lemma Supersedes(s: Life, n: nat, m: nat)
    requires n in s.tasks && m in s.tasks && n < m && s.tasks[n].client == s.tasks[m].client
    ensures Superseded(s, n)
  {
  }

  lemma StepKeepsOrder(s: Life, ipOf: map<ClientId, Ip>, step: Step)
    requires Inv(s, ipOf) && OrderOk(s) && Enabled(s, ipOf, step)
    ensures OrderOk(Next(s, ipOf, step))
  {
    hide RoutesOk, ActiveOk, NoneForgotten, SignalsOk, Superseded;
    hide Register, Remove, BindCid, RemoveCids, Replace, ArmedIds;
    if step.ReplaceAndStart? {
      ReplaceKeepsOrder(s, ipOf);
    } else {
      var s' := Next(s, ipOf, step);
      forall n | n in s'.replaced ensures n in s'.tasks && Superseded(s', n) {
        StillSuperseded(s, s', n);
      }
    }
  }

  lemma {:induction false} RunKeepsOrder(s: Life, ipOf: map<ClientId, Ip>, steps: seq<Step>)
    requires Injective(ipOf) && Inv(s, ipOf) && OrderOk(s) && IsRun(s, ipOf, steps)
    ensures OrderOk(After(s, ipOf, steps))
    decreases |steps|
  {
    hide Inv, OrderOk, Next, Enabled;
    if steps != [] {
      StepKeeps(s, ipOf, steps[0]);
      StepKeepsOrder(s, ipOf, steps[0]);
      RunKeepsOrder(Next(s, ipOf, steps[0]), ipOf, steps[1..]);
    }
  }

  lemma ReachableInOrder(ipOf: map<ClientId, Ip>, steps: seq<Step>)
    requires Injective(ipOf) && IsRun(START, ipOf, steps)
    ensures Inv(After(START, ipOf, steps), ipOf) && OrderOk(After(START, ipOf, steps))
  {
    hide Next, Enabled, After, IsRun;
    RunKeeps(START, ipOf, steps);
    RunKeepsOrder(START, ipOf, steps);
  }

  /** What session `n` has been sent, told from the tasks alone. */
  ghost predicate ToldOnce(s: Life, n: nat)
    requires n in s.tasks
  {
    && n in s.sent
    && (s.sent[n] == [] || s.sent[n] == [Takeover] || s.sent[n] == [ServerRestart])
    && (s.sent[n] == [Takeover] ==> Superseded(s, n))
    && (s.sent[n] == [ServerRestart] ==> !s.accepting)
    && (s.tasks[n].phase != Done ==>
          && (s.sent[n] == [Takeover] <==> Superseded(s, n))
          && (!s.accepting && s.pending == {} ==> (s.sent[n] == [ServerRestart] <==> !Superseded(s, n))))
  }

  /**
   Every session is sent at most one reason to stop. An unfinished one has been sent a takeover exactly
   if a later session of its client has started; once shutdown has sent all its notices, every other
   unfinished one has been sent a restart.
   */
  lemma ShutdownExactlyOnce(ipOf: map<ClientId, Ip>, steps: seq<Step>, n: nat)
    requires Injective(ipOf) && IsRun(START, ipOf, steps) && n in After(START, ipOf, steps).tasks
    ensures ToldOnce(After(START, ipOf, steps), n)
  {
    hide Inv, OrderOk, ToldOnce, Next, Enabled;
    ReachableInOrder(ipOf, steps);
    Told(After(START, ipOf, steps), ipOf, n);
  }

  lemma Told(s: Life, ipOf: map<ClientId, Ip>, n: nat)
    requires Inv(s, ipOf) && OrderOk(s) && n in s.tasks
    ensures ToldOnce(s, n)
  {
    hide RoutesOk, ActiveOk, Superseded;
    if s.tasks[n].phase != Done {
      NotSuperseded(s, ipOf, n);
    }
  }

  lemma NotSuperseded(s: Life, ipOf: map<ClientId, Ip>, n: nat)
    requires Inv(s, ipOf) && OrderOk(s) && n in s.tasks && s.tasks[n].phase != Done
    ensures n !in s.replaced ==> !Superseded(s, n)
  {
    hide RoutesOk, ActiveOk, SignalsOk;
  }

  /** No session is started, registered or managed any more once shutdown has begun. */
  lemma NoneAfterShutdown(ipOf: map<ClientId, Ip>, before: seq<Step>, steps: seq<Step>)
    requires Injective(ipOf) && IsRun(START, ipOf, before) && IsRun(After(START, ipOf, before), ipOf, steps)
    requires !After(START, ipOf, before).accepting
    ensures var s := After(START, ipOf, before);
            var s' := After(s, ipOf, steps);
            && !s'.accepting && s'.tasks.Keys == s.tasks.Keys
            && s'.managed.Keys <= s.managed.Keys && s'.reg.sessions.Keys <= s.reg.sessions.Keys
  {
    hide Inv, Next, Enabled;
    Reachable(ipOf, before);
    NothingStarts(After(START, ipOf, before), ipOf, steps);
  }

  lemma {:induction false} NothingStarts(s: Life, ipOf: map<ClientId, Ip>, steps: seq<Step>)
    requires Injective(ipOf) && Inv(s, ipOf) && !s.accepting && IsRun(s, ipOf, steps)
    ensures var s' := After(s, ipOf, steps);
            && !s'.accepting && s'.tasks.Keys == s.tasks.Keys
            && s'.managed.Keys <= s.managed.Keys && s'.reg.sessions.Keys <= s.reg.sessions.Keys
    decreases |steps|
  {
    hide Inv, Next, Enabled;
    if steps != [] {
      NoneAfterShutdownStep(s, ipOf, steps[0]);
      StepKeeps(s, ipOf, steps[0]);
      NothingStarts(Next(s, ipOf, steps[0]), ipOf, steps[1..]);
    }
  }

  lemma NoneAfterShutdownStep(s: Life, ipOf: map<ClientId, Ip>, step: Step)
    requires Inv(s, ipOf) && !s.accepting && Enabled(s, ipOf, step)
    ensures var s' := Next(s, ipOf, step);
            && !s'.accepting && s'.tasks.Keys == s.tasks.Keys
            && s'.managed.Keys <= s.managed.Keys && s'.reg.sessions.Keys <= s.reg.sessions.Keys
  {
    hide RoutesOk, ActiveOk, SignalsOk, NoneForgotten, WithoutCids;
  }

  // ----- Takeover

  /** What a client's session sees of itself: its entries and the connection ids that lead to it. */
  datatype SessionView = SessionView(
    active: Option<nat>, ipTx: Option<SessionTx>, cids: set<CidPrefix>, managed: Option<nat>)

  function ViewOf(s: Life, client: ClientId, ip: Ip, n: nat): SessionView {
    SessionView(
      ActiveId(s.reg, client),
      if ip in s.reg.ipRoutes then Some(s.reg.ipRoutes[ip].tx) else None,
      set p | p in s.reg.cidRoutes && s.reg.cidRoutes[p].sessionId == n,
      if client in s.managed then Some(s.managed[client].sessionId) else None)
  }

  /** The step belongs to some other session and spawns nothing for the client. */
  predicate Foreign(client: ClientId, n: nat, step: Step) {
    match step
    case CheckAccepting(c) => c != client
    case InsertCid(sid, _) => sid != n
    case RemoveCidRoutes(sid, _) => sid != n
    case SessionCleanup(sid) => sid != n
    case ManagerCleanup(sid) => sid != n
    case _ => true
  }

  ghost predicate Settled(s: Life, client: ClientId, n: nat) {
    && ActiveId(s.reg, client) == Some(n)
    && client in s.managed && s.managed[client].sessionId == n
    && (!s.lock.Free? ==> s.lock.client != client)
  }

  /**
   A client's new session `n` is in place once its spawn has finished, and from then on nothing any
   other session does, the cleanup of the sessions it replaced included, takes away or redirects a
   route or an entry of `n`.
   */
  lemma TakeoverIsFinal(ipOf: map<ClientId, Ip>, before: seq<Step>, client: ClientId, n: nat, steps: seq<Step>)
    requires Injective(ipOf) && IsRun(START, ipOf, before) && After(START, ipOf, before).lock == Registered(client, n)
    requires IsRun(Replace(After(START, ipOf, before), client, n), ipOf, steps)
    requires forall i :: 0 <= i < |steps| ==> Foreign(client, n, steps[i])
    ensures client in ipOf
    ensures var s := Replace(After(START, ipOf, before), client, n);
            var s' := After(s, ipOf, steps);
            && ViewOf(s', client, ipOf[client], n) == ViewOf(s, client, ipOf[client], n)
            && ActiveId(s'.reg, client) == Some(n)
            && ipOf[client] in s'.reg.ipRoutes && s'.reg.ipRoutes[ipOf[client]].tx == n
            && client in s'.managed && s'.managed[client].sessionId == n
  {
    hide Inv, Settled, ViewOf, Replace;
    var s0 := After(START, ipOf, before);
    Reachable(ipOf, before);
    Placed(s0, ipOf, client, n);
    var s := Replace(s0, client, n);
    ForeignRun(s, ipOf, client, n, steps);
    RunKeeps(s, ipOf, steps);
    RouteOfSettled(After(s, ipOf, steps), ipOf, client, n);
  }

  lemma Placed(s: Life, ipOf: map<ClientId, Ip>, client: ClientId, n: nat)
    requires Injective(ipOf) && Inv(s, ipOf) && s.lock == Registered(client, n)
    ensures client in ipOf && Inv(Replace(s, client, n), ipOf) && Settled(Replace(s, client, n), client, n)
  {
    hide RoutesOk, ActiveOk, ManagedOk, NoneForgotten, SignalsOk;
    StepKeeps(s, ipOf, ReplaceAndStart);
  }

  lemma RouteOfSettled(s: Life, ipOf: map<ClientId, Ip>, client: ClientId, n: nat)
    requires client in ipOf && Inv(s, ipOf) && Settled(s, client, n)
    ensures ActiveId(s.reg, client) == Some(n)
    ensures ipOf[client] in s.reg.ipRoutes && s.reg.ipRoutes[ipOf[client]].tx == n
    ensures client in s.managed && s.managed[client].sessionId == n
  {
    hide TasksOk, ManagedOk, NoneForgotten, SignalsOk;
  }

  lemma {:induction false} ForeignRun(s: Life, ipOf: map<ClientId, Ip>, client: ClientId, n: nat, steps: seq<Step>)
    requires Injective(ipOf) && Inv(s, ipOf) && IsRun(s, ipOf, steps)
    requires client in ipOf && Settled(s, client, n)
    requires forall i :: 0 <= i < |steps| ==> Foreign(client, n, steps[i])
    ensures var s' := After(s, ipOf, steps);
            Settled(s', client, n) && ViewOf(s', client, ipOf[client], n) == ViewOf(s, client, ipOf[client], n)
    decreases |steps|
  {
    hide ViewOf, Settled, Inv;
    if steps != [] {
      StepKeeps(s, ipOf, steps[0]);
      ForeignStep(s, ipOf, client, n, steps[0]);
      ForeignRun(Next(s, ipOf, steps[0]), ipOf, client, n, steps[1..]);
    }
  }

  lemma ForeignStep(s: Life, ipOf: map<ClientId, Ip>, client: ClientId, n: nat, step: Step)
    requires Injective(ipOf) && Inv(s, ipOf) && Enabled(s, ipOf, step)
    requires client in ipOf && Settled(s, client, n) && Foreign(client, n, step)
    ensures var s' := Next(s, ipOf, step);
            Settled(s', client, n) && ViewOf(s', client, ipOf[client], n) == ViewOf(s, client, ipOf[client], n)
  {
    hide Inv, Next, Enabled, ViewOf, SameCids;
    ForeignRoutes(s, ipOf, client, n, step);
    ForeignManager(s, ipOf, client, n, step);
    SameView(s, Next(s, ipOf, step), client, ipOf[client], n);
  }

  lemma ForeignManager(s: Life, ipOf: map<ClientId, Ip>, client: ClientId, n: nat, step: Step)
    requires Inv(s, ipOf) && Enabled(s, ipOf, step) && Settled(s, client, n) && Foreign(client, n, step)
    ensures var s' := Next(s, ipOf, step);
            && client in s'.managed && s'.managed[client].sessionId == n
            && (!s'.lock.Free? ==> s'.lock.client != client)
  {
    hide Register, Remove, BindCid, RemoveCids;
    hide RoutesOk, TasksOk, ActiveOk, NoneForgotten, SignalsOk, ArmedIds;
  }

  lemma SameView(s: Life, s': Life, client: ClientId, ip: Ip, n: nat)
    requires SameFor(s.reg, s'.reg, client, ip, n)
    requires client in s.managed && client in s'.managed && s.managed[client].sessionId == s'.managed[client].sessionId
    ensures ViewOf(s', client, ip, n) == ViewOf(s, client, ip, n)
  {
  }

  lemma ForeignRoutes(s: Life, ipOf: map<ClientId, Ip>, client: ClientId, n: nat, step: Step)
    requires Injective(ipOf) && Inv(s, ipOf) && Enabled(s, ipOf, step)
    requires client in ipOf && Settled(s, client, n) && Foreign(client, n, step)
    ensures SameFor(s.reg, Next(s, ipOf, step).reg, client, ipOf[client], n)
  {
    hide Register, Remove, BindCid, RemoveCids, SameCids;
    hide NoneForgotten, SignalsOk, SessionsOk, IpsOk, CidsOk, ActiveOk, ManagedOk, ArmedIds, Disarmed;
    SameAsItself(s.reg, n);
    match step
    case RegisterSession => ForeignRegister(s.reg, s.lock.client, s.reg.nextSessionId, ipOf, client, n);
    case SessionCleanup(sid) => ForeignRemove(s.reg, sid, s.tasks[sid].client, ipOf, client, n);
    case InsertCid(sid, prefix) => ForeignCids(s.reg, s.tasks[sid].client, sid, prefix, None, n);
    case RemoveCidRoutes(sid, keep) => ForeignCids(s.reg, s.tasks[sid].client, sid, [], keep, n);
    case _ =>
  }

  /** Entries and routes of session `n` are the same in both. */
  ghost predicate SameFor(r: Routes, r': Routes, client: ClientId, ip: Ip, n: nat) {
    && ActiveId(r', client) == ActiveId(r, client)
    && (ip in r'.ipRoutes <==> ip in r.ipRoutes)
    && (ip in r.ipRoutes && ip in r'.ipRoutes ==> r'.ipRoutes[ip] == r.ipRoutes[ip])
    && SameCids(r, r', n)
  }

  ghost predicate SameCids(r: Routes, r': Routes, n: nat) {
    forall p ::
      (p in r'.cidRoutes && r'.cidRoutes[p].sessionId == n) <==> (p in r.cidRoutes && r.cidRoutes[p].sessionId == n)
  }

  lemma SameAsItself(r: Routes, n: nat)
    ensures SameCids(r, r, n)
  {
  }

  lemma ForeignRegister(r: Routes, other: ClientId, tx: SessionTx, ipOf: map<ClientId, Ip>, client: ClientId, n: nat)
    requires Injective(ipOf) && client in ipOf && other in ipOf && other != client
    requires SessionsOk(r, ipOf) && ActiveId(r, client) == Some(n)
    ensures SameFor(r, Register(r, other, ipOf[other], tx), client, ipOf[client], n)
  {
  }

  lemma ForeignRemove(r: Routes, sid: nat, other: ClientId, ipOf: map<ClientId, Ip>, client: ClientId, n: nat)
    requires client in ipOf && other in ipOf && sid != n
    requires SessionsOk(r, ipOf) && IpsOk(r, ipOf) && ActiveId(r, client) == Some(n)
    ensures SameFor(r, Remove(r, sid, other, ipOf[other]), client, ipOf[client], n)
  {
  }

  lemma ForeignCids(r: Routes, other: ClientId, sid: nat, prefix: CidPrefix, keep: Option<CidPrefix>, n: nat)
    requires sid != n
    ensures var r' := BindCid(r, other, sid, prefix, sid).0; SameCids(r, r', n) && r' == r.(cidRoutes := r'.cidRoutes)
    ensures var r' := RemoveCids(r, sid, keep); SameCids(r, r', n) && r' == r.(cidRoutes := r'.cidRoutes)
  {
  }

  // ----- What the steps of a session are for

  /**
   A connection id that no other active session has leads to the session that inserts it, if it is active;
   dropping ids leaves only the kept one; and a session that has cleaned up has no entry and no route.
   */
  lemma StepsTakeEffect(ipOf: map<ClientId, Ip>, steps: seq<Step>, sid: nat, prefix: CidPrefix, keep: Option<CidPrefix>)
    requires Injective(ipOf) && IsRun(START, ipOf, steps) && InPhase(After(START, ipOf, steps), sid, Running)
    ensures var s := After(START, ipOf, steps);
            var client := s.tasks[sid].client;
            client in ipOf && BoundBy(s, ipOf, client, sid, prefix) && DroppedBy(s, ipOf, sid, keep)
            && GoneAfter(s, ipOf, client, sid)
  {
    hide Inv, Next, Enabled, BoundBy, DroppedBy, GoneAfter;
    Reachable(ipOf, steps);
    Effects(After(START, ipOf, steps), ipOf, sid, prefix, keep);
  }

  ghost predicate BoundBy(s: Life, ipOf: map<ClientId, Ip>, client: ClientId, sid: nat, prefix: CidPrefix)
    requires InPhase(s, sid, Running)
  {
    var s' := Next(s, ipOf, InsertCid(sid, prefix));
    ActiveId(s.reg, client) == Some(sid) && (prefix in s.reg.cidRoutes ==> s.reg.cidRoutes[prefix].sessionId == sid)
    ==> prefix in s'.reg.cidRoutes && s'.reg.cidRoutes[prefix].tx == sid
  }

  ghost predicate DroppedBy(s: Life, ipOf: map<ClientId, Ip>, sid: nat, keep: Option<CidPrefix>)
    requires InPhase(s, sid, Running)
  {
    var s' := Next(s, ipOf, RemoveCidRoutes(sid, keep));
    CidsOf(s'.reg, sid) == set p | p in CidsOf(s.reg, sid) && keep == Some(p)
  }

  ghost predicate GoneAfter(s: Life, ipOf: map<ClientId, Ip>, client: ClientId, sid: nat)
    requires InPhase(s, sid, Running) && client == s.tasks[sid].client && client in ipOf
  {
    var s' := Next(s, ipOf, SessionCleanup(sid));
    && CidsOf(s'.reg, sid) == {} && ActiveId(s'.reg, client) != Some(sid)
    && (ipOf[client] in s'.reg.ipRoutes ==> s'.reg.ipRoutes[ipOf[client]].sessionId != sid)
    && (s.lock.Free? ==> Forgotten(s', ipOf, client, sid))
  }

  /** The manager can do its part at once, and then has no entry of the session. */
  ghost predicate Forgotten(s: Life, ipOf: map<ClientId, Ip>, client: ClientId, sid: nat) {
    && Enabled(s, ipOf, ManagerCleanup(sid))
    && var s' := Next(s, ipOf, ManagerCleanup(sid));
    && InPhase(s', sid, Done)
    && (client in s'.managed ==> s'.managed[client].sessionId != sid)
  }

  lemma Effects(s: Life, ipOf: map<ClientId, Ip>, sid: nat, prefix: CidPrefix, keep: Option<CidPrefix>)
    requires Inv(s, ipOf) && InPhase(s, sid, Running)
    ensures var client := s.tasks[sid].client;
            client in ipOf && BoundBy(s, ipOf, client, sid, prefix) && DroppedBy(s, ipOf, sid, keep)
            && GoneAfter(s, ipOf, client, sid)
  {
    hide RoutesOk, ActiveOk, ManagedOk, NoneForgotten, SignalsOk, GoneAfter, DroppedBy;
    GoneEffect(s, ipOf, sid);
    DroppedEffect(s, ipOf, sid, keep);
  }

  lemma DroppedEffect(s: Life, ipOf: map<ClientId, Ip>, sid: nat, keep: Option<CidPrefix>)
    requires InPhase(s, sid, Running)
    ensures DroppedBy(s, ipOf, sid, keep)
  {
  }

  lemma GoneEffect(s: Life, ipOf: map<ClientId, Ip>, sid: nat)
    requires InPhase(s, sid, Running) && s.tasks[sid].client in ipOf
    ensures GoneAfter(s, ipOf, s.tasks[sid].client, sid)
  {
    hide Forgotten;
    ForgottenEffect(Next(s, ipOf, SessionCleanup(sid)), ipOf, sid);
  }

  lemma ForgottenEffect(s: Life, ipOf: map<ClientId, Ip>, sid: nat)
    requires InPhase(s, sid, Cleaned)
    ensures s.lock.Free? ==> Forgotten(s, ipOf, s.tasks[sid].client, sid)
  {
  }
}
