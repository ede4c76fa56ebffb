/**
 The session manager (slt-server/src/auth/session_manager.rs), tied to the lifecycle machine.
 */
module Manager {
  import opened Bytes
  import opened Registry
  import opened Lifecycle

  /** Everybody's shutdown channel after a restart notice to `ids`. */
  function Restarted(sent: map<nat, seq<Reason>>, ids: set<nat>): map<nat, seq<Reason>> {
    map n | n in sent :: if n in ids then sent[n] + [ServerRestart] else sent[n]
  }

  /** Different clients' sessions have different ids, and each has a shutdown channel. */
  ghost predicate Proper(m: map<ClientId, Managed>, sent: map<nat, seq<Reason>>) {
    && (forall c :: c in m ==> m[c].sessionId in sent)
    && (forall c, d :: c in m && d in m && m[c].sessionId == m[d].sessionId ==> c == d)
  }

  class SessionManager {
    const registry: SessionRegistry
    var accepting: bool
    var sessions: map<ClientId, Managed>
    var tasks: map<nat, Task>
    var closed: bool
    var sent: map<nat, seq<Reason>>
    ghost var held: set<nat>
    ghost var replaced: set<nat>

    /** The lifecycle state while nobody has the lock. */
    ghost function View(): Life
      reads this, registry
    {
      Life(registry.State(), accepting, sessions, Free, tasks, sent, {}, closed, held, replaced)
    }

    constructor (registry: SessionRegistry)
      requires registry.State() == EMPTY
      ensures this.registry == registry && View() == START
    {
      this.registry := registry;
      accepting, closed := true, false;
      sessions, tasks, sent := map[], map[], map[];
      held, replaced := {}, {};
    }

    /** Refuses when shutting down; otherwise the three spawn steps, one after the other. */
    method SpawnSession(client: ClientId, ip: Ip) returns (ok: bool)
      modifies this, registry
      ensures ok == old(accepting)
      ensures !ok ==> View() == old(View())
      ensures ok ==> View() == Spawned(old(View()), client, ip)
    {
      if !accepting {
        return false;
      }
      var tx := registry.nextSessionId;
      var handle := registry.RegisterSession(client, ip, tx);
      var previous := if client in sessions then Some(sessions[client]) else None;
      sessions := sessions[client := Managed(handle.sessionId, true)];
      tasks := tasks[handle.sessionId := Task(client, Running)];
      sent := sent[handle.sessionId := []];
      if previous.Some? {
        if previous.value.armed {
          sent := Signal(sent, previous.value.sessionId, Takeover);
        }
        replaced := replaced + {previous.value.sessionId};
      }
      ok := true;
    }

    /** The end of a session task, after `session.run()` has cleaned up the registry. */
    method RemoveSessionIfCurrent(client: ClientId, sid: nat)
      requires sid in tasks && tasks[sid] == Task(client, Cleaned)
      modifies this
      ensures View() == Next(old(View()), map[], ManagerCleanup(sid))
    {
      if client in sessions && sessions[client].sessionId == sid {
        sessions := sessions - {client};
      }
      tasks := tasks[sid := Task(client, Done)];
    }

    /** Takes every sender there is, in whatever order the map yields the clients. */
    method TakeAllSenders() returns (shutdowns: seq<nat>)
      requires Proper(sessions, sent)
      modifies this`sessions
      ensures sessions == Disarmed(old(sessions))
      ensures Unique(shutdowns) && (forall n :: n in shutdowns <==> n in ArmedIds(old(sessions)))
    {
      hide TakenFrom, Proper, Unique;
      shutdowns := [];
      ghost var from: seq<ClientId> := [];
      var rest := sessions.Keys;
      TakenNone(sessions);
      while rest != {}
        invariant sessions.Keys == old(sessions).Keys && rest <= sessions.Keys
        invariant forall c :: c in sessions ==>
          sessions[c] == if c in rest then old(sessions)[c] else Managed(old(sessions)[c].sessionId, false)
        invariant TakenFrom(old(sessions), rest, from, shutdowns)
        decreases |rest|
      {
        var c :| c in rest;
        var session := sessions[c];
        TakeOne(old(sessions), rest, from, shutdowns, c);
        if session.armed {
          shutdowns := shutdowns + [session.sessionId];
          from := from + [c];
        }
        rest := rest - {c};
        sessions := sessions[c := Managed(session.sessionId, false)];
      }
      TakenAll(old(sessions), sent, from, shutdowns);
    }

    method SendRestarts(shutdowns: seq<nat>)
      requires Unique(shutdowns)
      modifies this`sent
      ensures sent == Restarted(old(sent), set n | n in shutdowns)
    {
      var i := 0;
      while i < |shutdowns|
        invariant 0 <= i <= |shutdowns| && sent.Keys == old(sent).Keys
        invariant forall n :: n in sent && n in shutdowns[..i] ==> sent[n] == old(sent)[n] + [ServerRestart]
        invariant forall n :: n in sent && n !in shutdowns[..i] ==> sent[n] == old(sent)[n]
      {
        assert shutdowns[..i + 1] == shutdowns[..i] + [shutdowns[i]];
        assert shutdowns[i] !in shutdowns[..i];
        sent := Signal(sent, shutdowns[i], ServerRestart);
        i := i + 1;
      }
      assert shutdowns[..i] == shutdowns;
    }

    /** Refuses new sessions, sends everybody still managed a restart notice, closes the tracker. */
    method StartShutdown()
      requires Proper(sessions, sent)
      modifies this
      ensures View() == ShutDown(old(View()))
    {
      hide Proper, Unique, ArmedIds;
      accepting := false;
      held := held + ArmedIds(sessions);
      var shutdowns := TakeAllSenders();
      SendRestarts(shutdowns);
      assert (set n | n in shutdowns) == ArmedIds(old(sessions));
      closed := true;
    }
  }

  /** `ids` are the sessions of the clients `from`, which are those visited that had a sender. */
  ghost predicate TakenFrom(m: map<ClientId, Managed>, rest: set<ClientId>, from: seq<ClientId>, ids: seq<nat>) {
    && |from| == |ids|
    && (forall i :: 0 <= i < |from| ==>
          from[i] in m && from[i] !in rest && m[from[i]].armed && m[from[i]].sessionId == ids[i])
    && (forall i, j :: 0 <= i < j < |from| ==> from[i] != from[j])
    && (forall c :: c in m && c !in rest && m[c].armed ==> c in from)
  }

  lemma TakeOne(m: map<ClientId, Managed>, rest: set<ClientId>, from: seq<ClientId>, ids: seq<nat>, c: ClientId)
    requires c in m && c in rest && TakenFrom(m, rest, from, ids)
    ensures m[c].armed ==> TakenFrom(m, rest - {c}, from + [c], ids + [m[c].sessionId])
    ensures !m[c].armed ==> TakenFrom(m, rest - {c}, from, ids)
  {
  }

  lemma TakenNone(m: map<ClientId, Managed>)
    ensures TakenFrom(m, m.Keys, [], [])
  {
  }

  lemma TakenAll(m: map<ClientId, Managed>, sent: map<nat, seq<Reason>>, from: seq<ClientId>, ids: seq<nat>)
    requires Proper(m, sent) && TakenFrom(m, {}, from, ids)
    ensures Unique(ids) && (forall n :: n in ids <==> n in ArmedIds(m))
  {
    forall c | c in m && m[c].armed ensures m[c].sessionId in ids {
      var i :| 0 <= i < |from| && from[i] == c;
      assert ids[i] == m[c].sessionId;
    }
  }

  ghost function Spawned(s: Life, client: ClientId, ip: Ip): Life {
    var n := s.reg.nextSessionId;
    Replace(s.(reg := Register(s.reg, client, ip, n), lock := Registered(client, n)), client, n)
  }

  ghost function ShutDown(s: Life): Life {
    var ids := ArmedIds(s.managed);
    s.(accepting := false, managed := Disarmed(s.managed), sent := Restarted(s.sent, ids), closed := true,
       held := s.held + ids)
  }

  function SpawnSteps(client: ClientId): seq<Step> {
    [CheckAccepting(client), RegisterSession, ReplaceAndStart]
  }

  /** A spawn that nothing interrupts is a run of the lifecycle machine. */
  lemma SpawnedIsRun(s: Life, ipOf: map<ClientId, Ip>, client: ClientId)
    requires s.lock.Free? && s.accepting && client in ipOf && s.reg.nextSessionId < U64_MAX
    ensures IsRun(s, ipOf, SpawnSteps(client)) && After(s, ipOf, SpawnSteps(client)) == Spawned(s, client, ipOf[client])
  {
    hide Register, Replace;
    var steps := SpawnSteps(client);
    var s1 := Next(s, ipOf, steps[0]);
    var s2 := Next(s1, ipOf, RegisterSession);
    var s3 := Next(s2, ipOf, ReplaceAndStart);
    assert steps[1..] == [RegisterSession, ReplaceAndStart];
    assert [RegisterSession, ReplaceAndStart][1..] == [ReplaceAndStart];
    assert IsRun(s3, ipOf, []) && After(s3, ipOf, []) == s3;
    assert IsRun(s2, ipOf, [ReplaceAndStart]) && After(s2, ipOf, [ReplaceAndStart]) == s3;
    assert IsRun(s1, ipOf, steps[1..]) && After(s1, ipOf, steps[1..]) == s3;
  }

  function Sends(order: seq<nat>): seq<Step> {
    if order == [] then [] else [SendRestart(order[0])] + Sends(order[1..])
  }

  lemma SendOne(sent: map<nat, seq<Reason>>, n: nat, rest: set<nat>)
    requires n !in rest
    ensures Restarted(Signal(sent, n, ServerRestart), rest) == Restarted(sent, rest + {n})
  {
  }

  /** However the restart notices are ordered, the outcome is the same. */
  lemma {:induction false} SendsInAnyOrder(s: Life, ipOf: map<ClientId, Ip>, order: seq<nat>)
    requires Unique(order) && s.pending == (set n | n in order)
    ensures IsRun(s, ipOf, Sends(order))
    ensures After(s, ipOf, Sends(order)) == s.(sent := Restarted(s.sent, s.pending), pending := {})
    decreases |order|
  {
    hide Signal, Restarted;
    if order == [] {
      assert s.pending == {};
      RestartedNone(s.sent);
      assert Sends(order) == [];
    } else {
      assert order == [order[0]] + order[1..];
      assert order[0] in s.pending && s.pending == (set n | n in order[1..]) + {order[0]};
      var s1 := Next(s, ipOf, SendRestart(order[0]));
      assert s1.pending == (set n | n in order[1..]);
      SendsInAnyOrder(s1, ipOf, order[1..]);
      SendOne(s.sent, order[0], s1.pending);
      assert Sends(order)[0] == SendRestart(order[0]) && Sends(order)[1..] == Sends(order[1..]);
    }
  }

  /** An uninterrupted shutdown is a run of the lifecycle machine. */
  lemma ShutDownIsRun(s: Life, ipOf: map<ClientId, Ip>, order: seq<nat>)
    requires s.lock.Free? && s.pending == {} && Unique(order) && ArmedIds(s.managed) == (set n | n in order)
    ensures var taken := Next(s, ipOf, TakeSenders);
            && IsRun(taken, ipOf, Sends(order))
            && Enabled(After(taken, ipOf, Sends(order)), ipOf, CloseTracker)
            && Next(After(taken, ipOf, Sends(order)), ipOf, CloseTracker) == ShutDown(s)
  {
    SendsInAnyOrder(Next(s, ipOf, TakeSenders), ipOf, order);
  }

  lemma RestartedNone(sent: map<nat, seq<Reason>>)
    ensures Restarted(sent, {}) == sent
  {
  }

  /** A reachable manager meets what shutdown needs. */
  lemma ReachableIsProper(ipOf: map<ClientId, Ip>, steps: seq<Step>)
    requires Injective(ipOf) && IsRun(START, ipOf, steps)
    ensures Proper(After(START, ipOf, steps).managed, After(START, ipOf, steps).sent)
  {
    Reachable(ipOf, steps);
  }

  /**
   Every reachable route table is sound if and only if no two clients share an address: two spawns
   suffice to break it otherwise.
   */
  lemma SoundExactlyIfInjective(ipOf: map<ClientId, Ip>)
    ensures Injective(ipOf)
       <==> forall steps :: IsRun(START, ipOf, steps) ==> RoutesOk(After(START, ipOf, steps).reg, ipOf)
  {
    hide IsRun, After, SessionsOk, IpsOk, CidsOk, TasksOk, ActiveOk, ManagedOk, NoneForgotten, SignalsOk;
    if Injective(ipOf) {
      forall steps | IsRun(START, ipOf, steps) ensures RoutesOk(After(START, ipOf, steps).reg, ipOf) {
        Reachable(ipOf, steps);
      }
    } else {
      var c, d :| c in ipOf && d in ipOf && ipOf[c] == ipOf[d] && c != d;
      TwoSpawns(ipOf, c, d);
    }
  }

  lemma TwoSpawns(ipOf: map<ClientId, Ip>, c: ClientId, d: ClientId)
    requires c in ipOf && d in ipOf && ipOf[c] == ipOf[d] && c != d
    ensures exists steps :: IsRun(START, ipOf, steps) && !IpsOk(After(START, ipOf, steps).reg, ipOf)
  {
    hide IsRun, After;
    var first, second := SpawnSteps(c), SpawnSteps(d);
    SpawnedIsRun(START, ipOf, c);
    var s := After(START, ipOf, first);
    SpawnedIsRun(s, ipOf, d);
    RunThen(START, ipOf, first, second);
    var r := After(START, ipOf, first + second).reg;
    assert r == Register(Register(EMPTY, c, ipOf[c], 1), d, ipOf[d], 2);
    assert c in r.sessions && r.ipRoutes[ipOf[c]].clientId == d;
  }

  lemma {:induction false} RunThen(s: Life, ipOf: map<ClientId, Ip>, a: seq<Step>, b: seq<Step>)
    requires IsRun(s, ipOf, a) && IsRun(After(s, ipOf, a), ipOf, b)
    ensures IsRun(s, ipOf, a + b) && After(s, ipOf, a + b) == After(After(s, ipOf, a), ipOf, b)
    decreases |a|
  {
    hide Next, Enabled;
    if a == [] {
      assert a + b == b;
    } else {
      RunThen(Next(s, ipOf, a[0]), ipOf, a[1..], b);
      assert (a + b)[1..] == a[1..] + b;
    }
  }
}
