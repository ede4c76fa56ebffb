/**
 The session registry (slt-server/src/registry.rs): client, address and connection-id routes to
 the active session of each client.
 */
module Registry {
  import opened Bytes

  type ClientId = nat
  type Ip = nat
  type CidPrefix = seq<Byte>
  type SessionTx = nat

  datatype SessionHandle = SessionHandle(sessionId: nat, clientId: ClientId, assignedIpv4: Ip, tx: SessionTx)

  datatype CidRoute = CidRoute(sessionId: nat, tx: SessionTx)

  datatype CidInsertError =
    | PrefixCollision(prefix: CidPrefix)
    | StaleSession(clientId: ClientId, sessionId: nat, activeSessionId: Option<nat>)

  /** The state behind the registry lock. */
  datatype Routes = Routes(
    nextSessionId: nat,
    sessions: map<ClientId, SessionHandle>,
    ipRoutes: map<Ip, SessionHandle>,
    cidRoutes: map<CidPrefix, CidRoute>)

  const EMPTY: Routes := Routes(1, map[], map[], map[])

  function ActiveId(r: Routes, client: ClientId): Option<nat> {
    if client in r.sessions then Some(r.sessions[client].sessionId) else None
  }

  /** The connection-id routes left once those of `sid` go, except possibly one. */
  function WithoutCids(cids: map<CidPrefix, CidRoute>, sid: nat, keep: Option<CidPrefix>): map<CidPrefix, CidRoute> {
    map p | p in cids && (cids[p].sessionId != sid || Some(p) == keep) :: cids[p]
  }

  function Register(r: Routes, client: ClientId, ip: Ip, tx: SessionTx): Routes {
    var handle := SessionHandle(r.nextSessionId, client, ip, tx);
    var next := Min(r.nextSessionId + 1, U64_MAX);
    if client in r.sessions then
      var prev := r.sessions[client];
      var ips := if prev.assignedIpv4 != ip then r.ipRoutes - {prev.assignedIpv4} else r.ipRoutes;
      Routes(next, r.sessions[client := handle], ips[ip := handle], WithoutCids(r.cidRoutes, prev.sessionId, None))
    else
      Routes(next, r.sessions[client := handle], r.ipRoutes[ip := handle], r.cidRoutes)
  }

  function Remove(r: Routes, sid: nat, client: ClientId, ip: Ip): Routes {
    r.(sessions := if ActiveId(r, client) == Some(sid) then r.sessions - {client} else r.sessions,
       ipRoutes := if ip in r.ipRoutes && r.ipRoutes[ip].sessionId == sid then r.ipRoutes - {ip} else r.ipRoutes,
       cidRoutes := WithoutCids(r.cidRoutes, sid, None))
  }

  function BindCid(r: Routes, client: ClientId, sid: nat, prefix: CidPrefix, tx: SessionTx)
    : (Routes, Result<(), CidInsertError>)
  {
    if ActiveId(r, client) != Some(sid) then (r, Err(StaleSession(client, sid, ActiveId(r, client))))
    else if prefix in r.cidRoutes && r.cidRoutes[prefix].sessionId != sid then (r, Err(PrefixCollision(prefix)))
    else (r.(cidRoutes := r.cidRoutes[prefix := CidRoute(sid, tx)]), Ok(()))
  }

  function RemoveCids(r: Routes, sid: nat, keep: Option<CidPrefix>): Routes {
    r.(cidRoutes := WithoutCids(r.cidRoutes, sid, keep))
  }

  class SessionRegistry {
    var nextSessionId: nat
    var sessions: map<ClientId, SessionHandle>
    var ipRoutes: map<Ip, SessionHandle>
    var cidRoutes: map<CidPrefix, CidRoute>

    ghost function State(): Routes
      reads this
    {
      Routes(nextSessionId, sessions, ipRoutes, cidRoutes)
    }

    constructor ()
      ensures State() == EMPTY
    {
      nextSessionId := 1;
      sessions, ipRoutes, cidRoutes := map[], map[], map[];
    }

    method RegisterSession(client: ClientId, ip: Ip, tx: SessionTx) returns (handle: SessionHandle)
      modifies this
      ensures State() == Register(old(State()), client, ip, tx)
      ensures handle == SessionHandle(old(nextSessionId), client, ip, tx) == sessions[client] == ipRoutes[ip]
    {
      var sessionId := nextSessionId;
      nextSessionId := Min(nextSessionId + 1, U64_MAX);
      handle := SessionHandle(sessionId, client, ip, tx);
      var replaced := client in sessions;
      if replaced {
        var prev := sessions[client];
        sessions := sessions[client := handle];
        if prev.assignedIpv4 != ip {
          ipRoutes := ipRoutes - {prev.assignedIpv4};
        }
        cidRoutes := WithoutCids(cidRoutes, prev.sessionId, None);
      } else {
        sessions := sessions[client := handle];
      }
      ipRoutes := ipRoutes[ip := handle];
    }

    method RemoveSession(sid: nat, client: ClientId, ip: Ip)
      modifies this
      ensures State() == Remove(old(State()), sid, client, ip)
    {
      if client in sessions && sessions[client].sessionId == sid {
        sessions := sessions - {client};
      }
      if ip in ipRoutes && ipRoutes[ip].sessionId == sid {
        ipRoutes := ipRoutes - {ip};
      }
      cidRoutes := WithoutCids(cidRoutes, sid, None);
    }

    method InsertCid(client: ClientId, sid: nat, prefix: CidPrefix, tx: SessionTx)
      returns (r: Result<(), CidInsertError>)
      modifies this
      ensures (State(), r) == BindCid(old(State()), client, sid, prefix, tx)
    {
      var active := if client in sessions then Some(sessions[client].sessionId) else None;
      if active != Some(sid) {
        return Err(StaleSession(client, sid, active));
      }
      if prefix in cidRoutes && cidRoutes[prefix].sessionId != sid {
        return Err(PrefixCollision(prefix));
      }
      cidRoutes := cidRoutes[prefix := CidRoute(sid, tx)];
      return Ok(());
    }

    method RemoveCidsForSession(sid: nat)
      modifies this
      ensures State() == RemoveCids(old(State()), sid, None)
    {
      cidRoutes := WithoutCids(cidRoutes, sid, None);
    }

    method RemoveCidsForSessionExcept(sid: nat, keep: CidPrefix)
      modifies this
      ensures State() == RemoveCids(old(State()), sid, Some(keep))
    {
      cidRoutes := WithoutCids(cidRoutes, sid, Some(keep));
    }

    /** In a sound table a connection id leads to an active session's channel or nowhere. */
    method LookupCid(prefix: CidPrefix, ghost ipOf: map<ClientId, Ip>) returns (tx: Option<SessionTx>)
      ensures tx == if prefix in cidRoutes then Some(cidRoutes[prefix].tx) else None
      ensures RoutesOk(State(), ipOf) && tx.Some? ==> exists c :: c in sessions && sessions[c].tx == tx.value
    {
      tx := if prefix in cidRoutes then Some(cidRoutes[prefix].tx) else None;
      if prefix in cidRoutes && CidsOk(State()) {
        assert Owned(State(), cidRoutes[prefix]);
      }
    }

    /** In a sound table an address leads to the channel of the active session that has it, if there is one. */
    method LookupIp(ip: Ip, ghost ipOf: map<ClientId, Ip>) returns (tx: Option<SessionTx>)
      ensures tx == if ip in ipRoutes then Some(ipRoutes[ip].tx) else None
      ensures RoutesOk(State(), ipOf) ==>
        && (tx.None? <==> forall c :: c in sessions ==> sessions[c].assignedIpv4 != ip)
        && (tx.Some? ==> exists c :: c in sessions && sessions[c].assignedIpv4 == ip && sessions[c].tx == tx.value)
    {
      tx := if ip in ipRoutes then Some(ipRoutes[ip].tx) else None;
    }
  }

  // ----- The route-table invariant

  /** Every client has its own address. */
  ghost predicate Injective(ipOf: map<ClientId, Ip>) {
    forall c, d :: c in ipOf && d in ipOf && ipOf[c] == ipOf[d] ==> c == d
  }

  ghost predicate SessionsOk(r: Routes, ipOf: map<ClientId, Ip>) {
    && 1 <= r.nextSessionId <= U64_MAX
    && (forall c :: c in r.sessions ==>
          c in ipOf && r.sessions[c].clientId == c && r.sessions[c].assignedIpv4 == ipOf[c]
          && r.sessions[c].sessionId < r.nextSessionId)
    && (forall c, d :: c in r.sessions && d in r.sessions && r.sessions[c].sessionId == r.sessions[d].sessionId ==>
          c == d)
  }

  /** Address routes and active sessions correspond exactly. */
  ghost predicate IpsOk(r: Routes, ipOf: map<ClientId, Ip>) {
    && (forall c :: c in r.sessions && c in ipOf ==> ipOf[c] in r.ipRoutes && r.ipRoutes[ipOf[c]] == r.sessions[c])
    && (forall ip :: ip in r.ipRoutes ==> IpRouteOk(r, ip))
  }

  /** The address leads to the active session of the client that has it. */
  ghost predicate IpRouteOk(r: Routes, ip: Ip)
    requires ip in r.ipRoutes
  {
    var c := r.ipRoutes[ip].clientId;
    c in r.sessions && r.sessions[c] == r.ipRoutes[ip] && r.ipRoutes[ip].assignedIpv4 == ip
  }

  /** The route leads to the channel of an active session. */
  ghost predicate Owned(r: Routes, route: CidRoute) {
    exists c :: c in r.sessions && r.sessions[c].sessionId == route.sessionId && r.sessions[c].tx == route.tx
  }

  ghost predicate CidsOk(r: Routes) {
    forall p :: p in r.cidRoutes ==> Owned(r, r.cidRoutes[p])
  }

  ghost predicate RoutesOk(r: Routes, ipOf: map<ClientId, Ip>) {
    SessionsOk(r, ipOf) && IpsOk(r, ipOf) && CidsOk(r)
  }

  lemma RegisterKeepsSessions(r: Routes, client: ClientId, tx: SessionTx, ipOf: map<ClientId, Ip>)
    requires client in ipOf && SessionsOk(r, ipOf) && r.nextSessionId < U64_MAX
    ensures SessionsOk(Register(r, client, ipOf[client], tx), ipOf)
  {
    hide WithoutCids;
  }

  /** No other active client has the client's address. */
  ghost predicate AddressFree(r: Routes, client: ClientId, ipOf: map<ClientId, Ip>)
    requires client in ipOf
  {
    forall d :: d in r.sessions && d != client && d in ipOf ==> ipOf[d] != ipOf[client]
  }

  lemma RegisterKeepsIps(r: Routes, client: ClientId, tx: SessionTx, ipOf: map<ClientId, Ip>)
    requires client in ipOf && SessionsOk(r, ipOf) && IpsOk(r, ipOf) && AddressFree(r, client, ipOf)
    ensures IpsOk(Register(r, client, ipOf[client], tx), ipOf)
  {
    hide WithoutCids;
  }

  lemma RegisterBreaksIps(r: Routes, client: ClientId, tx: SessionTx, ipOf: map<ClientId, Ip>)
    requires client in ipOf && SessionsOk(r, ipOf) && !AddressFree(r, client, ipOf)
    ensures !IpsOk(Register(r, client, ipOf[client], tx), ipOf)
  {
    hide WithoutCids;
    var r' := Register(r, client, ipOf[client], tx);
    var d :| d in r.sessions && d != client && d in ipOf && ipOf[d] == ipOf[client];
    assert d in r'.sessions && r'.ipRoutes[ipOf[d]].clientId == client;
  }

  /**
   Registration keeps addresses and active sessions in correspondence if and only if no other active
   client has the new session's address.
   */
  lemma RegisterKeepsIpsExactly(r: Routes, client: ClientId, tx: SessionTx, ipOf: map<ClientId, Ip>)
    requires client in ipOf && SessionsOk(r, ipOf) && IpsOk(r, ipOf)
    ensures IpsOk(Register(r, client, ipOf[client], tx), ipOf) <==> AddressFree(r, client, ipOf)
  {
    hide Register, IpsOk, SessionsOk, AddressFree;
    if AddressFree(r, client, ipOf) {
      RegisterKeepsIps(r, client, tx, ipOf);
    } else {
      RegisterBreaksIps(r, client, tx, ipOf);
    }
  }

  /** Active sessions and address routes correspond, whatever addresses the clients were given. */
  ghost predicate Routed(r: Routes) {
    && (forall c :: c in r.sessions ==> RoutedTo(r, c))
    && (forall ip :: ip in r.ipRoutes ==> IpRouteOk(r, ip))
  }

  ghost predicate RoutedTo(r: Routes, c: ClientId)
    requires c in r.sessions
  {
    var h := r.sessions[c];
    h.clientId == c && h.assignedIpv4 in r.ipRoutes && r.ipRoutes[h.assignedIpv4] == h
  }

  ghost predicate HeldByOther(r: Routes, client: ClientId, ip: Ip) {
    exists d :: d in r.sessions && d != client && r.sessions[d].assignedIpv4 == ip
  }

  lemma MoveKeepsRouted(r: Routes, client: ClientId, ip: Ip, tx: SessionTx)
    requires Routed(r) && !HeldByOther(r, client, ip)
    ensures Routed(Register(r, client, ip, tx))
  {
    hide WithoutCids;
    var r' := Register(r, client, ip, tx);
    forall c | c in r'.sessions ensures RoutedTo(r', c) {
      if c != client {
        assert RoutedTo(r, c);
      }
    }
    forall a | a in r'.ipRoutes ensures IpRouteOk(r', a) {
      if a != ip {
        assert IpRouteOk(r, a);
      }
    }
  }

  /**
   A client may also come back under another address: its old route goes, and the tables correspond again
   if and only if no other active client has the new address.
   */
  lemma MovedClientRouted(r: Routes, client: ClientId, ip: Ip, tx: SessionTx)
    requires Routed(r)
    ensures Routed(Register(r, client, ip, tx)) <==> !HeldByOther(r, client, ip)
    ensures client in r.sessions && r.sessions[client].assignedIpv4 != ip ==>
              r.sessions[client].assignedIpv4 !in Register(r, client, ip, tx).ipRoutes
  {
    hide WithoutCids;
    if HeldByOther(r, client, ip) {
      var d :| d in r.sessions && d != client && r.sessions[d].assignedIpv4 == ip;
      var r' := Register(r, client, ip, tx);
      assert RoutedTo(r, d) && d in r'.sessions && !RoutedTo(r', d);
    } else {
      MoveKeepsRouted(r, client, ip, tx);
    }
  }

  lemma StillOwned(r: Routes, r': Routes, route: CidRoute, gone: ClientId)
    requires Owned(r, route) && ActiveId(r, gone) != Some(route.sessionId)
    requires forall c :: c in r.sessions && c != gone ==> c in r'.sessions && r'.sessions[c] == r.sessions[c]
    ensures Owned(r', route)
  {
    var c :| c in r.sessions && r.sessions[c].sessionId == route.sessionId && r.sessions[c].tx == route.tx;
    assert c != gone && c in r'.sessions;
  }

  lemma RegisterKeepsCids(r: Routes, client: ClientId, ip: Ip, tx: SessionTx)
    requires CidsOk(r)
    ensures CidsOk(Register(r, client, ip, tx))
  {
    hide Owned;
    var r' := Register(r, client, ip, tx);
    forall p | p in r'.cidRoutes ensures Owned(r', r'.cidRoutes[p]) {
      StillOwned(r, r', r.cidRoutes[p], client);
    }
  }

  lemma RegisterKeepsRoutes(r: Routes, client: ClientId, tx: SessionTx, ipOf: map<ClientId, Ip>)
    requires Injective(ipOf) && client in ipOf && RoutesOk(r, ipOf) && r.nextSessionId < U64_MAX
    ensures RoutesOk(Register(r, client, ipOf[client], tx), ipOf)
  {
    hide SessionsOk, IpsOk, CidsOk, Register;
    assert AddressFree(r, client, ipOf);
    RegisterKeepsSessions(r, client, tx, ipOf);
    RegisterKeepsIps(r, client, tx, ipOf);
    RegisterKeepsCids(r, client, ipOf[client], tx);
  }

  /** `sid` is nobody's session but possibly `client`'s. */
  ghost predicate OnlyOf(r: Routes, sid: nat, client: ClientId) {
    forall d :: d in r.sessions && r.sessions[d].sessionId == sid ==> d == client
  }

  lemma RemoveKeepsCids(r: Routes, sid: nat, client: ClientId, ip: Ip)
    requires CidsOk(r) && OnlyOf(r, sid, client)
    ensures CidsOk(Remove(r, sid, client, ip))
  {
    hide Owned;
    var r' := Remove(r, sid, client, ip);
    forall p | p in r'.cidRoutes ensures Owned(r', r'.cidRoutes[p]) {
      if ActiveId(r, client) == Some(sid) {
        StillOwned(r, r', r.cidRoutes[p], client);
      } else {
        SameOwners(r, r', r.cidRoutes[p]);
      }
    }
  }

  lemma SameOwners(r: Routes, r': Routes, route: CidRoute)
    requires Owned(r, route) && r.sessions == r'.sessions
    ensures Owned(r', route)
  {
    var c :| c in r.sessions && r.sessions[c].sessionId == route.sessionId && r.sessions[c].tx == route.tx;
    assert c in r'.sessions;
  }

  lemma RemoveKeepsSessions(r: Routes, sid: nat, client: ClientId, ip: Ip, ipOf: map<ClientId, Ip>)
    requires SessionsOk(r, ipOf)
    ensures SessionsOk(Remove(r, sid, client, ip), ipOf)
    ensures ActiveId(Remove(r, sid, client, ip), client) != Some(sid)
  {
    hide WithoutCids;
  }

  lemma RemoveKeepsIps(r: Routes, sid: nat, client: ClientId, ipOf: map<ClientId, Ip>)
    requires Injective(ipOf) && client in ipOf && SessionsOk(r, ipOf) && IpsOk(r, ipOf) && OnlyOf(r, sid, client)
    ensures IpsOk(Remove(r, sid, client, ipOf[client]), ipOf)
  {
    hide Remove;
    var r' := Remove(r, sid, client, ipOf[client]);
    forall c | c in r'.sessions && c in ipOf ensures ipOf[c] in r'.ipRoutes && r'.ipRoutes[ipOf[c]] == r'.sessions[c] {
      RemoveKeepsIpOf(r, sid, client, ipOf, c);
    }
    forall ip | ip in r'.ipRoutes ensures IpRouteOk(r', ip) {
      RemoveKeepsIp(r, sid, client, ipOf, ip);
    }
  }

  lemma RemoveKeepsIpOf(r: Routes, sid: nat, client: ClientId, ipOf: map<ClientId, Ip>, c: ClientId)
    requires Injective(ipOf) && client in ipOf && IpsOk(r, ipOf)
    requires c in Remove(r, sid, client, ipOf[client]).sessions && c in ipOf
    ensures var r' := Remove(r, sid, client, ipOf[client]);
            ipOf[c] in r'.ipRoutes && r'.ipRoutes[ipOf[c]] == r'.sessions[c]
  {
    hide WithoutCids;
  }

  lemma RemoveKeepsIp(r: Routes, sid: nat, client: ClientId, ipOf: map<ClientId, Ip>, ip: Ip)
    requires client in ipOf && SessionsOk(r, ipOf) && IpsOk(r, ipOf)
    requires ip in Remove(r, sid, client, ipOf[client]).ipRoutes
    ensures IpRouteOk(Remove(r, sid, client, ipOf[client]), ip)
  {
    hide WithoutCids;
  }

  lemma RemoveKeepsRoutes(r: Routes, sid: nat, client: ClientId, ipOf: map<ClientId, Ip>)
    requires Injective(ipOf) && client in ipOf && RoutesOk(r, ipOf) && OnlyOf(r, sid, client)
    ensures RoutesOk(Remove(r, sid, client, ipOf[client]), ipOf)
    ensures ActiveId(Remove(r, sid, client, ipOf[client]), client) != Some(sid)
  {
    hide SessionsOk, IpsOk, CidsOk, Remove;
    RemoveKeepsSessions(r, sid, client, ipOf[client], ipOf);
    RemoveKeepsIps(r, sid, client, ipOf);
    RemoveKeepsCids(r, sid, client, ipOf[client]);
  }

  lemma BindCidKeepsRoutes(r: Routes, client: ClientId, sid: nat, prefix: CidPrefix, tx: SessionTx,
                           ipOf: map<ClientId, Ip>)
    requires RoutesOk(r, ipOf)
    requires ActiveId(r, client) == Some(sid) ==> r.sessions[client].tx == tx
    ensures RoutesOk(BindCid(r, client, sid, prefix, tx).0, ipOf)
  {
    hide Owned;
    var r' := BindCid(r, client, sid, prefix, tx).0;
    forall p | p in r'.cidRoutes ensures Owned(r', r'.cidRoutes[p]) {
      if r' != r && p == prefix {
        OwnsItself(r', client);
      } else {
        SameOwners(r, r', r.cidRoutes[p]);
      }
    }
  }

  lemma OwnsItself(r: Routes, client: ClientId)
    requires client in r.sessions
    ensures Owned(r, CidRoute(r.sessions[client].sessionId, r.sessions[client].tx))
  {
  }

  lemma RemoveCidsKeepsRoutes(r: Routes, sid: nat, keep: Option<CidPrefix>, ipOf: map<ClientId, Ip>)
    requires RoutesOk(r, ipOf)
    ensures RoutesOk(RemoveCids(r, sid, keep), ipOf)
  {
    hide Owned;
    var r' := RemoveCids(r, sid, keep);
    forall p | p in r'.cidRoutes ensures Owned(r', r'.cidRoutes[p]) {
      SameOwners(r, r', r.cidRoutes[p]);
    }
  }

  /**
   In a sound table a session gets a connection id exactly if it is its client's active session and no
   other active session has that id. The id then leads to it, and no other id changes.
   */
  lemma BindCidExactly(r: Routes, client: ClientId, sid: nat, prefix: CidPrefix, ipOf: map<ClientId, Ip>)
    requires RoutesOk(r, ipOf) && OnlyOf(r, sid, client)
    requires client in r.sessions && r.sessions[client].sessionId == sid ==> r.sessions[client].tx == sid
    ensures var (r', result) := BindCid(r, client, sid, prefix, sid);
            var taken := prefix in r.cidRoutes
              && exists d :: d in r.sessions && d != client && r.cidRoutes[prefix].sessionId == r.sessions[d].sessionId;
            && (result.Ok? <==> client in r.sessions && r.sessions[client].sessionId == sid && !taken)
            && (result.Ok? ==> prefix in r'.cidRoutes && r'.cidRoutes[prefix].tx == sid)
            && (result.Err? ==>
                  result.error == if ActiveId(r, client) == Some(sid) then PrefixCollision(prefix)
                                  else StaleSession(client, sid, ActiveId(r, client)))
            && (forall p :: p != prefix || result.Err? ==>
                  (p in r'.cidRoutes <==> p in r.cidRoutes) && (p in r.cidRoutes ==> r'.cidRoutes[p] == r.cidRoutes[p]))
  {
    if prefix in r.cidRoutes {
      assert Owned(r, r.cidRoutes[prefix]);
    }
  }

  /** The connection ids that lead to a session. */
  function CidsOf(r: Routes, sid: nat): set<CidPrefix> {
    set p | p in r.cidRoutes && r.cidRoutes[p].sessionId == sid
  }

  /**
   Registering an id and then dropping all others, as a session does, leaves it with exactly that id;
   dropping all of them instead leaves the table as if it had never been registered. Either way the
   other sessions keep theirs.
   */
  lemma RebindLeavesOne(r: Routes, client: ClientId, sid: nat, prefix: CidPrefix, tx: SessionTx, other: nat)
    requires BindCid(r, client, sid, prefix, tx).1.Ok? && other != sid
    ensures var bound := BindCid(r, client, sid, prefix, tx).0;
            && CidsOf(RemoveCids(bound, sid, Some(prefix)), sid) == {prefix}
            && RemoveCids(bound, sid, None) == RemoveCids(r, sid, None)
            && CidsOf(RemoveCids(bound, sid, None), sid) == {}
            && CidsOf(RemoveCids(bound, sid, Some(prefix)), other) == CidsOf(r, other)
            && CidsOf(RemoveCids(bound, sid, None), other) == CidsOf(r, other)
  {
    var bound := BindCid(r, client, sid, prefix, tx).0;
    assert RemoveCids(bound, sid, None).cidRoutes == RemoveCids(r, sid, None).cidRoutes;
    assert prefix in RemoveCids(bound, sid, Some(prefix)).cidRoutes;
  }

  /** With a shared address the second client takes the first one's route, and both stay active. */
  lemma SharedAddressLosesRoute()
    ensures var ipOf := map[1 := 10, 2 := 10];
            var r := Register(Register(EMPTY, 1, ipOf[1], 1), 2, ipOf[2], 2);
            1 in r.sessions && 2 in r.sessions && r.ipRoutes[ipOf[1]].tx == r.sessions[2].tx != r.sessions[1].tx
  {
  }

  /**
   The late cleanup of a replaced session removes its replacement if and only if the id counter was
   saturated, so that both have the same id.
   */
  lemma SaturatedIdsCollide(r: Routes, client: ClientId, ip: Ip)
    requires r.nextSessionId <= U64_MAX
    ensures var once := Register(r, client, ip, 0);
            var twice := Register(once, client, ip, 1);
            var cleaned := Remove(twice, once.sessions[client].sessionId, client, ip);
            && twice.sessions[client].tx == 1
            && (client !in cleaned.sessions <==> r.nextSessionId == U64_MAX)
  {
  }

  /** `k` registrations of one client, one after the other. */
  function Registrations(client: ClientId, ip: Ip, k: nat): Routes {
    if k == 0 then EMPTY else Register(Registrations(client, ip, k - 1), client, ip, k)
  }

  lemma {:induction false} CounterRises(client: ClientId, ip: Ip, k: nat)
    ensures Registrations(client, ip, k).nextSessionId == Min(k + 1, U64_MAX)
  {
    hide WithoutCids;
    if k > 0 {
      CounterRises(client, ip, k - 1);
    }
  }

  /** Registrations do reach that counter: from the 2^64 - 1st on, a takeover is undone by late cleanup. */
  lemma SaturationReached(client: ClientId, ip: Ip, k: nat)
    requires U64_MAX <= k
    ensures var replaced := Registrations(client, ip, k).sessions[client];
            var r := Registrations(client, ip, k + 1);
            r.sessions[client].tx == k + 1 && client !in Remove(r, replaced.sessionId, client, ip).sessions
  {
    hide WithoutCids;
    CounterRises(client, ip, k - 1);
    CounterRises(client, ip, k);
  }
}
