/**
 The client allowlist: its validation (slt-core/src/config/server.rs) and its use by authentication
 (slt-server/src/auth/authenticator.rs). Both together give every client that gets a session an
 address of its own.
 */
module Allowlist {
  import opened Bytes
  import opened Registry

  datatype ServerClient = ServerClient(clientId: ClientId, assignedIpv4: Ip, pubkey: seq<Byte>, enabled: bool)

  datatype ConfigError =
    | ClientUsesTunAddress(ip: Ip)
    | ClientOutsideTunSubnet(ip: Ip)
    | DuplicateClientId(client: ClientId)
    | DuplicateAssignedIpv4(ip: Ip)

  datatype AuthFailCode = UnknownClient | Disabled | IpMismatch | MtuMismatch | ChallengeInvalid | BadSignature

  datatype AuthPayload = AuthPayload(
    clientId: ClientId, assignedIpv4: Ip, tunMtu: nat, challenge: seq<Byte>, signature: seq<Byte>)

  /** Some earlier entry has the client id (address) of entry `i`. */
  ghost predicate RepeatsId(clients: seq<ServerClient>, i: nat)
    requires i < |clients|
  {
    exists j :: 0 <= j < i && clients[j].clientId == clients[i].clientId
  }

  ghost predicate RepeatsIp(clients: seq<ServerClient>, i: nat)
    requires i < |clients|
  {
    exists j :: 0 <= j < i && clients[j].assignedIpv4 == clients[i].assignedIpv4
  }

  /** What is wrong with entry `i`, the first reason found. */
  ghost function Fault(clients: seq<ServerClient>, tunIp: Ip, inSubnet: Ip -> bool, i: nat): Option<ConfigError>
    requires i < |clients|
  {
    var ip := clients[i].assignedIpv4;
    if ip == tunIp then Some(ClientUsesTunAddress(ip))
    else if !inSubnet(ip) then Some(ClientOutsideTunSubnet(ip))
    else if RepeatsId(clients, i) then Some(DuplicateClientId(clients[i].clientId))
    else if RepeatsIp(clients, i) then Some(DuplicateAssignedIpv4(ip))
    else None
  }

  ghost predicate Accepted(clients: seq<ServerClient>, tunIp: Ip, inSubnet: Ip -> bool) {
    forall i :: 0 <= i < |clients| ==> Fault(clients, tunIp, inSubnet, i).None?
  }

  /** Reports the fault of the first faulty entry, and accepts exactly the lists without one. */
  method ValidateClients(clients: seq<ServerClient>, tunIp: Ip, inSubnet: Ip -> bool)
    returns (r: Result<(), ConfigError>)
    ensures r.Ok? <==> Accepted(clients, tunIp, inSubnet)
    ensures r.Err? ==>
      exists i :: && 0 <= i < |clients| && Fault(clients, tunIp, inSubnet, i) == Some(r.error)
                  && forall j :: 0 <= j < i ==> Fault(clients, tunIp, inSubnet, j).None?
  {
    var seenIds: set<ClientId>, seenIps: set<Ip> := {}, {};
    var i := 0;
    while i < |clients|
      invariant 0 <= i <= |clients|
      invariant forall c :: c in seenIds <==> exists j :: 0 <= j < i && clients[j].clientId == c
      invariant forall ip :: ip in seenIps <==> exists j :: 0 <= j < i && clients[j].assignedIpv4 == ip
      invariant forall j :: 0 <= j < i ==> Fault(clients, tunIp, inSubnet, j).None?
    {
      var client := clients[i];
      ghost var fault := Fault(clients, tunIp, inSubnet, i);
      assert client.clientId in seenIds <==> RepeatsId(clients, i);
      assert client.assignedIpv4 in seenIps <==> RepeatsIp(clients, i);
      if client.assignedIpv4 == tunIp {
        return Err(ClientUsesTunAddress(client.assignedIpv4));
      }
      if !inSubnet(client.assignedIpv4) {
        return Err(ClientOutsideTunSubnet(client.assignedIpv4));
      }
      if client.clientId in seenIds {
        return Err(DuplicateClientId(client.clientId));
      }
      seenIds := seenIds + {client.clientId};
      if client.assignedIpv4 in seenIps {
        return Err(DuplicateAssignedIpv4(client.assignedIpv4));
      }
      seenIps := seenIps + {client.assignedIpv4};
      i := i + 1;
    }
    return Ok(());
  }

  /** The authenticator's table; a later entry would overwrite an earlier one. */
  function FromConfig(clients: seq<ServerClient>): map<ClientId, ServerClient> {
    if clients == [] then map[]
    else
      var last := clients[|clients| - 1];
      FromConfig(clients[..|clients| - 1])[last.clientId := last]
  }

  function IpOf(table: map<ClientId, ServerClient>): map<ClientId, Ip> {
    map c | c in table :: table[c].assignedIpv4
  }

  function VerifyAuthPayload(table: map<ClientId, ServerClient>, tunMtu: nat, payload: AuthPayload,
                             challenge: seq<Byte>, verifies: (seq<Byte>, AuthPayload) -> bool): Result<Ip, AuthFailCode>
  {
    if payload.clientId !in table then Err(UnknownClient)
    else
      var client := table[payload.clientId];
      if !client.enabled then Err(Disabled)
      else if client.assignedIpv4 != payload.assignedIpv4 then Err(IpMismatch)
      else if tunMtu != payload.tunMtu then Err(MtuMismatch)
      else if payload.challenge != challenge then Err(ChallengeInvalid)
      else if !verifies(client.pubkey, payload) then Err(BadSignature)
      else Ok(client.assignedIpv4)
  }

  lemma {:induction false} FromConfigEntries(clients: seq<ServerClient>)
    ensures forall c :: c in FromConfig(clients) ==>
      exists i :: 0 <= i < |clients| && clients[i] == FromConfig(clients)[c] && clients[i].clientId == c
    ensures forall i :: 0 <= i < |clients| ==> clients[i].clientId in FromConfig(clients)
  {
    if clients != [] {
      var init := clients[..|clients| - 1];
      FromConfigEntries(init);
      forall c | c in FromConfig(clients)
        ensures exists i :: 0 <= i < |clients| && clients[i] == FromConfig(clients)[c] && clients[i].clientId == c
      {
        if c == clients[|clients| - 1].clientId {
          assert clients[|clients| - 1] == FromConfig(clients)[c];
        } else {
          assert c in FromConfig(init) && FromConfig(init)[c] == FromConfig(clients)[c];
          var i :| 0 <= i < |init| && init[i] == FromConfig(init)[c] && init[i].clientId == c;
          assert clients[i] == init[i];
        }
      }
      forall i | 0 <= i < |clients| ensures clients[i].clientId in FromConfig(clients) {
        if i < |init| {
          assert init[i] == clients[i];
        }
      }
    }
  }

  /** An accepted list keeps every entry and gives no two clients the same address, and none the server's. */
  lemma AcceptedIsInjective(clients: seq<ServerClient>, tunIp: Ip, inSubnet: Ip -> bool)
    requires Accepted(clients, tunIp, inSubnet)
    ensures Injective(IpOf(FromConfig(clients)))
    ensures forall i :: 0 <= i < |clients| ==>
      clients[i].clientId in FromConfig(clients) && FromConfig(clients)[clients[i].clientId] == clients[i]
    ensures forall c :: c in FromConfig(clients) ==> FromConfig(clients)[c].assignedIpv4 != tunIp
  {
    FromConfigEntries(clients);
    var table := FromConfig(clients);
    forall c, d | c in table && d in table && table[c].assignedIpv4 == table[d].assignedIpv4 ensures c == d {
      var i :| 0 <= i < |clients| && clients[i] == table[c] && clients[i].clientId == c;
      var j :| 0 <= j < |clients| && clients[j] == table[d] && clients[j].clientId == d;
      SameAddress(clients, tunIp, inSubnet, i, j);
    }
    forall i | 0 <= i < |clients| ensures clients[i].clientId in table && table[clients[i].clientId] == clients[i] {
      var c := clients[i].clientId;
      var j :| 0 <= j < |clients| && clients[j] == table[c] && clients[j].clientId == c;
      SameAddress(clients, tunIp, inSubnet, i, j);
    }
    forall c | c in table ensures table[c].assignedIpv4 != tunIp {
      var i :| 0 <= i < |clients| && clients[i] == table[c] && clients[i].clientId == c;
      assert Fault(clients, tunIp, inSubnet, i).None?;
    }
  }

  lemma SameAddress(clients: seq<ServerClient>, tunIp: Ip, inSubnet: Ip -> bool, i: nat, j: nat)
    requires Accepted(clients, tunIp, inSubnet) && i < |clients| && j < |clients|
    requires clients[i].assignedIpv4 == clients[j].assignedIpv4 || clients[i].clientId == clients[j].clientId
    ensures i == j
  {
    assert Fault(clients, tunIp, inSubnet, i).None? && Fault(clients, tunIp, inSubnet, j).None?;
  }

  /** The entry is the payload's client, enabled, and the payload is what that client has to send. */
  ghost predicate Vouches(client: ServerClient, ip: Ip, tunMtu: nat, payload: AuthPayload, challenge: seq<Byte>,
                          verifies: (seq<Byte>, AuthPayload) -> bool)
  {
    && client.clientId == payload.clientId && client.enabled && client.assignedIpv4 == payload.assignedIpv4 == ip
    && payload.tunMtu == tunMtu && payload.challenge == challenge && verifies(client.pubkey, payload)
  }

  /**
   Under an accepted allowlist a payload gets an address exactly if some configured entry vouches for it
   and for that address, so the same address never goes to two clients.
   */
  lemma LetInExactly(clients: seq<ServerClient>, tunIp: Ip, inSubnet: Ip -> bool, tunMtu: nat, payload: AuthPayload,
                     challenge: seq<Byte>, verifies: (seq<Byte>, AuthPayload) -> bool, ip: Ip)
    requires Accepted(clients, tunIp, inSubnet)
    ensures VerifyAuthPayload(FromConfig(clients), tunMtu, payload, challenge, verifies) == Ok(ip)
       <==> exists i :: 0 <= i < |clients| && Vouches(clients[i], ip, tunMtu, payload, challenge, verifies)
  {
    AcceptedIsInjective(clients, tunIp, inSubnet);
    FromConfigEntries(clients);
  }

  lemma OneClientPerAddress(clients: seq<ServerClient>, tunIp: Ip, inSubnet: Ip -> bool, tunMtu: nat, ip: Ip,
                            one: AuthPayload, two: AuthPayload, challenge1: seq<Byte>, challenge2: seq<Byte>,
                            verifies: (seq<Byte>, AuthPayload) -> bool)
    requires Accepted(clients, tunIp, inSubnet)
    requires VerifyAuthPayload(FromConfig(clients), tunMtu, one, challenge1, verifies) == Ok(ip)
    requires VerifyAuthPayload(FromConfig(clients), tunMtu, two, challenge2, verifies) == Ok(ip)
    ensures one.clientId == two.clientId
  {
    AcceptedIsInjective(clients, tunIp, inSubnet);
    assert IpOf(FromConfig(clients))[one.clientId] == IpOf(FromConfig(clients))[two.clientId];
  }

  /**
   Under an accepted allowlist, registering any authenticated client with the address
   authentication returned keeps the route table sound.
   */
  lemma AuthenticatedRegisterKeepsRoutes(clients: seq<ServerClient>, tunIp: Ip, inSubnet: Ip -> bool, tunMtu: nat,
                                         payload: AuthPayload, challenge: seq<Byte>,
                                         verifies: (seq<Byte>, AuthPayload) -> bool, r: Routes, tx: SessionTx)
    requires Accepted(clients, tunIp, inSubnet)
    requires VerifyAuthPayload(FromConfig(clients), tunMtu, payload, challenge, verifies).Ok?
    requires RoutesOk(r, IpOf(FromConfig(clients))) && r.nextSessionId < U64_MAX
    ensures var ip := VerifyAuthPayload(FromConfig(clients), tunMtu, payload, challenge, verifies).value;
            RoutesOk(Register(r, payload.clientId, ip, tx), IpOf(FromConfig(clients)))
  {
    hide RoutesOk, Register;
    AcceptedIsInjective(clients, tunIp, inSubnet);
    RegisterKeepsRoutes(r, payload.clientId, tx, IpOf(FromConfig(clients)));
  }

  /** Each fault, told from the list alone: the first of these that applies. */
  lemma FaultExactly(clients: seq<ServerClient>, tunIp: Ip, inSubnet: Ip -> bool, i: nat)
    requires i < |clients|
    ensures var fault, ip := Fault(clients, tunIp, inSubnet, i), clients[i].assignedIpv4;
            var usable := ip != tunIp && inSubnet(ip);
            var sameId := exists j :: 0 <= j < i && clients[j].clientId == clients[i].clientId;
            var sameIp := exists j :: 0 <= j < i && clients[j].assignedIpv4 == ip;
            && (fault == Some(ClientUsesTunAddress(ip)) <==> ip == tunIp)
            && (fault == Some(ClientOutsideTunSubnet(ip)) <==> ip != tunIp && !inSubnet(ip))
            && (fault == Some(DuplicateClientId(clients[i].clientId)) <==> usable && sameId)
            && (fault == Some(DuplicateAssignedIpv4(ip)) <==> usable && !sameId && sameIp)
            && (fault == None <==> usable && !sameId && !sameIp)
  {
  }

  /** What a payload gets wrong, in the order in which it is looked at. */
  function Mistakes(table: map<ClientId, ServerClient>, tunMtu: nat, payload: AuthPayload, challenge: seq<Byte>,
                    verifies: (seq<Byte>, AuthPayload) -> bool): seq<AuthFailCode>
  {
    if payload.clientId !in table then [UnknownClient]
    else
      var client := table[payload.clientId];
      (if client.enabled then [] else [Disabled])
      + (if client.assignedIpv4 == payload.assignedIpv4 then [] else [IpMismatch])
      + (if payload.tunMtu == tunMtu then [] else [MtuMismatch])
      + (if payload.challenge == challenge then [] else [ChallengeInvalid])
      + (if verifies(client.pubkey, payload) then [] else [BadSignature])
  }

  /** The refusal names the first mistake, and a payload without one is let in. */
  lemma RefusedForFirstMistake(table: map<ClientId, ServerClient>, tunMtu: nat, payload: AuthPayload,
                               challenge: seq<Byte>, verifies: (seq<Byte>, AuthPayload) -> bool)
    ensures var mistakes := Mistakes(table, tunMtu, payload, challenge, verifies);
            var r := VerifyAuthPayload(table, tunMtu, payload, challenge, verifies);
            if mistakes == [] then r == Ok(payload.assignedIpv4) else r == Err(mistakes[0])
  {
  }
}
