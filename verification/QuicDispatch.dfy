/**
 UDP front-door dispatch (slt-server/src/quic.rs, slt-core/src/classifier.rs): every datagram of a
 receive batch is dropped, handed to the session that registered its connection id, or passed on.

 What the surroundings answer is a parameter per datagram: the registered connection ids at that
 moment, whether the session's queue has room, whether an upstream socket can be had, whether the
 send on it works, and the time.
 */
module QuicDispatch {
  import opened Bytes
  import opened Registry
  import Segments
  import UdpIo
  import opened NatTable

  const QUIC_DCID_PREFIX_LEN: nat := 20

  datatype QuicVerdict = Drop | Pass | Short(prefix: CidPrefix)

  function ClassifyQuicDatagram(input: seq<Byte>): QuicVerdict {
    if input == [] then Drop
    else
      var long := input[0] >= 0x80;
      var fixed := input[0] / 0x40 % 2 == 1;
      if !fixed then Drop
      else if long then Pass
      else if |input| < 1 + QUIC_DCID_PREFIX_LEN then Drop
      else Short(input[1..1 + QUIC_DCID_PREFIX_LEN])
  }

  /** A short header as section 17.3.1 of RFC 9000 lays it out: form bit clear, fixed bit set, then the id. */
  ghost predicate ShortHeader(input: seq<Byte>, prefix: CidPrefix) {
    && |prefix| == 20
    && exists first: Byte, rest: seq<Byte> :: 0x40 <= first < 0x80 && input == [first] + prefix + rest
  }

  /** A long header with the fixed bit, as in section 17.2 of RFC 9000. */
  predicate LongHeader(input: seq<Byte>) {
    input != [] && 0xC0 <= input[0]
  }

  lemma ClassifiedExactly(input: seq<Byte>, prefix: CidPrefix)
    ensures ClassifyQuicDatagram(input) == Short(prefix) <==> ShortHeader(input, prefix)
    ensures ClassifyQuicDatagram(input) == Pass <==> LongHeader(input)
  {
    if ClassifyQuicDatagram(input) == Short(prefix) {
      assert input == [input[0]] + prefix + input[1 + QUIC_DCID_PREFIX_LEN..];
    }
    if ShortHeader(input, prefix) {
      var first: Byte, rest: seq<Byte> :| 0x40 <= first < 0x80 && input == [first] + prefix + rest;
      assert input[1..1 + QUIC_DCID_PREFIX_LEN] == prefix;
    }
  }

  datatype Surroundings = Surroundings(
    cids: map<CidPrefix, CidRoute>, room: bool, socket: bool, sends: bool, now: nat)

  datatype Fate = Dropped | Delivered(tx: SessionTx) | QueueFull(tx: SessionTx) | Sent | SetupFailed | SendFailed

  /** A datagram and what became of it. */
  datatype Handled = Handled(peer: Peer, payload: seq<Byte>, fate: Fate)

  datatype Metrics = Metrics(
    accepted: nat, dropped: nat, claimed: nat, passed: nat, queueDrops: nat, setupFailures: nat, sendFailures: nat)

  predicate Claimed(f: Fate) {
    f.Delivered? || f.QueueFull?
  }

  predicate Passed(f: Fate) {
    f.Sent? || f.SetupFailed? || f.SendFailed?
  }

  /** The datagram goes upstream: a long header, or a short one nobody has registered. */
  predicate GoesUpstream(payload: seq<Byte>, env: Surroundings) {
    var verdict := ClassifyQuicDatagram(payload);
    verdict.Pass? || (verdict.Short? && verdict.prefix !in env.cids)
  }

  function UpstreamFate(n: Nat, peer: Peer, env: Surroundings): Fate {
    if !Touch(n, peer, env.now, env.socket).1 then SetupFailed else if env.sends then Sent else SendFailed
  }

  function FateOf(n: Nat, peer: Peer, payload: seq<Byte>, env: Surroundings): Fate {
    match ClassifyQuicDatagram(payload)
    case Drop => Dropped
    case Pass => UpstreamFate(n, peer, env)
    case Short(prefix) =>
      if prefix !in env.cids then UpstreamFate(n, peer, env)
      else if env.room then Delivered(env.cids[prefix].tx)
      else QueueFull(env.cids[prefix].tx)
  }

  /**
   A datagram is claimed exactly if it has a short header whose connection id is registered, and then by
   the session that has it; it is dropped exactly if its header is neither short nor long; and a setup
   fails exactly if the peer is unknown and there is no socket for it.
   */
  lemma FateExactly(n: Nat, peer: Peer, payload: seq<Byte>, env: Surroundings)
    ensures var fate := FateOf(n, peer, payload, env);
            && (Claimed(fate) <==> exists prefix :: ShortHeader(payload, prefix) && prefix in env.cids)
            && (forall prefix :: ShortHeader(payload, prefix) && prefix in env.cids ==>
                  fate == if env.room then Delivered(env.cids[prefix].tx) else QueueFull(env.cids[prefix].tx))
            && (fate.Dropped? <==> !LongHeader(payload) && forall prefix :: !ShortHeader(payload, prefix))
            && (fate.SetupFailed? <==> Passed(fate) && Lookup(n.slots, peer).None? && !env.socket)
            && (Passed(fate) && !fate.SetupFailed? ==> fate == if env.sends then Sent else SendFailed)
            && (Passed(fate) <==> GoesUpstream(payload, env))
  {
    hide ShortHeader;
    forall prefix ensures ClassifyQuicDatagram(payload) == Short(prefix) <==> ShortHeader(payload, prefix) {
      ClassifiedExactly(payload, prefix);
    }
    ClassifiedExactly(payload, []);
    TouchKnown(n, peer, env.now, env.socket);
    if Claimed(FateOf(n, peer, payload, env)) {
      assert ShortHeader(payload, ClassifyQuicDatagram(payload).prefix);
    }
  }

  function One(b: bool): nat {
    if b then 1 else 0
  }

  /** The counters as counts over everything handled so far. */
  function Count(log: seq<Handled>): Metrics {
    if log == [] then Metrics(0, 0, 0, 0, 0, 0, 0)
    else
      var m := Count(log[..|log| - 1]);
      var f := log[|log| - 1].fate;
      Metrics(m.accepted + 1, m.dropped + One(f.Dropped?), m.claimed + One(Claimed(f)), m.passed + One(Passed(f)),
              m.queueDrops + One(f.QueueFull?), m.setupFailures + One(f.SetupFailed?),
              m.sendFailures + One(f.SendFailed?))
  }

  function Number(log: seq<Handled>, f: Fate -> bool): nat {
    if log == [] then 0 else Number(log[..|log| - 1], f) + One(f(log[|log| - 1].fate))
  }

  lemma CountMore(log: seq<Handled>, h: Handled)
    ensures Count(log + [h]) ==
            var m := Count(log);
            Metrics(m.accepted + 1, m.dropped + One(h.fate.Dropped?), m.claimed + One(Claimed(h.fate)),
                    m.passed + One(Passed(h.fate)), m.queueDrops + One(h.fate.QueueFull?),
                    m.setupFailures + One(h.fate.SetupFailed?), m.sendFailures + One(h.fate.SendFailed?))
  {
    assert (log + [h])[..|log|] == log;
  }

  /** No datagram is counted twice or not at all. */
  lemma {:induction false} Conservation(log: seq<Handled>)
    ensures var m := Count(log);
            && m.accepted == |log| == m.dropped + m.claimed + m.passed
            && m.claimed == Number(log, (f: Fate) => f.Delivered?) + m.queueDrops
            && m.passed == Number(log, (f: Fate) => f.Sent?) + m.setupFailures + m.sendFailures
  {
    if log != [] {
      Conservation(log[..|log| - 1]);
    }
  }

  /** The datagrams of a batch with their senders, in order. */
  function Arrivals(batch: seq<UdpIo.Received>): seq<(Peer, seq<Byte>)>
    requires forall i :: 0 <= i < |batch| ==> batch[i].len <= |batch[i].buf|
  {
    if batch == [] then []
    else Arrivals(batch[..|batch| - 1]) + From(batch[|batch| - 1].from, UdpIo.Datagrams(batch[|batch| - 1]))
  }

  function From(peer: Peer, payloads: seq<seq<Byte>>): seq<(Peer, seq<Byte>)> {
    seq(|payloads|, i requires 0 <= i < |payloads| => (peer, payloads[i]))
  }

  /** The front door: the passthrough table and everything handled so far. */
  datatype Front = Front(table: Nat, log: seq<Handled>)

  function Handle(f: Front, peer: Peer, payload: seq<Byte>, env: Surroundings): Front {
    Front(if GoesUpstream(payload, env) then Touch(f.table, peer, env.now, env.socket).0 else f.table,
          f.log + [Handled(peer, payload, FateOf(f.table, peer, payload, env))])
  }

  /** `env(i)` is how things stand for the `i`-th datagram ever. */
  function HandleAll(f: Front, datagrams: seq<(Peer, seq<Byte>)>, env: nat -> Surroundings): Front {
    if datagrams == [] then f
    else
      var g := HandleAll(f, datagrams[..|datagrams| - 1], env);
      var d := datagrams[|datagrams| - 1];
      Handle(g, d.0, d.1, env(|g.log|))
  }

  lemma {:induction false} HandleThen(f: Front, a: seq<(Peer, seq<Byte>)>, b: seq<(Peer, seq<Byte>)>,
                                      env: nat -> Surroundings)
    ensures HandleAll(f, a + b, env) == HandleAll(HandleAll(f, a, env), b, env)
    decreases |b|
  {
    hide Handle;
    if b == [] {
      assert a + b == a;
    } else {
      HandleThen(f, a, b[..|b| - 1], env);
      assert (a + b)[..|a + b| - 1] == a + b[..|b| - 1];
    }
  }

  /** The log grows by the datagrams in order, each with the fate the table gives it at that moment. */
  lemma {:induction false} HandledInOrder(f: Front, datagrams: seq<(Peer, seq<Byte>)>, env: nat -> Surroundings, k: nat)
    requires k < |datagrams|
    ensures var g := HandleAll(f, datagrams, env);
            var before := HandleAll(f, datagrams[..k], env);
            var (peer, payload) := datagrams[k];
            && |g.log| == |f.log| + |datagrams| && f.log <= g.log
            && g.log[|f.log| + k] == Handled(peer, payload, FateOf(before.table, peer, payload, env(|f.log| + k)))
    decreases |datagrams|
  {
    hide FateOf, GoesUpstream, Touch;
    var init := datagrams[..|datagrams| - 1];
    HandledLength(f, init, env);
    if k < |init| {
      HandledInOrder(f, init, env, k);
      assert init[..k] == datagrams[..k];
    }
  }

  lemma {:induction false} HandledLength(f: Front, datagrams: seq<(Peer, seq<Byte>)>, env: nat -> Surroundings)
    ensures var g := HandleAll(f, datagrams, env); |g.log| == |f.log| + |datagrams| && f.log <= g.log
    decreases |datagrams|
  {
    hide FateOf, GoesUpstream, Touch;
    if datagrams != [] {
      HandledLength(f, datagrams[..|datagrams| - 1], env);
    }
  }

  /**
   However many datagrams a coalesced read from one peer holds, a known peer keeps its upstream through
   all of them and loses none to a failed setup; an unknown one gets at most one new upstream.
   */
  lemma {:induction false} OneUpstreamPerRead(f: Front, peer: Peer, payloads: seq<seq<Byte>>, env: nat -> Surroundings)
    requires NatOk(f.table)
    ensures var g := HandleAll(f, From(peer, payloads), env);
            var known := Lookup(f.table.slots, peer);
            var now := Lookup(g.table.slots, peer);
            && NatOk(g.table)
            && (known.Some? ==>
                  && now.Some? && now.value.reader == known.value.reader && g.table.readers == f.table.readers
                  && (forall i :: |f.log| <= i < |g.log| ==> !g.log[i].fate.SetupFailed?))
            && (known.None? ==>
                  if now.None? then g.table == f.table
                  else now.value.reader == |f.table.readers| && g.table.readers == f.table.readers + [peer])
    decreases |payloads|
  {
    hide NatOk, Touch, ClassifyQuicDatagram;
    if payloads == [] {
      assert From(peer, payloads) == [];
    } else {
      var init := payloads[..|payloads| - 1];
      OneUpstreamPerRead(f, peer, init, env);
      HandledLength(f, From(peer, init), env);
      assert From(peer, payloads)[..|payloads| - 1] == From(peer, init);
      var g := HandleAll(f, From(peer, init), env);
      var e := env(|g.log|);
      TouchOk(g.table, peer, e.now, e.socket);
      TouchKnown(g.table, peer, e.now, e.socket);
    }
  }

  lemma {:induction false} ArrivalsAppend(a: seq<UdpIo.Received>, b: seq<UdpIo.Received>)
    requires forall i :: 0 <= i < |a| ==> a[i].len <= |a[i].buf|
    requires forall i :: 0 <= i < |b| ==> b[i].len <= |b[i].buf|
    ensures Arrivals(a + b) == Arrivals(a) + Arrivals(b)
    decreases |b|
  {
    hide From, UdpIo.Datagrams, Arrivals;
    if b == [] {
      assert a + b == a;
      NoArrivals();
      assert Arrivals(a) + [] == Arrivals(a);
    } else {
      var init, last := b[..|b| - 1], b[|b| - 1];
      ArrivalsAppend(a, init);
      assert a + b == (a + init) + [last] && b == init + [last];
      ArrivalsMore(a + init, last);
      ArrivalsMore(init, last);
      var read := From(last.from, UdpIo.Datagrams(last));
      assert (Arrivals(a) + Arrivals(init)) + read == Arrivals(a) + (Arrivals(init) + read);
    }
  }

  lemma NoArrivals()
    ensures Arrivals([]) == []
  {
  }

  lemma ArrivalsMore(init: seq<UdpIo.Received>, last: UdpIo.Received)
    requires last.len <= |last.buf| && forall i :: 0 <= i < |init| ==> init[i].len <= |init[i].buf|
    ensures Arrivals(init + [last]) == Arrivals(init) + From(last.from, UdpIo.Datagrams(last))
  {
    assert (init + [last])[..|init|] == init;
  }

  /** A read that coalesced `packets` at stride `n`, in a buffer with `room` to spare. */
  function Coalesced(peer: Peer, packets: seq<seq<Byte>>, n: nat, room: seq<Byte>): UdpIo.Received {
    UdpIo.Received(peer, Concat(packets) + room, |Concat(packets)|, n)
  }

  lemma CoalescedArrives(peer: Peer, packets: seq<seq<Byte>>, n: nat, room: seq<Byte>)
    requires 0 < n && Segments.Segmentable(packets, n)
    ensures Arrivals([Coalesced(peer, packets, n, room)]) == From(peer, packets)
  {
    var m := Coalesced(peer, packets, n, room);
    assert m.buf[..m.len] == Concat(packets);
    Segments.CutConcat(packets, n);
    assert UdpIo.Datagrams(m) == packets;
    assert [m][..0] == [];
    assert Arrivals([m]) == [] + From(peer, packets);
  }

  /** From `start` on the log lists the packets, in order, as the peer's. */
  ghost predicate Listed(log: seq<Handled>, start: nat, peer: Peer, packets: seq<seq<Byte>>) {
    && start + |packets| <= |log|
    && forall k :: 0 <= k < |packets| ==> IsFrom(log[start + k], peer, packets[k])
  }

  predicate IsFrom(h: Handled, peer: Peer, payload: seq<Byte>) {
    h.peer == peer && h.payload == payload
  }

  /**
   Every packet of a coalesced read is handled and counted, once, in order and as its sender's, wherever in
   a batch the read stands.
   */
  lemma EveryPacketHandled(f: Front, before: seq<UdpIo.Received>, peer: Peer, packets: seq<seq<Byte>>, n: nat,
                           room: seq<Byte>, env: nat -> Surroundings)
    requires forall i :: 0 <= i < |before| ==> before[i].len <= |before[i].buf|
    requires 0 < n && Segments.Segmentable(packets, n)
    ensures var batch := before + [Coalesced(peer, packets, n, room)];
            var start := HandleAll(f, Arrivals(before), env).log;
            var log := HandleAll(f, Arrivals(batch), env).log;
            && |log| == |start| + |packets| && start <= log
            && Listed(log, |start|, peer, packets)
            && Count(log).accepted == Count(start).accepted + |packets|
  {
    hide Handle, Count, Arrivals, From, HandleAll;
    ArrivalsAppend(before, [Coalesced(peer, packets, n, room)]);
    CoalescedArrives(peer, packets, n, room);
    HandleThen(f, Arrivals(before), From(peer, packets), env);
    AllFrom(HandleAll(f, Arrivals(before), env), peer, packets, env);
  }

  lemma AcceptedAll(log: seq<Handled>)
    ensures Count(log).accepted == |log|
  {
    Conservation(log);
  }

  lemma AllFrom(g: Front, peer: Peer, packets: seq<seq<Byte>>, env: nat -> Surroundings)
    ensures var log := HandleAll(g, From(peer, packets), env).log;
            && |log| == |g.log| + |packets| && g.log <= log
            && Listed(log, |g.log|, peer, packets)
            && Count(log).accepted == Count(g.log).accepted + |packets|
  {
    hide Handle, Count, HandleAll, FateOf;
    var ds := From(peer, packets);
    var log := HandleAll(g, ds, env).log;
    HandledLength(g, ds, env);
    forall k | 0 <= k < |packets| ensures IsFrom(log[|g.log| + k], peer, packets[k]) {
      HandledInOrder(g, ds, env, k);
      assert ds[k] == (peer, packets[k]);
    }
    AcceptedAll(g.log);
    AcceptedAll(log);
  }

  /** Each counter is the number of datagrams that met its fate. */
  lemma {:induction false} CountersExactly(log: seq<Handled>)
    ensures var m := Count(log);
            && m.dropped == Number(log, (f: Fate) => f.Dropped?)
            && m.claimed == Number(log, (f: Fate) => f.Delivered?) + Number(log, (f: Fate) => f.QueueFull?)
            && m.passed == Number(log, (f: Fate) => f.Sent?) + m.setupFailures + m.sendFailures
            && m.queueDrops == Number(log, (f: Fate) => f.QueueFull?)
            && m.setupFailures == Number(log, (f: Fate) => f.SetupFailed?)
            && m.sendFailures == Number(log, (f: Fate) => f.SendFailed?)
  {
    if log != [] {
      CountersExactly(log[..|log| - 1]);
    }
  }

  /** A peer whose datagram was sent upstream, or was to be, is known afterwards; any other fate leaves the table. */
  lemma HandledPeerKnown(f: Front, peer: Peer, payload: seq<Byte>, env: Surroundings)
    ensures var g := Handle(f, peer, payload, env);
            var fate := FateOf(f.table, peer, payload, env);
            && (fate.Sent? || fate.SendFailed? ==>
                  Lookup(g.table.slots, peer).Some? && Lookup(g.table.slots, peer).value.lastSeen == env.now)
            && (!fate.Sent? && !fate.SendFailed? ==> g.table == f.table)
  {
    hide Without, ClassifyQuicDatagram;
    FateExactly(f.table, peer, payload, env);
    TouchKnown(f.table, peer, env.now, env.socket);
  }

  class QuicEndpoint {
    const table: QuicNatState
    var metrics: Metrics
    ghost var log: seq<Handled>

    ghost predicate Valid()
      reads this, table
    {
      metrics == Count(log) && table.spawned == |table.readers| && NatOk(table.View())
    }

    constructor (table: QuicNatState)
      requires table.spawned == |table.readers| && NatOk(table.View())
      ensures Valid() && log == [] && this.table == table
    {
      this.table := table;
      metrics := Metrics(0, 0, 0, 0, 0, 0, 0);
      log := [];
    }

    ghost function View(): Front
      reads this, table
    {
      Front(table.View(), log)
    }

    method ForwardToUpstream(peer: Peer, payload: seq<Byte>, env: Surroundings)
      requires table.spawned == |table.readers| && NatOk(table.View())
      requires metrics == Count(log).(accepted := Count(log).accepted + 1)
      modifies this, table
      ensures Valid() && table.View() == Touch(old(table.View()), peer, env.now, env.socket).0
      ensures log == old(log) + [Handled(peer, payload, UpstreamFate(old(table.View()), peer, env))]
    {
      hide Touch, NatOk, Count;
      metrics := metrics.(passed := metrics.passed + 1);
      TouchOk(table.View(), peer, env.now, env.socket);
      ghost var fate := UpstreamFate(table.View(), peer, env);
      var ok := table.GetOrCreateUpstream(peer, env.now, env.socket);
      if !ok {
        metrics := metrics.(setupFailures := metrics.setupFailures + 1);
      } else if !env.sends {
        metrics := metrics.(sendFailures := metrics.sendFailures + 1);
      }
      CountMore(log, Handled(peer, payload, fate));
      log := log + [Handled(peer, payload, fate)];
    }

    method HandleDatagram(peer: Peer, payload: seq<Byte>, env: Surroundings)
      requires table.spawned == |table.readers| && NatOk(table.View())
      requires metrics == Count(log).(accepted := Count(log).accepted + 1)
      modifies this, table
      ensures Valid() && View() == Handle(old(View()), peer, payload, env)
    {
      hide NatOk, Count, Touch;
      var verdict := ClassifyQuicDatagram(payload);
      match verdict
      case Drop =>
        metrics := metrics.(dropped := metrics.dropped + 1);
        CountMore(log, Handled(peer, payload, Dropped));
        log := log + [Handled(peer, payload, Dropped)];
      case Pass => ForwardToUpstream(peer, payload, env);
      case Short(prefix) =>
        if prefix in env.cids {
          var tx := env.cids[prefix].tx;
          metrics := metrics.(claimed := metrics.claimed + 1);
          if !env.room {
            metrics := metrics.(queueDrops := metrics.queueDrops + 1);
          }
          ghost var fate := if env.room then Delivered(tx) else QueueFull(tx);
          CountMore(log, Handled(peer, payload, fate));
          log := log + [Handled(peer, payload, fate)];
        } else {
          ForwardToUpstream(peer, payload, env);
        }
    }

    method DispatchRecvBatch(batch: seq<UdpIo.Received>, env: nat -> Surroundings)
      requires Valid() && forall i :: 0 <= i < |batch| ==> batch[i].len <= |batch[i].buf|
      modifies this, table
      ensures Valid() && View() == HandleAll(old(View()), Arrivals(batch), env)
    {
      hide Count, NatOk, Handle;
      for i := 0 to |batch|
        invariant Valid() && View() == HandleAll(old(View()), Arrivals(batch[..i]), env)
      {
        var payloads := UdpIo.Split(batch[i]);
        assert batch[..i + 1][..i] == batch[..i];
        DispatchSplit(batch[i].from, payloads, env);
        HandleThen(old(View()), Arrivals(batch[..i]), From(batch[i].from, payloads), env);
      }
      assert batch[..|batch|] == batch;
    }

    method DispatchSplit(peer: Peer, payloads: seq<seq<Byte>>, env: nat -> Surroundings)
      requires Valid()
      modifies this, table
      ensures Valid() && View() == HandleAll(old(View()), From(peer, payloads), env)
    {
      hide Count, NatOk, Handle;
      for k := 0 to |payloads|
        invariant Valid() && View() == HandleAll(old(View()), From(peer, payloads[..k]), env)
      {
        Conservation(log);
        var number := metrics.accepted;
        metrics := metrics.(accepted := metrics.accepted + 1);
        HandleDatagram(peer, payloads[k], env(number));
        assert From(peer, payloads[..k + 1])[..k] == From(peer, payloads[..k]);
      }
      assert payloads[..|payloads|] == payloads;
    }
  }
}
