/**
 The UDP-QSP socket backend (slt-core/src/transport/udp_qsp_io.rs): equal-sized packets gather in a
 flat slab that one offloaded send cuts up again, and coalesced reads are split into a queue.

 What the socket answers is a parameter: `true` for a send that went through, however often it would
 have blocked first, `false` for one that failed.
 */
module UdpIo {
  import opened Bytes
  import opened Segments

  const MAX_UDP_GSO_PAYLOAD: nat := 65535

  type Peer = nat

  datatype SendError = EmptyPacket | OversizedPacket | SocketError

  datatype Datagram = Datagram(to: Peer, payload: seq<Byte>)

  datatype Transmit = Transmit(destination: Peer, contents: seq<Byte>, segmentSize: Option<nat>)

  // ----- The simple form: packets in a list

  datatype Outbox = Outbox(pending: seq<seq<Byte>>, delivered: seq<Datagram>)

  function Addressed(packets: seq<seq<Byte>>, peer: Peer): seq<Datagram> {
    seq(|packets|, i requires 0 <= i < |packets| => Datagram(peer, packets[i]))
  }

  lemma NoneAddressed(peer: Peer)
    ensures Addressed([], peer) == []
  {
  }

  function Payloads(ds: seq<Datagram>): seq<seq<Byte>> {
    seq(|ds|, i requires 0 <= i < |ds| => ds[i].payload)
  }

  function MaxSegments(socketMax: nat, size: nat): (r: nat)
    requires 0 < size
    ensures size <= MAX_UDP_GSO_PAYLOAD ==> 1 <= r
    ensures r <= MAX_UDP_GSO_PAYLOAD / size && r <= Max(socketMax, 1)
    ensures r == MAX_UDP_GSO_PAYLOAD / size || r == Max(socketMax, 1)
  {
    var socketMax := if socketMax == 0 then 1 else socketMax;
    var payloadMax := MAX_UDP_GSO_PAYLOAD / size;
    if payloadMax < socketMax then payloadMax else socketMax
  }

  predicate MustFlush(o: Outbox, size: nat, max: nat) {
    o.pending != [] && (|o.pending[0]| != size || |o.pending| >= max)
  }

  function Flushed(o: Outbox, peer: Peer, sent: bool): Outbox {
    if sent then Outbox([], o.delivered + Addressed(o.pending, peer)) else o
  }

  function Push(o: Outbox, peer: Peer, bytes: seq<Byte>, socketMax: nat, first: bool, second: bool)
    : (Outbox, Result<(), SendError>)
  {
    if bytes == [] then (o, Err(EmptyPacket))
    else if |bytes| > MAX_UDP_GSO_PAYLOAD then (o, Err(OversizedPacket))
    else
      var max := MaxSegments(socketMax, |bytes|);
      var flush := MustFlush(o, |bytes|, max);
      if flush && !first then (o, Err(SocketError))
      else
        var room := if flush then Flushed(o, peer, true) else o;
        var more := room.(pending := room.pending + [bytes]);
        if |more.pending| >= max then (Flushed(more, peer, second), if second then Ok(()) else Err(SocketError))
        else (more, Ok(()))
  }

  /** One offloaded send can carry what is pending. */
  ghost predicate SlabOk(o: Outbox) {
    && (forall i :: 0 <= i < |o.pending| ==> |o.pending[i]| == |o.pending[0]|)
    && (o.pending != [] ==>
          0 < |o.pending[0]| <= MAX_UDP_GSO_PAYLOAD && |o.pending| <= MAX_UDP_GSO_PAYLOAD / |o.pending[0]|)
  }

  lemma PushKeepsSlab(o: Outbox, peer: Peer, bytes: seq<Byte>, socketMax: nat, first: bool, second: bool)
    requires SlabOk(o)
    ensures SlabOk(Push(o, peer, bytes, socketMax, first, second).0)
  {
  }

  // ----- The slab

  /** What leaves the socket for one transmit. */
  function OnWire(t: Transmit): seq<Datagram> {
    if t.segmentSize.Some? && 0 < t.segmentSize.value
    then Addressed(Cut(t.contents, t.segmentSize.value), t.destination)
    else [Datagram(t.destination, t.contents)]
  }

  function Emitted(sent: seq<Transmit>): seq<Datagram> {
    if sent == [] then [] else Emitted(sent[..|sent| - 1]) + OnWire(sent[|sent| - 1])
  }

  lemma EmittedMore(sent: seq<Transmit>, t: Transmit)
    ensures Emitted(sent + [t]) == Emitted(sent) + OnWire(t)
  {
    assert (sent + [t])[..|sent|] == sent;
  }

  /** A slab leaves as the packets that went in. */
  lemma SlabOnWire(o: Outbox, peer: Peer)
    requires SlabOk(o) && o.pending != []
    ensures var size := if |o.pending| > 1 then Some(|o.pending[0]|) else None;
            OnWire(Transmit(peer, Concat(o.pending), size)) == Addressed(o.pending, peer)
  {
    if |o.pending| > 1 {
      CutConcat(o.pending, |o.pending[0]|);
    } else {
      assert Concat(o.pending) == o.pending[0] + Concat(o.pending[1..]) == o.pending[0];
    }
  }

  class UdpQspIo {
    var peer: Peer
    var sendBuf: seq<Byte>
    var sendSegmentSize: Option<nat>
    var sendSegments: nat
    var queue: seq<seq<Byte>>
    /** What the socket has taken so far. */
    var sent: seq<Transmit>
    /** The packets the slab is made of. */
    ghost var pending: seq<seq<Byte>>

    ghost function View(): Outbox
      reads this
    {
      Outbox(pending, Emitted(sent))
    }

    ghost predicate Valid()
      reads this
    {
      && sendBuf == Concat(pending)
      && sendSegments == |pending|
      && sendSegmentSize == (if pending == [] then None else Some(|pending[0]|))
      && SlabOk(View())
    }

    constructor (peer: Peer)
      ensures Valid() && View() == Outbox([], []) && this.peer == peer && queue == []
    {
      this.peer := peer;
      sendBuf, sendSegmentSize, sendSegments, queue, sent := [], None, 0, [], [];
      pending := [];
    }

    /** Pending packets are retargeted. */
    method SetPeer(peer: Peer)
      requires Valid()
      modifies this`peer
      ensures Valid() && View() == old(View()) && this.peer == peer
    {
      this.peer := peer;
    }

    method ClearSendSlab()
      modifies this`sendBuf, this`sendSegmentSize, this`sendSegments, this`pending
      ensures Valid() && View() == Outbox([], old(View()).delivered)
    {
      sendBuf, sendSegmentSize, sendSegments := [], None, 0;
      pending := [];
    }

    method FlushPending(ok: bool) returns (r: Result<(), SendError>)
      requires Valid()
      modifies this`sendBuf, this`sendSegmentSize, this`sendSegments, this`pending, this`sent
      ensures Valid() && View() == Flushed(old(View()), peer, ok || old(View()).pending == [])
      ensures r == if ok || old(View()).pending == [] then Ok(()) else Err(SocketError)
    {
      hide SlabOk, Emitted, Concat, Addressed, OnWire;
      if sendSegments == 0 {
        assert old(View()).delivered + Addressed([], peer) == View().delivered by { NoneAddressed(peer); }
        return Ok(());
      }
      var segmentSize := if sendSegments > 1 then sendSegmentSize else None;
      if !ok {
        return Err(SocketError);
      }
      var transmit := Transmit(peer, sendBuf, segmentSize);
      SlabOnWire(View(), peer);
      EmittedMore(sent, transmit);
      sent := sent + [transmit];
      ClearSendSlab();
      return Ok(());
    }

    method MustFlushBeforeAppend(size: nat, max: nat) returns (r: bool)
      requires Valid()
      ensures r == MustFlush(View(), size, max)
    {
      if sendSegments == 0 {
        return false;
      }
      return sendSegmentSize != Some(size) || sendSegments >= max;
    }

    method Append(bytes: seq<Byte>)
      requires Valid() && SlabOk(View().(pending := pending + [bytes]))
      modifies this`sendBuf, this`sendSegmentSize, this`sendSegments, this`pending
      ensures Valid() && View() == old(View()).(pending := old(pending) + [bytes])
    {
      ConcatAppend(pending, [bytes]);
      assert Concat([bytes]) == bytes + Concat([]);
      if sendSegments == 0 {
        sendSegmentSize := Some(|bytes|);
      }
      sendBuf := sendBuf + bytes;
      sendSegments := sendSegments + 1;
      pending := pending + [bytes];
    }

    method SendPacket(bytes: seq<Byte>, socketMax: nat, first: bool, second: bool) returns (r: Result<(), SendError>)
      requires Valid()
      modifies this`sendBuf, this`sendSegmentSize, this`sendSegments, this`pending, this`sent
      ensures Valid() && (View(), r) == Push(old(View()), peer, bytes, socketMax, first, second)
    {
      hide Emitted, Concat;
      if |bytes| == 0 {
        return Err(EmptyPacket);
      }
      if |bytes| > MAX_UDP_GSO_PAYLOAD {
        return Err(OversizedPacket);
      }
      var max := MaxSegments(socketMax, |bytes|);
      var flush := MustFlushBeforeAppend(|bytes|, max);
      if flush {
        r := FlushPending(first);
        if r.Err? {
          return;
        }
      }
      Append(bytes);
      if sendSegments >= max {
        r := FlushPending(second);
        return;
      }
      return Ok(());
    }

    method DiscardPendingSend() returns (discarded: nat)
      requires Valid()
      modifies this`sendBuf, this`sendSegmentSize, this`sendSegments, this`pending
      ensures Valid() && discarded == |old(View()).pending| && View() == Outbox([], old(View()).delivered)
    {
      discarded := sendSegments;
      ClearSendSlab();
    }

    /** Queues the datagrams of one batch that come from the peer. */
    method QueuePeerDatagrams(batch: seq<Received>)
      requires forall i :: 0 <= i < |batch| ==> batch[i].len <= |batch[i].buf|
      modifies this`queue
      ensures queue == old(queue) + FromPeer(batch, peer)
    {
      hide FromPeer;
      var i := 0;
      assert batch[0..] == batch;
      while i < |batch|
        invariant 0 <= i <= |batch|
        invariant queue + FromPeer(batch[i..], peer) == old(queue) + FromPeer(batch, peer)
      {
        var meta := batch[i];
        FromPeerMore(batch, i, peer);
        if meta.from == peer {
          var datagrams := Split(meta);
          ghost var later := FromPeer(batch[i + 1..], peer);
          assert (queue + datagrams) + later == queue + (datagrams + later);
          queue := queue + datagrams;
        }
        i := i + 1;
      }
      FromPeerNone(batch, peer);
    }

    /** The next queued datagram; reads batches while there is none. `None` waits for more. */
    method RecvPacket(capacity: nat, batches: seq<Batch>) returns (r: Option<Result<seq<Byte>, RecvError>>, used: nat)
      requires forall i :: 0 <= i < |batches| ==> WellFormed(batches[i])
      modifies this`queue
      ensures used <= |batches|
      ensures var arrived := old(queue) + Arrived(batches[..used], peer);
              match r
              case Some(Ok(bytes)) => arrived == [bytes] + queue && |bytes| <= capacity
              case Some(Err(Oversized(bytes))) => arrived == [bytes] + queue && |bytes| > capacity
              case Some(Err(Failed)) => arrived == queue == [] && 0 < used && batches[used - 1].Broken?
              case None => arrived == queue == [] && used == |batches|
    {
      used := 0;
      while queue == []
        invariant used <= |batches| && queue == old(queue) + Arrived(batches[..used], peer)
        decreases |batches| - used
      {
        if used == |batches| {
          return None, used;
        }
        assert batches[..used + 1][..used] == batches[..used];
        used := used + 1;
        if batches[used - 1].Broken? {
          return Some(Err(Failed)), used;
        }
        QueuePeerDatagrams(batches[used - 1].received);
      }
      var datagram := queue[0];
      queue := queue[1..];
      return Some(if |datagram| > capacity then Err(Oversized(datagram)) else Ok(datagram)), used;
    }
  }

  // ----- Receiving

  datatype Received = Received(from: Peer, buf: seq<Byte>, len: nat, stride: nat)

  function Datagrams(m: Received): seq<seq<Byte>>
    requires m.len <= |m.buf|
  {
    Cut(m.buf[..m.len], Max(m.stride, 1))
  }

  function FromPeer(batch: seq<Received>, peer: Peer): seq<seq<Byte>>
    requires forall i :: 0 <= i < |batch| ==> batch[i].len <= |batch[i].buf|
  {
    if batch == [] then []
    else (if batch[0].from == peer then Datagrams(batch[0]) else []) + FromPeer(batch[1..], peer)
  }

  lemma FromPeerMore(batch: seq<Received>, i: nat, peer: Peer)
    requires i < |batch| && forall i :: 0 <= i < |batch| ==> batch[i].len <= |batch[i].buf|
    ensures FromPeer(batch[i..], peer) ==
            (if batch[i].from == peer then Datagrams(batch[i]) else []) + FromPeer(batch[i + 1..], peer)
  {
    assert batch[i..][0] == batch[i] && batch[i..][1..] == batch[i + 1..];
  }

  lemma FromPeerNone(batch: seq<Received>, peer: Peer)
    requires forall i :: 0 <= i < |batch| ==> batch[i].len <= |batch[i].buf|
    ensures FromPeer(batch[|batch|..], peer) == []
  {
  }

  method Split(m: Received) returns (datagrams: seq<seq<Byte>>)
    requires m.len <= |m.buf|
    ensures datagrams == Datagrams(m)
  {
    var ranges := GroDatagramRanges(m.len, m.stride);
    SlicesAreCut(m.buf, ranges, m.len, Max(m.stride, 1), 0);
    assert m.buf[0..m.len] == m.buf[..m.len];
    datagrams := Slices(m.buf, ranges);
    assert datagrams[0..] == datagrams;
  }

  /** Reading a batch from the socket either works or fails. */
  datatype Batch = Batch(received: seq<Received>) | Broken

  datatype RecvError = Oversized(lost: seq<Byte>) | Failed

  ghost predicate WellFormed(b: Batch) {
    b.Batch? ==> forall i :: 0 <= i < |b.received| ==> b.received[i].len <= |b.received[i].buf|
  }

  /** Everything the peer sent in these batches, in order. */
  ghost function Arrived(batches: seq<Batch>, peer: Peer): seq<seq<Byte>>
    requires forall i :: 0 <= i < |batches| ==> WellFormed(batches[i])
  {
    if batches == [] then []
    else
      var last := batches[|batches| - 1];
      assert WellFormed(last);
      Arrived(batches[..|batches| - 1], peer) + (if last.Batch? then FromPeer(last.received, peer) else [])
  }

  /** Packets that went out in one offloaded send and arrive coalesced are told apart again. */
  lemma OffloadRoundTrip(o: Outbox, from: Peer, room: seq<Byte>)
    requires SlabOk(o) && o.pending != []
    ensures var bytes := Concat(o.pending);
            Datagrams(Received(from, bytes + room, |bytes|, |o.pending[0]|)) == o.pending
  {
    var bytes := Concat(o.pending);
    assert (bytes + room)[..|bytes|] == bytes;
    CutConcat(o.pending, |o.pending[0]|);
  }

  // ----- Runs of the sender

  datatype Op =
    | Send(bytes: seq<Byte>, socketMax: nat, first: bool, second: bool)
    | Flush(ok: bool)
    | Discard
    | Retarget(peer: Peer)

  datatype Sender = Sender(peer: Peer, out: Outbox)

  function Perform(s: Sender, op: Op): Sender {
    match op
    case Send(bytes, socketMax, first, second) => s.(out := Push(s.out, s.peer, bytes, socketMax, first, second).0)
    case Flush(ok) => s.(out := Flushed(s.out, s.peer, ok))
    case Discard => s.(out := Outbox([], s.out.delivered))
    case Retarget(peer) => s.(peer := peer)
  }

  function PerformAll(s: Sender, ops: seq<Op>): Sender
    decreases |ops|
  {
    if ops == [] then s else PerformAll(Perform(s, ops[0]), ops[1..])
  }

  /** The packet is accepted exactly if its size is legal and a flush that must come first succeeds. */
  predicate Takes(s: Sender, op: Op) {
    && op.Send?
    && 0 < |op.bytes| <= MAX_UDP_GSO_PAYLOAD
    && (MustFlush(s.out, |op.bytes|, MaxSegments(op.socketMax, |op.bytes|)) ==> op.first)
  }

  function KeptStep(s: Sender, op: Op, kept: seq<seq<Byte>>): seq<seq<Byte>> {
    if Takes(s, op) then kept + [op.bytes]
    else if op.Discard? && |s.out.pending| <= |kept| then kept[..|kept| - |s.out.pending|]
    else kept
  }

  /** The packets a run leaves in the sender's keeping: what it accepted, less what was discarded unsent. */
  function Kept(s: Sender, ops: seq<Op>, kept: seq<seq<Byte>>): seq<seq<Byte>>
    decreases |ops|
  {
    if ops == [] then kept else Kept(Perform(s, ops[0]), ops[1..], KeptStep(s, ops[0], kept))
  }

  function Holds(o: Outbox): seq<seq<Byte>> {
    Payloads(o.delivered) + o.pending
  }

  lemma FlushHolds(o: Outbox, peer: Peer, sent: bool)
    ensures Holds(Flushed(o, peer, sent)) == Holds(o)
  {
    assert Payloads(o.delivered + Addressed(o.pending, peer)) == Payloads(o.delivered) + o.pending;
  }

  lemma PushHolds(s: Sender, op: Op)
    requires op.Send?
    ensures Holds(Perform(s, op).out) == Holds(s.out) + if Takes(s, op) then [op.bytes] else []
  {
    hide Holds, Flushed;
    if Takes(s, op) {
      var max := MaxSegments(op.socketMax, |op.bytes|);
      var flush := MustFlush(s.out, |op.bytes|, max);
      var room := if flush then Flushed(s.out, s.peer, true) else s.out;
      FlushHolds(s.out, s.peer, true);
      var more := room.(pending := room.pending + [op.bytes]);
      FlushHolds(more, s.peer, op.second);
      assert Holds(more) == Holds(room) + [op.bytes] by { HoldsMore(room, op.bytes); }
    }
  }

  lemma HoldsMore(o: Outbox, bytes: seq<Byte>)
    ensures Holds(o.(pending := o.pending + [bytes])) == Holds(o) + [bytes]
  {
  }

  lemma DiscardHolds(o: Outbox)
    ensures |o.pending| <= |Holds(o)| && Holds(Outbox([], o.delivered)) == Holds(o)[..|Holds(o)| - |o.pending|]
  {
  }

  lemma StepHolds(s: Sender, op: Op)
    requires SlabOk(s.out)
    ensures Holds(Perform(s, op).out) == KeptStep(s, op, Holds(s.out)) && SlabOk(Perform(s, op).out)
  {
    hide Holds, SlabOk, Push, Flushed;
    match op
    case Send(bytes, socketMax, first, second) =>
      PushHolds(s, op);
      PushKeepsSlab(s.out, s.peer, bytes, socketMax, first, second);
    case Flush(ok) =>
      FlushHolds(s.out, s.peer, ok);
      FlushedSlab(s.out, s.peer, ok);
    case Discard =>
      DiscardHolds(s.out);
      EmptySlab(Outbox([], s.out.delivered));
    case Retarget(_) =>
  }

  /**
   Over every run, the payloads delivered followed by those pending are exactly the packets accepted
   less the ones discarded, each once and in order; and one send can always carry what is pending.
   */
  lemma {:induction false} NothingLostOrRepeated(s: Sender, ops: seq<Op>)
    requires SlabOk(s.out)
    ensures Holds(PerformAll(s, ops).out) == Kept(s, ops, Holds(s.out))
    ensures SlabOk(PerformAll(s, ops).out)
    decreases |ops|
  {
    hide Holds, SlabOk, Perform, KeptStep;
    if ops != [] {
      StepHolds(s, ops[0]);
      NothingLostOrRepeated(Perform(s, ops[0]), ops[1..]);
    }
  }

  lemma EmptySlab(o: Outbox)
    requires o.pending == []
    ensures SlabOk(o)
  {
  }

  lemma FlushedSlab(o: Outbox, peer: Peer, ok: bool)
    requires SlabOk(o)
    ensures SlabOk(Flushed(o, peer, ok))
  {
  }

  /** Success means accepted; an error means not accepted, unless it is the flush of the full slab that failed. */
  lemma SendOutcome(s: Sender, op: Op)
    requires op.Send?
    ensures var (out, r) := Push(s.out, s.peer, op.bytes, op.socketMax, op.first, op.second);
            && (r.Ok? ==> Takes(s, op))
            && (r.Err? && Takes(s, op) <==>
                  && Takes(s, op) && !op.second
                  && var max := MaxSegments(op.socketMax, |op.bytes|);
                     max == 1 || (|s.out.pending| + 1 >= max && !MustFlush(s.out, |op.bytes|, max)))
  {
  }

  /** A packet goes out before it must only when the slab cannot take it or cannot grow any more. */
  lemma FlushesOnlyWhenNeeded(s: Sender, op: Op)
    requires SlabOk(s.out) && op.Send? && Takes(s, op)
    ensures var max := MaxSegments(op.socketMax, |op.bytes|);
            var out := Perform(s, op).out;
            var fits := s.out.pending != [] && |s.out.pending[0]| == |op.bytes| && |s.out.pending| + 1 < max;
            fits ==> out == s.out.(pending := s.out.pending + [op.bytes])
  {
  }

  /** So a packet can be reported as failed and be delivered all the same by the next flush. */
  lemma FailedYetDelivered(peer: Peer, packet: seq<Byte>)
    requires 0 < |packet| <= MAX_UDP_GSO_PAYLOAD
    ensures var (out, r) := Push(Outbox([], []), peer, packet, 1, true, false);
            r.Err? && Flushed(out, peer, true).delivered == [Datagram(peer, packet)]
  {
  }

  // ----- Destinations and errors

  /**
   A flush that goes through leaves nothing pending and sends every pending packet, in order, to the peer
   of that moment; no step touches what was delivered before.
   */
  lemma DeliveredToCurrentPeer(s: Sender, op: Op)
    ensures var before, after := s.out.delivered, Perform(s, op).out.delivered;
            && before <= after
            && (forall i :: |before| <= i < |after| ==> after[i].to == s.peer)
            && Perform(s, op).peer == (if op.Retarget? then op.peer else s.peer)
            && (op.Retarget? ==> Perform(s, op).out == s.out)
    ensures var o := Flushed(s.out, s.peer, true);
            && o.pending == [] && |o.delivered| == |s.out.delivered| + |s.out.pending|
            && (forall i :: 0 <= i < |s.out.pending| ==>
                  o.delivered[|s.out.delivered| + i] == Datagram(s.peer, s.out.pending[i]))
  {
  }

  /** A flush delivers all or nothing, and what no flush has sent is still pending: failures deliver nothing. */
  lemma FailuresDeliverNothing(s: Sender, op: Op)
    ensures var s' := Perform(s, op);
            && (op.Flush? && op.ok ==> s'.out == Flushed(s.out, s.peer, true) && s'.out.pending == [])
            && (op.Flush? && !op.ok ==> s' == s)
            && (op.Send? && !op.first && !op.second ==>
                  && s'.out.delivered == s.out.delivered
                  && s'.out.pending == s.out.pending + if Takes(s, op) then [op.bytes] else [])
  {
    assert s.out.pending + [] == s.out.pending;
  }

  /** The error of a send that failed, and what it says. */
  lemma SendErrors(s: Sender, op: Op)
    requires op.Send?
    ensures var r := Push(s.out, s.peer, op.bytes, op.socketMax, op.first, op.second).1;
            && (r == Err(EmptyPacket) <==> |op.bytes| == 0)
            && (r == Err(OversizedPacket) <==> |op.bytes| > 65535)
            && (r == Err(SocketError) ==> !op.first || !op.second)
  {
  }

  // ----- What arrives

  lemma {:induction false} ArrivedAppend(a: seq<Batch>, b: seq<Batch>, peer: Peer)
    requires forall i :: 0 <= i < |a| ==> WellFormed(a[i])
    requires forall i :: 0 <= i < |b| ==> WellFormed(b[i])
    ensures Arrived(a + b, peer) == Arrived(a, peer) + Arrived(b, peer)
    decreases |b|
  {
    hide FromPeer, WellFormed, Arrived;
    if b == [] {
      assert a + b == a;
      NoneArrived(peer);
      assert Arrived(a, peer) + [] == Arrived(a, peer);
    } else {
      var init, last := b[..|b| - 1], b[|b| - 1];
      ArrivedAppend(a, init, peer);
      assert a + b == (a + init) + [last] && b == init + [last];
      ArrivedMore(a + init, last, peer);
      ArrivedMore(init, last, peer);
      Regroup(Arrived(a, peer), Arrived(init, peer), Arrived([last], peer));
    }
  }

  lemma Regroup(a: seq<seq<Byte>>, b: seq<seq<Byte>>, c: seq<seq<Byte>>)
    ensures (a + b) + c == a + (b + c)
  {
  }

  lemma NoneArrived(peer: Peer)
    ensures Arrived([], peer) == []
  {
  }

  lemma ArrivedMore(init: seq<Batch>, last: Batch, peer: Peer)
    requires WellFormed(last) && forall i :: 0 <= i < |init| ==> WellFormed(init[i])
    ensures Arrived(init + [last], peer) == Arrived(init, peer) + Arrived([last], peer)
  {
    hide FromPeer, WellFormed;
    assert (init + [last])[..|init|] == init && [last][..0] == [];
  }

  /** A coalesced read brings its packets if the peer sent it, and nothing if somebody else did. */
  lemma CoalescedArrives(from: Peer, packets: seq<seq<Byte>>, n: nat, room: seq<Byte>, peer: Peer)
    requires 0 < n && Segmentable(packets, n)
    ensures var m := Received(from, Concat(packets) + room, |Concat(packets)|, n);
            && WellFormed(Batch([m]))
            && Arrived([Batch([m])], peer) == if from == peer then packets else []
  {
    var m := Received(from, Concat(packets) + room, |Concat(packets)|, n);
    assert m.buf[..m.len] == Concat(packets);
    CutConcat(packets, n);
    assert [m][1..] == [] && [Batch([m])][..0] == [];
    assert FromPeer([m], peer) == (if from == peer then packets else []) + FromPeer([], peer);
    assert Arrived([Batch([m])], peer) == [] + FromPeer([m], peer);
  }

  lemma {:induction false} ReadsOfABatch(a: seq<Received>, b: seq<Received>, peer: Peer)
    requires forall i :: 0 <= i < |a| ==> a[i].len <= |a[i].buf|
    requires forall i :: 0 <= i < |b| ==> b[i].len <= |b[i].buf|
    ensures FromPeer(a + b, peer) == FromPeer(a, peer) + FromPeer(b, peer)
    decreases |a|
  {
    hide Datagrams, FromPeer;
    if a == [] {
      assert a + b == b;
      NoReads(peer);
    } else {
      ReadsOfABatch(a[1..], b, peer);
      assert (a + b)[1..] == a[1..] + b && (a + b)[0] == a[0] && (a + b)[0..] == a + b && a[0..] == a;
      FromPeerMore(a + b, 0, peer);
      FromPeerMore(a, 0, peer);
      Regroup(if a[0].from == peer then Datagrams(a[0]) else [], FromPeer(a[1..], peer), FromPeer(b, peer));
    }
  }

  lemma NoReads(peer: Peer)
    ensures FromPeer([], peer) == []
  {
  }
}
