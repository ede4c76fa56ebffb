/**
 A UDP-QSP session (slt-core/src/crypto/udp_qsp/session.rs): packet numbers, rotating keys, the
 retained previous keys and the shared replay window.

 Keys are represented by their generation. Packet protection is ideal: a sealed packet opens
 under the keys and the packet number it was sealed with, and under no others. `deriveOk`,
 `cloneOk`, `protectOk` and `ioOk` are the outcomes of deriving and copying keys, sealing and the
 socket.
 */
module QspSession {
  import opened Bytes
  import opened PacketNumber
  import opened Replay
  import opened RekeySpec

  datatype Packet = Sealed(gen: nat, pn: nat, phase: bool, payload: seq<Byte>) | Noise

  datatype QspSessionError = Io | Crypto | ReplayedPacket | TooOldPacket | PacketNumberOverflow

  datatype OpenedPacket = OpenedPacket(pn: nat, phase: bool, payload: seq<Byte>)

  datatype PreviousRxKeys = PreviousRxKeys(gen: nat, validUntilPn: nat)

  const HP_SAMPLE_LEN: nat := 16
  const AEAD_TAG_LEN: nat := 16

  /** What is sealed: short payloads are filled up with zeros so that header protection finds its sample. */
  function Padded(payload: seq<Byte>, pn: nat): seq<Byte> {
    var minCipherLen := 4 + HP_SAMPLE_LEN - PacketNumberLen(pn);
    payload + seq(Max(0, minCipherLen - (|payload| + AEAD_TAG_LEN)), _ => 0)
  }

  /**
   A protected packet always reaches its header-protection sample, padding is no longer than that needs,
   and a message frame, of at least five bytes, is never padded.
   */
  lemma PaddedReachesSample(dcidLen: nat, payload: seq<Byte>, pn: nat)
    ensures var packetLen := 1 + dcidLen + PacketNumberLen(pn) + |Padded(payload, pn)| + 16;
            var sampleEnd := 1 + dcidLen + 4 + 16;
            && sampleEnd <= packetLen && payload <= Padded(payload, pn)
            && (Padded(payload, pn) == payload || packetLen == sampleEnd)
            && (forall i :: |payload| <= i < |Padded(payload, pn)| ==> Padded(payload, pn)[i] == 0)
    ensures 5 <= |payload| ==> Padded(payload, pn) == payload
  {
  }

  /** A packet some peer that started at `start` in `phase` really sealed. */
  ghost predicate Genuine(p: Packet, start: nat, phase: bool) {
    p.Sealed? ==>
      && start <= p.pn <= U64_MAX
      && p.gen == Generation(start, p.pn)
      && p.phase == (phase != Odd(p.gen))
  }

  /** `UdpQspKeys::open_into`. */
  function OpenInto(keyGen: nat, p: Packet, expected: nat): Option<OpenedPacket> {
    if p.Noise? then None
    else
      var pn := Reconstruct(Truncated(p.pn), expected, PacketNumberLen(p.pn));
      if keyGen == p.gen && pn == p.pn then Some(OpenedPacket(pn, p.phase, p.payload)) else None
  }

  lemma OpenIntoExactly(keyGen: nat, p: Packet, expected: nat)
    requires (p.Sealed? ==> p.pn <= U64_MAX) && expected <= U64_MAX
    ensures OpenInto(keyGen, p, expected)
         == if p.Sealed? && keyGen == p.gen && Identifies(p.pn, expected, PacketNumberLen(p.pn))
            then Some(OpenedPacket(p.pn, p.phase, p.payload)) else None
  {
    if p.Sealed? {
      ReconstructExactly(p.pn, expected, PacketNumberLen(p.pn));
    }
  }

  function NextRekeyAfter(pn: nat): (r: Option<nat>)
    ensures r == CheckedAdd((pn / KEY_UPDATE_INTERVAL + 1) * KEY_UPDATE_INTERVAL, 0)
  {
    var rem := pn % KEY_UPDATE_INTERVAL;
    var step := if rem == 0 then KEY_UPDATE_INTERVAL else KEY_UPDATE_INTERVAL - rem;
    CheckedAdd(pn, step)
  }

  /** The threshold of a generation, if packet numbers reach that far. */
  function RekeyAt(start: nat, gen: nat): Option<nat> {
    CheckedAdd(Threshold(start, gen), 0)
  }

  function ValidUntil(start: nat, gen: nat): nat {
    Min(Threshold(start, gen) + PN_REPLAY_WINDOW, U64_MAX)
  }

  lemma RekeyChain(start: nat, gen: nat)
    ensures NextRekeyAfter(Threshold(start, gen)) == RekeyAt(start, gen + 1)
  {
  }

  /** The keys that open `pn` are the current or retained ones, or are derived because they are near. */
  predicate KeysHeld(r: Receiver, pn: nat, deriveOk: bool) {
    var start, gen := r.seen.initial, Generation(r.seen.initial, pn);
    || gen == r.gen
    || (gen == r.gen - 1 && NextExpected(r.seen) <= ValidUntil(start, r.gen))
    || (gen == r.gen + 1 && deriveOk && Threshold(start, r.gen + 1) <= NextExpected(r.seen) + KEY_UPDATE_LATE_MARGIN)
  }

  /** What the replay window says to a packet that was opened. */
  function Verdict(s: Seen, p: Packet): Result<OpenedPacket, QspSessionError>
    requires p.Sealed?
  {
    match Check(s, p.pn)
    case Ok(_) => Ok(OpenedPacket(p.pn, p.phase, p.payload))
    case Err(Replayed) => Err(ReplayedPacket)
    case Err(TooOld) => Err(TooOldPacket)
  }

  /** The receiver after a packet was opened, and the replay window asked. */
  function Admitted(r: Receiver, pn: nat): Receiver {
    Receiver(if Check(r.seen, pn).Ok? then Max(r.gen, Generation(r.seen.initial, pn)) else r.gen, Accept(r.seen, pn))
  }

  /** The answer to a sealed packet. */
  function Answer(r: Receiver, p: Packet, deriveOk: bool): Result<OpenedPacket, QspSessionError>
    requires p.Sealed?
  {
    if Identifies(p.pn, NextExpected(r.seen), PacketNumberLen(p.pn)) && KeysHeld(r, p.pn, deriveOk)
    then Verdict(r.seen, p) else Err(Crypto)
  }

  /** Dropping old keys refuses nothing that the replay window would not refuse as well. */
  lemma AnswerExactly(r: Receiver, p: Packet, deriveOk: bool)
    requires InStep(r) && p.Sealed? && r.seen.initial <= p.pn
    ensures Answer(r, p, deriveOk).Ok? <==> Opens(r, p.pn, deriveOk)
    ensures Opened(r, p.pn, deriveOk) ==
              if Identifies(p.pn, NextExpected(r.seen), PacketNumberLen(p.pn)) && KeysHeld(r, p.pn, deriveOk)
              then Admitted(r, p.pn) else r
  {
    hide Identifies, InStep, Generation, Threshold;
    OlderGeneration(r, p.pn);
  }

  lemma AdmitInStep(r: Receiver, pn: nat, next: bool)
    requires InStep(r) && r.seen.initial <= pn <= U64_MAX && KeysHeld(r, pn, next)
    ensures InStep(Admitted(r, pn))
  {
  }

  /** The keys that open a packet, with what they open it to. */
  datatype KeyChoice =
    | Current(packet: OpenedPacket)
    | Previous(packet: OpenedPacket)
    | Next(packet: OpenedPacket)
    | NoKeys

  lemma ExpectedGrows(r: Receiver, pn: nat)
    requires InStep(r)
    ensures NextExpected(r.seen) <= NextExpected(Accept(r.seen, pn)) && NextExpected(r.seen) <= U64_MAX
    ensures Accept(r.seen, pn).initial == r.seen.initial
  {
  }

  function Distance(a: nat, b: nat): nat {
    if a >= b then a - b else b - a
  }

  /** Packets of an older generation that still fit the replay window find the previous keys retained. */
  lemma OlderGeneration(r: Receiver, pn: nat)
    requires InStep(r) && r.seen.initial <= pn
    ensures Generation(r.seen.initial, pn) < r.gen && Check(r.seen, pn).Ok? ==>
              && Generation(r.seen.initial, pn) == r.gen - 1
              && NextExpected(r.seen) <= ValidUntil(r.seen.initial, r.gen)
  {
  }

  /** Packets of the next generation are new, and when they are near, the previous keys are gone. */
  lemma NextGeneration(r: Receiver, pn: nat)
    requires InStep(r) && r.seen.initial <= pn <= U64_MAX
    ensures NextExpected(r.seen) <= Threshold(r.seen.initial, r.gen + 1)
    ensures Generation(r.seen.initial, pn) == r.gen + 1 ==>
              && Check(r.seen, pn).Ok?
              && Threshold(r.seen.initial, r.gen + 1) <= pn
              && (KeysReach(r, pn, true) && r.gen > 0 ==> NextExpected(r.seen) > ValidUntil(r.seen.initial, r.gen))
  {
  }

  // ----- Any packet at all

  /** A receiver with the phase it began in, and whether it retains the keys of the generation before. */
  datatype Ring = Ring(phase: bool, recv: Receiver, retained: bool)

  function PhaseOf(k: Ring): bool {
    k.phase != Odd(k.recv.gen)
  }

  predicate Retains(k: Ring) {
    k.retained && NextExpected(k.recv.seen) <= ValidUntil(k.recv.seen.initial, k.recv.gen)
  }

  /** The next generation is tried: nothing is retained and its start is near, on either side. */
  predicate TriesNext(k: Ring) {
    var start, gen := k.recv.seen.initial, k.recv.gen;
    && !Retains(k) && RekeyAt(start, gen + 1).Some?
    && Distance(NextExpected(k.recv.seen), RekeyAt(start, gen + 1).value) <= KEY_UPDATE_LATE_MARGIN
  }

  /** The keys that open a packet, whoever sealed it. */
  function Choice(k: Ring, p: Packet, deriveOk: bool): KeyChoice {
    if p.Noise? || !Identifies(p.pn, NextExpected(k.recv.seen), PacketNumberLen(p.pn)) then NoKeys
    else
      var packet, gen := OpenedPacket(p.pn, p.phase, p.payload), k.recv.gen;
      if p.gen == gen && p.phase == PhaseOf(k) then Current(packet)
      else if Retains(k) && p.gen == gen - 1 && p.phase != PhaseOf(k) then Previous(packet)
      else if TriesNext(k) && deriveOk && p.gen == gen + 1 && p.phase != PhaseOf(k) then Next(packet)
      else NoKeys
  }

  predicate Fails(choice: KeyChoice, cloneOk: bool) {
    choice.NoKeys? || (choice.Next? && !cloneOk)
  }

  function Reply(k: Ring, p: Packet, deriveOk: bool, cloneOk: bool): Result<OpenedPacket, QspSessionError> {
    if Fails(Choice(k, p, deriveOk), cloneOk) then Err(Crypto) else Verdict(k.recv.seen, p)
  }

  function Taken(k: Ring, p: Packet, deriveOk: bool, cloneOk: bool): Ring {
    var choice := Choice(k, p, deriveOk);
    if Fails(choice, cloneOk) then k.(retained := Retains(k))
    else if choice.Next? then Ring(k.phase, Receiver(k.recv.gen + 1, Accept(k.recv.seen, p.pn)), true)
    else Ring(k.phase, k.recv.(seen := Accept(k.recv.seen, p.pn)), Retains(k))
  }

  /** While the keys of the generation before are retained, nothing sealed for a later one is opened. */
  lemma NoRotationWhileRetaining(k: Ring, p: Packet, deriveOk: bool, cloneOk: bool)
    requires Retains(k) && p.Sealed? && p.gen > k.recv.gen
    ensures Reply(k, p, deriveOk, cloneOk) == Err(Crypto) && Taken(k, p, deriveOk, cloneOk) == k
  {
  }

  datatype Attempt = Attempt(packet: Packet, deriveOk: bool, cloneOk: bool)

  /** The numbers accepted from a run of packets. */
  function AcceptedFrom(k: Ring, run: seq<Attempt>): seq<nat>
    decreases |run|
  {
    if run == [] then []
    else
      var a := run[0];
      (if Reply(k, a.packet, a.deriveOk, a.cloneOk).Ok? then [a.packet.pn] else [])
      + AcceptedFrom(Taken(k, a.packet, a.deriveOk, a.cloneOk), run[1..])
  }

  ghost predicate SeenOk(s: Seen) {
    && (s.largest.None? ==> s.accepted == {})
    && (s.largest.Some? ==> forall n :: n in s.accepted ==> n <= s.largest.value)
  }

  lemma AcceptsOnlyNew(s: Seen, pn: nat)
    requires SeenOk(s)
    ensures SeenOk(Accept(s, pn)) && s.accepted <= Accept(s, pn).accepted
    ensures Check(s, pn).Ok? ==> pn !in s.accepted && pn in Accept(s, pn).accepted
  {
  }

  lemma TakenSeen(k: Ring, a: Attempt)
    requires SeenOk(k.recv.seen)
    ensures var k' := Taken(k, a.packet, a.deriveOk, a.cloneOk);
            && SeenOk(k'.recv.seen) && k.recv.seen.accepted <= k'.recv.seen.accepted
            && (Reply(k, a.packet, a.deriveOk, a.cloneOk).Ok? ==>
                  a.packet.Sealed? && a.packet.pn !in k.recv.seen.accepted && a.packet.pn in k'.recv.seen.accepted)
  {
    hide Identifies, Retains, TriesNext, Check, Accept, SeenOk;
    if a.packet.Sealed? {
      AcceptsOnlyNew(k.recv.seen, a.packet.pn);
    }
  }

  /**
   Whoever sealed the packets, in step with this receiver or not, with whatever phase bits and failures,
   no number is accepted twice.
   */
  lemma {:induction false} AcceptedOnceFromAnyone(k: Ring, run: seq<Attempt>)
    requires SeenOk(k.recv.seen)
    ensures Unique(AcceptedFrom(k, run))
    ensures forall pn :: pn in AcceptedFrom(k, run) ==> pn !in k.recv.seen.accepted
    decreases |run|
  {
    hide Reply, Taken, SeenOk;
    if run != [] {
      var a := run[0];
      var k' := Taken(k, a.packet, a.deriveOk, a.cloneOk);
      TakenSeen(k, a);
      AcceptedOnceFromAnyone(k', run[1..]);
      var tail := AcceptedFrom(k', run[1..]);
      if Reply(k, a.packet, a.deriveOk, a.cloneOk).Ok? {
        assert AcceptedFrom(k, run) == [a.packet.pn] + tail;
      } else {
        assert AcceptedFrom(k, run) == [] + tail == tail;
      }
    }
  }

  /** What is accepted is what was sealed, whoever sealed it. */
  lemma OpenedAsSealed(k: Ring, p: Packet, deriveOk: bool, cloneOk: bool)
    ensures var r := Reply(k, p, deriveOk, cloneOk);
            r.Ok? ==> p.Sealed? && r.value.pn == p.pn && r.value.phase == p.phase && r.value.payload == p.payload
  {
    hide Identifies, Check, Retains, TriesNext;
  }

  // ----- Packets of a peer in step

  /** The ring of a receiver that has only heard a peer in step: old keys go only when they are of no use. */
  ghost predicate Settled(k: Ring) {
    && InStep(k.recv)
    && (k.retained ==> k.recv.gen > 0)
    && (!k.retained && k.recv.gen > 0 ==> NextExpected(k.recv.seen) > ValidUntil(k.recv.seen.initial, k.recv.gen))
  }

  lemma ChoiceOfGenuine(k: Ring, p: Packet, deriveOk: bool)
    requires Settled(k) && p.Sealed? && Genuine(p, k.recv.seen.initial, k.phase)
    ensures var choice := Choice(k, p, deriveOk);
            && (!choice.NoKeys? <==>
                  && Identifies(p.pn, NextExpected(k.recv.seen), PacketNumberLen(p.pn))
                  && KeysHeld(k.recv, p.pn, deriveOk))
            && (choice.Current? ==> p.gen == k.recv.gen)
            && (choice.Previous? ==> p.gen == k.recv.gen - 1)
            && (choice.Next? ==> p.gen == k.recv.gen + 1 && Check(k.recv.seen, p.pn).Ok?)
  {
    hide Identifies, Generation, Threshold, InStep, Check;
    NextGeneration(k.recv, p.pn);
    OlderGeneration(k.recv, p.pn);
    if p.gen == k.recv.gen + 1 {
      NextInRange(k.recv, p.pn);
    }
  }

  lemma NextInRange(r: Receiver, pn: nat)
    requires r.seen.initial <= pn <= U64_MAX && Generation(r.seen.initial, pn) == r.gen + 1
    ensures RekeyAt(r.seen.initial, r.gen + 1) == Some(Threshold(r.seen.initial, r.gen + 1))
  {
  }

  /** For such a peer the answer is the one of the rekey specification, and the receiver stays settled. */
  lemma GenuineExactly(k: Ring, p: Packet, deriveOk: bool, cloneOk: bool)
    requires Settled(k) && p.Sealed? && Genuine(p, k.recv.seen.initial, k.phase)
    ensures Reply(k, p, deriveOk, cloneOk) == Answer(k.recv, p, deriveOk && cloneOk)
    ensures Taken(k, p, deriveOk, cloneOk).recv == Opened(k.recv, p.pn, deriveOk && cloneOk)
    ensures Settled(Taken(k, p, deriveOk, cloneOk))
  {
    hide Identifies, Generation, Threshold, InStep, Check, NextExpected, Choice, Accept, Opened, ValidUntil, TriesNext;
    ChoiceOfGenuine(k, p, deriveOk);
    AnswerExactly(k.recv, p, deriveOk && cloneOk);
    ExpectedGrows(k.recv, p.pn);
    ChoiceDerives(k, p, deriveOk);
    if !Choice(k, p, deriveOk).NoKeys? {
      AdmitInStep(k.recv, p.pn, deriveOk);
    }
  }

  /**
   From sender to receiver: a packet sealed for a payload is either refused or yields that payload, followed
   by zeros only if it is shorter than three bytes.
   */
  lemma PayloadArrives(k: Ring, p: Packet, payload: seq<Byte>, deriveOk: bool, cloneOk: bool)
    requires p.Sealed? && p.payload == Padded(payload, p.pn)
    ensures var r := Reply(k, p, deriveOk, cloneOk);
            r.Ok? ==> payload <= r.value.payload && (3 <= |payload| ==> r.value.payload == payload)
  {
    hide Reply;
    OpenedAsSealed(k, p, deriveOk, cloneOk);
    PaddedReachesSample(0, payload, p.pn);
  }

  /**
   The refusals of packets from a peer in step, told apart: a replay is a number accepted before and still in
   the window, an old one is 1024 or more behind, and everything else was sealed with keys out of reach or
   is not identified.
   */
  lemma RefusedExactly(r: Receiver, p: Packet, deriveOk: bool)
    requires InStep(r) && p.Sealed? && r.seen.initial <= p.pn <= U64_MAX
    ensures var answer := Answer(r, p, deriveOk);
            var opens := Identifies(p.pn, NextExpected(r.seen), PacketNumberLen(p.pn)) && KeysHeld(r, p.pn, deriveOk);
            && (answer == Err(Crypto) <==> !opens)
            && (answer == Err(ReplayedPacket) <==>
                  opens && r.seen.largest.Some? && r.seen.largest.value < p.pn + 1024 && p.pn in r.seen.accepted)
            && (answer == Err(TooOldPacket) <==>
                  opens && r.seen.largest.Some? && p.pn + 1024 <= r.seen.largest.value)
  {
    hide Identifies, KeysHeld;
  }

  lemma ChoiceDerives(k: Ring, p: Packet, deriveOk: bool)
    ensures Choice(k, p, deriveOk).Next? ==> deriveOk
  {
    hide Identifies;
  }

  class QuicQspSession {
    ghost const sendStart: nat
    ghost const recvStart: nat
    ghost const initialPhase: bool
    var txGen: nat
    var rxGen: nat
    var txKeyPhase: bool
    var rxKeyPhase: bool
    var nextPn: nat
    var txNextRekeyPn: Option<nat>
    var rxNextRekeyPn: Option<nat>
    var previousRx: Option<PreviousRxKeys>
    const replayWindow: ReplayWindow
    ghost var sealedAs: seq<(nat, nat)>

    ghost predicate ValidTx()
      reads this
    {
      && sendStart <= nextPn <= U64_MAX
      && txGen <= Generation(sendStart, nextPn)
      && txNextRekeyPn == RekeyAt(sendStart, txGen + 1)
      && txKeyPhase == (initialPhase != Odd(txGen))
      // every nonce, a generation with a packet number, was used at most once
      && (forall i :: 0 <= i < |sealedAs| ==> sealedAs[i].1 < nextPn)
      && (forall i, j :: 0 <= i < j < |sealedAs| ==> sealedAs[i].1 < sealedAs[j].1)
    }

    /** Thresholds, phase and retained keys are those of the generation, whatever packets have come. */
    ghost predicate ValidKeys()
      reads this, replayWindow, replayWindow.bits
    {
      && replayWindow.Valid() && replayWindow.initialExpected == recvStart <= U64_MAX
      && rxNextRekeyPn == RekeyAt(recvStart, rxGen + 1)
      && rxKeyPhase == (initialPhase != Odd(rxGen))
      && (previousRx.Some? ==> rxGen > 0 && previousRx.value == PreviousRxKeys(rxGen - 1, ValidUntil(recvStart, rxGen)))
    }

    /** So far the session has only heard a peer in step with it. */
    ghost predicate ValidRx()
      reads this, replayWindow, replayWindow.bits
    {
      ValidKeys() && Settled(RingView())
    }

    ghost function RingView(): Ring
      reads this, replayWindow
    {
      Ring(initialPhase, View(), previousRx.Some?)
    }

    ghost function View(): Receiver
      reads this, replayWindow
    {
      Receiver(rxGen, replayWindow.View())
    }

    constructor (sendPn: nat, recvExpectedPn: nat, keyPhase: bool)
      requires sendPn <= U64_MAX && recvExpectedPn <= U64_MAX
      ensures ValidTx() && ValidRx() && nextPn == sendPn && View() == Fresh(recvExpectedPn)
      ensures sendStart == sendPn && recvStart == recvExpectedPn && initialPhase == keyPhase
      ensures fresh(replayWindow) && fresh(replayWindow.bits) && sealedAs == []
    {
      sendStart, recvStart, initialPhase := sendPn, recvExpectedPn, keyPhase;
      txGen, rxGen := 0, 0;
      txKeyPhase, rxKeyPhase := keyPhase, keyPhase;
      nextPn := sendPn;
      txNextRekeyPn := NextRekeyAfter(sendPn);
      rxNextRekeyPn := NextRekeyAfter(recvExpectedPn);
      previousRx := None;
      replayWindow := new ReplayWindow(recvExpectedPn);
      sealedAs := [];
    }

    method MaybeRotateTxKeys(pn: nat, deriveOk: bool) returns (ok: bool)
      requires ValidTx() && pn == nextPn
      modifies this`txGen, this`txKeyPhase, this`txNextRekeyPn
      ensures ValidTx()
      ensures ok ==> txGen == Generation(sendStart, pn)
      ensures !deriveOk ==> txGen == old(txGen)
      ensures ok <==> deriveOk || old(txGen) == Generation(sendStart, pn)
    {
      while txNextRekeyPn.Some? && pn >= txNextRekeyPn.value
        invariant ValidTx() && (!deriveOk ==> txGen == old(txGen))
        decreases Generation(sendStart, pn) - txGen
      {
        if !deriveOk {
          return false;
        }
        txKeyPhase := !txKeyPhase;
        txNextRekeyPn := NextRekeyAfter(txNextRekeyPn.value);
        txGen := txGen + 1;
      }
      return true;
    }

    /**
     Seal and send one payload. Once its packet number is consumed it is never used again,
     whether sealing or the socket fails afterwards or not.
     */
    method Send(payload: seq<Byte>, deriveOk: bool, protectOk: bool, ioOk: bool)
      returns (r: Result<(), QspSessionError>, packet: Packet)
      requires ValidTx()
      modifies this`txGen, this`txKeyPhase, this`txNextRekeyPn, this`nextPn, this`sealedAs
      ensures ValidTx()
      ensures packet.Sealed? ==> packet.payload == Padded(payload, packet.pn)
      ensures packet.Sealed? <==>
        (deriveOk || old(txGen) == Generation(sendStart, old(nextPn))) && old(nextPn) < U64_MAX && protectOk
      ensures r.Ok? <==> packet.Sealed? && ioOk
      ensures r.Err? ==>
        (r.error == Io <==> packet.Sealed?)
        && (r.error == PacketNumberOverflow ==> old(nextPn) == U64_MAX)
      ensures Genuine(packet, sendStart, initialPhase)
      ensures packet.Sealed? ==> packet.pn == old(nextPn) < nextPn
      ensures nextPn == old(nextPn) + 1 <==>
        (deriveOk || old(txGen) == Generation(sendStart, old(nextPn))) && old(nextPn) < U64_MAX
      ensures nextPn == old(nextPn) || nextPn == old(nextPn) + 1
      ensures packet.Sealed? ==> sealedAs == old(sealedAs) + [(packet.gen, packet.pn)]
      ensures sealedAs == old(sealedAs)
           || (&& nextPn == old(nextPn) + 1
               && sealedAs == old(sealedAs) + [(Generation(sendStart, old(nextPn)), old(nextPn))])
    {
      var pn := nextPn;
      packet := Noise;
      var rotated := MaybeRotateTxKeys(pn, deriveOk);
      if !rotated {
        return Err(Crypto), Noise;
      }
      if pn == U64_MAX {
        return Err(PacketNumberOverflow), Noise;
      }
      nextPn := pn + 1;
      sealedAs := sealedAs + [(txGen, pn)];
      if !protectOk {
        return Err(Crypto), Noise;
      }
      packet := Sealed(txGen, pn, txKeyPhase, Padded(payload, pn));
      if !ioOk {
        return Err(Io), packet;
      }
      return Ok(()), packet;
    }

    method AcceptOpened(packet: OpenedPacket) returns (r: Result<OpenedPacket, QspSessionError>)
      requires replayWindow.Valid()
      modifies replayWindow, replayWindow.bits
      ensures replayWindow.Valid()
      ensures replayWindow.View() == Accept(old(replayWindow.View()), packet.pn)
      ensures r == match Check(old(replayWindow.View()), packet.pn)
                   case Ok(_) => Ok(packet)
                   case Err(Replayed) => Err(ReplayedPacket)
                   case Err(TooOld) => Err(TooOldPacket)
    {
      var checked := replayWindow.CheckAndUpdate(packet.pn);
      match checked {
        case Ok(_) => r := Ok(packet);
        case Err(Replayed) => r := Err(ReplayedPacket);
        case Err(TooOld) => r := Err(TooOldPacket);
      }
    }

    /** Drop the previous keys once no packet sealed with them can pass the replay window. */
    method MaybeConfirmPreviousRxKeys(expected: nat)
      requires ValidKeys() && expected == NextExpected(replayWindow.View())
      modifies this`previousRx
      ensures ValidKeys() && RingView() == old(RingView()).(retained := Retains(old(RingView())))
      ensures old(ValidRx()) ==>
        ValidRx() && (previousRx.Some? <==> rxGen > 0 && expected <= ValidUntil(recvStart, rxGen))
    {
      if previousRx.Some? && expected > previousRx.value.validUntilPn {
        previousRx := None;
      }
    }

    /**
     The session moves to the next generation, with its threshold and phase, and retains the keys of the
     one before for as long as a packet of theirs can pass the replay window. Nothing changes if the
     current keys cannot be copied.
     */
    method PromoteCandidateRxKeys(cloneOk: bool) returns (ok: bool)
      requires rxNextRekeyPn == RekeyAt(recvStart, rxGen + 1) && rxNextRekeyPn.Some?
      requires rxKeyPhase == (initialPhase != Odd(rxGen))
      modifies this`rxGen, this`rxKeyPhase, this`rxNextRekeyPn, this`previousRx
      ensures ok == cloneOk && rxGen == old(rxGen) + (if ok then 1 else 0)
      ensures rxNextRekeyPn == RekeyAt(recvStart, rxGen + 1) && rxKeyPhase == (initialPhase != Odd(rxGen))
      ensures ok ==> previousRx == Some(PreviousRxKeys(rxGen - 1, ValidUntil(recvStart, rxGen)))
      ensures !ok ==> previousRx == old(previousRx)
    {
      hide NextRekeyAfter, Threshold;
      if !cloneOk {
        return false;
      }
      RekeyChain(recvStart, rxGen + 1);
      var threshold := rxNextRekeyPn.value;
      previousRx := Some(PreviousRxKeys(rxGen, Min(threshold + PN_REPLAY_WINDOW, U64_MAX)));
      rxGen := rxGen + 1;
      rxKeyPhase := !rxKeyPhase;
      rxNextRekeyPn := NextRekeyAfter(threshold);
      return true;
    }

    /** Trial opening with the current, the previous and the next keys, each with its own phase. */
    method TryKeys(p: Packet, expected: nat, deriveOk: bool) returns (keys: KeyChoice)
      requires ValidKeys() && expected == NextExpected(replayWindow.View()) && (p.Sealed? ==> p.pn <= U64_MAX)
      requires previousRx.Some? == Retains(RingView())
      ensures keys == Choice(RingView(), p, deriveOk)
      ensures ValidRx() && Genuine(p, recvStart, initialPhase) ==>
        (!keys.NoKeys? <==>
          p.Sealed? && Identifies(p.pn, expected, PacketNumberLen(p.pn)) && KeysHeld(View(), p.pn, deriveOk))
    {
      hide Identifies, OpenInto, Bit, Slot, Generation, Threshold, InStep, KeysHeld;
      if ValidRx() && p.Sealed? && Genuine(p, recvStart, initialPhase) {
        ChoiceOfGenuine(RingView(), p, deriveOk);
      }
      OpenIntoExactly(rxGen, p, expected);
      OpenIntoExactly(rxGen + 1, p, expected);
      if rxGen > 0 {
        OpenIntoExactly(rxGen - 1, p, expected);
      }
      var current := OpenInto(rxGen, p, expected);
      if current.Some? && current.value.phase == rxKeyPhase {
        return Current(current.value);
      }
      if previousRx.Some? && expected <= previousRx.value.validUntilPn {
        var previous := OpenInto(previousRx.value.gen, p, expected);
        if previous.Some? && previous.value.phase != rxKeyPhase {
          return Previous(previous.value);
        }
      }
      if previousRx.None? && rxNextRekeyPn.Some? && Distance(expected, rxNextRekeyPn.value) <= KEY_UPDATE_LATE_MARGIN {
        if !deriveOk {
          return NoKeys;
        }
        var candidate := OpenInto(rxGen + 1, p, expected);
        if candidate.Some? && candidate.value.phase != rxKeyPhase {
          return Next(candidate.value);
        }
      }
      return NoKeys;
    }

    /**
     Opens any packet as `Reply` and `Taken` say. From a peer in step the session accepts exactly the packets
     that `Opens` accepts: one it has no keys for, or cannot take the keys of, is a crypto failure, any
     other is refused for what the replay window says.
     */
    method OpenPacket(p: Packet, deriveOk: bool, cloneOk: bool) returns (r: Result<OpenedPacket, QspSessionError>)
      requires ValidKeys() && (p.Sealed? ==> p.pn <= U64_MAX)
      modifies this`rxGen, this`rxKeyPhase, this`rxNextRekeyPn, this`previousRx, replayWindow, replayWindow.bits
      ensures ValidKeys()
      ensures r == Reply(old(RingView()), p, deriveOk, cloneOk)
      ensures RingView() == Taken(old(RingView()), p, deriveOk, cloneOk)
      ensures p.Noise? ==> r == Err(Crypto) && View() == old(View())
      ensures r.Ok? ==>
        p.Sealed? && r.value.pn == p.pn && r.value.phase == p.phase && r.value.payload == p.payload
      ensures old(ValidRx()) && Genuine(p, recvStart, initialPhase) ==>
        && ValidRx()
        && (p.Sealed? ==>
              && View() == Opened(old(View()), p.pn, deriveOk && cloneOk)
              && (r.Ok? <==> Opens(old(View()), p.pn, deriveOk && cloneOk))
              && r == Answer(old(View()), p, deriveOk && cloneOk))
    {
      hide Identifies, Bit, Slot, Generation, Threshold, NextExpected, InStep, Opens, Opened, Check, Accept, Answer,
        ValidUntil, KeysHeld, Reply, Taken, Choice, Settled, Genuine;
      ghost var before := RingView();
      FromPeerInStep(before, p, deriveOk, cloneOk);
      OpenedAsSealed(before, p, deriveOk, cloneOk);
      NoiseIgnored(before, deriveOk, cloneOk);
      var expected := replayWindow.ExpectedPn();
      MaybeConfirmPreviousRxKeys(expected);
      ChoiceConfirmed(before, p, deriveOk);
      var keys := TryKeys(p, expected, deriveOk);
      r := UseKeys(p, keys, deriveOk, cloneOk);
    }

    /** What is left once the keys are found: move to the next generation if they are its, ask the window. */
    method UseKeys(p: Packet, keys: KeyChoice, ghost deriveOk: bool, cloneOk: bool)
      returns (r: Result<OpenedPacket, QspSessionError>)
      requires ValidKeys() && previousRx.Some? == Retains(RingView()) && keys == Choice(RingView(), p, deriveOk)
      requires !keys.NoKeys? ==> p.Sealed? && keys.packet == OpenedPacket(p.pn, p.phase, p.payload)
      modifies this`rxGen, this`rxKeyPhase, this`rxNextRekeyPn, this`previousRx, replayWindow, replayWindow.bits
      ensures ValidKeys()
      ensures r == Reply(old(RingView()), p, deriveOk, cloneOk)
      ensures RingView() == Taken(old(RingView()), p, deriveOk, cloneOk)
    {
      hide Identifies, Bit, Slot, Generation, Threshold, NextRekeyAfter, NextExpected;
      hide Check, ValidUntil, Choice, Retains;
      if keys.NoKeys? {
        return Err(Crypto);
      }
      WindowKept(View().seen, p.pn);
      if keys.Next? {
        NextNeedsRekey(RingView(), p, deriveOk);
        var promoted := PromoteCandidateRxKeys(cloneOk);
        if !promoted {
          return Err(Crypto);
        }
      }
      r := AcceptOpened(keys.packet);
    }
  }

  lemma WindowKept(s: Seen, pn: nat)
    ensures Accept(s, pn).initial == s.initial
  {
  }

  lemma NoiseIgnored(k: Ring, deriveOk: bool, cloneOk: bool)
    ensures Reply(k, Noise, deriveOk, cloneOk) == Err(Crypto) && Taken(k, Noise, deriveOk, cloneOk).recv == k.recv
    ensures Settled(k) ==> Settled(Taken(k, Noise, deriveOk, cloneOk))
  {
    hide InStep, ValidUntil, NextExpected;
  }

  lemma FromPeerInStep(k: Ring, p: Packet, deriveOk: bool, cloneOk: bool)
    ensures Settled(k) && Genuine(p, k.recv.seen.initial, k.phase) ==>
      && Settled(Taken(k, p, deriveOk, cloneOk))
      && (p.Sealed? ==>
            && Taken(k, p, deriveOk, cloneOk).recv == Opened(k.recv, p.pn, deriveOk && cloneOk)
            && (Reply(k, p, deriveOk, cloneOk).Ok? <==> Opens(k.recv, p.pn, deriveOk && cloneOk))
            && Reply(k, p, deriveOk, cloneOk) == Answer(k.recv, p, deriveOk && cloneOk))
  {
    hide Taken, Reply, Opened, Opens, Answer, Generation;
    if p.Noise? {
      NoiseIgnored(k, deriveOk, cloneOk);
    } else if Settled(k) && Genuine(p, k.recv.seen.initial, k.phase) {
      GenuineExactly(k, p, deriveOk, cloneOk);
      AnswerExactly(k.recv, p, deriveOk && cloneOk);
    }
  }

  /** Dropping keys that are not retained any more changes nothing about which keys open a packet. */
  lemma ChoiceConfirmed(k: Ring, p: Packet, deriveOk: bool)
    ensures var k' := k.(retained := Retains(k));
            && Retains(k') == Retains(k) && Choice(k', p, deriveOk) == Choice(k, p, deriveOk)
            && (forall cloneOk :: Reply(k', p, deriveOk, cloneOk) == Reply(k, p, deriveOk, cloneOk))
            && (forall cloneOk :: Taken(k', p, deriveOk, cloneOk) == Taken(k, p, deriveOk, cloneOk))
    ensures !Choice(k, p, deriveOk).NoKeys? ==>
      p.Sealed? && Choice(k, p, deriveOk).packet == OpenedPacket(p.pn, p.phase, p.payload)
  {
    hide Identifies, ValidUntil, NextExpected;
  }

  lemma NextNeedsRekey(k: Ring, p: Packet, deriveOk: bool)
    requires Choice(k, p, deriveOk).Next?
    ensures RekeyAt(k.recv.seen.initial, k.recv.gen + 1).Some?
  {
    hide Identifies, ValidUntil, NextExpected;
  }
}
