/**
 Key rotation of a UDP-QSP direction, in terms of packet numbers alone
 (slt-core/src/crypto/udp_qsp/session.rs).

 A sender rotates its keys at every multiple of the interval, so the generation of a packet is a
 function of its number. What a receiver will still open depends on its own generation and on the
 numbers it has accepted; nothing here mentions retained keys, phase bits or thresholds.
 */
module RekeySpec {
  import opened Bytes
  import opened PacketNumber
  import opened Replay

  const KEY_UPDATE_INTERVAL: nat := 0x20_0000
  const KEY_UPDATE_LATE_MARGIN: nat := PN_REPLAY_WINDOW * 8

  /** Key generation used by a sender that started at `start` for packet `pn`. */
  function Generation(start: nat, pn: nat): int {
    pn / KEY_UPDATE_INTERVAL - start / KEY_UPDATE_INTERVAL
  }

  /** First packet number of generation `gen`, for `gen` at least 1. */
  function Threshold(start: nat, gen: nat): nat {
    (start / KEY_UPDATE_INTERVAL + gen) * KEY_UPDATE_INTERVAL
  }

  function Odd(n: nat): bool {
    n % 2 == 1
  }

  /** A receiver: its key generation and the packet numbers it has accepted. */
  datatype Receiver = Receiver(gen: nat, seen: Seen)

  function Fresh(start: nat): Receiver {
    Receiver(0, Seen(start, None, {}))
  }

  /** The keys for `pn` are at hand, or are derived because the next generation is close. */
  predicate KeysReach(r: Receiver, pn: nat, deriveOk: bool) {
    var start := r.seen.initial;
    || Generation(start, pn) <= r.gen
    || (&& Generation(start, pn) == r.gen + 1 && deriveOk
        && Threshold(start, r.gen + 1) <= NextExpected(r.seen) + KEY_UPDATE_LATE_MARGIN)
  }

  /** A packet the peer sealed as number `pn` is opened and accepted. */
  predicate Opens(r: Receiver, pn: nat, deriveOk: bool) {
    && Identifies(pn, NextExpected(r.seen), PacketNumberLen(pn))
    && KeysReach(r, pn, deriveOk)
    && Check(r.seen, pn).Ok?
  }

  function Opened(r: Receiver, pn: nat, deriveOk: bool): Receiver {
    if Opens(r, pn, deriveOk)
    then Receiver(Max(r.gen, Generation(r.seen.initial, pn)), Accept(r.seen, pn))
    else r
  }

  /** The receiver is in the generation of its largest packet. */
  ghost predicate InStep(r: Receiver) {
    && r.seen.initial <= U64_MAX
    && (forall n :: n in r.seen.accepted ==> r.seen.initial <= n)
    && match r.seen.largest
       case None => r.gen == 0 && r.seen.accepted == {}
       case Some(largest) =>
         && r.seen.initial <= largest <= U64_MAX && largest in r.seen.accepted
         && (forall n :: n in r.seen.accepted ==> n <= largest)
         && r.gen == Generation(r.seen.initial, largest)
  }

  lemma StaysInStep(r: Receiver, pn: nat, deriveOk: bool)
    requires InStep(r) && r.seen.initial <= pn <= U64_MAX
    ensures InStep(Opened(r, pn, deriveOk))
  {
  }

  // ----- Whole runs

  /** A packet number arrives; `deriveOk` tells whether the next keys can be derived at that moment. */
  datatype Arrival = Arrival(pn: nat, deriveOk: bool)

  /** Arrivals one after the other, in any order, with losses and repetitions. */
  function Deliver(r: Receiver, arrivals: seq<Arrival>): Receiver
    decreases |arrivals|
  {
    if arrivals == [] then r else Deliver(Opened(r, arrivals[0].pn, arrivals[0].deriveOk), arrivals[1..])
  }

  /** The numbers accepted during a delivery, in order. */
  function AcceptedIn(r: Receiver, arrivals: seq<Arrival>): seq<nat>
    decreases |arrivals|
  {
    if arrivals == [] then []
    else
      var a := arrivals[0];
      (if Opens(r, a.pn, a.deriveOk) then [a.pn] else []) + AcceptedIn(Opened(r, a.pn, a.deriveOk), arrivals[1..])
  }

  function Numbers(arrivals: seq<Arrival>): seq<nat> {
    if arrivals == [] then [] else [arrivals[0].pn] + Numbers(arrivals[1..])
  }

  ghost predicate Between(low: nat, arrivals: seq<Arrival>, high: nat) {
    forall i :: 0 <= i < |arrivals| ==> low <= arrivals[i].pn <= high
  }

  /** No packet is accepted twice in any run, however often and however late it is replayed. */
  lemma {:induction false} AcceptedOnce(r: Receiver, arrivals: seq<Arrival>)
    requires InStep(r) && Between(r.seen.initial, arrivals, U64_MAX)
    ensures InStep(Deliver(r, arrivals))
    ensures Unique(AcceptedIn(r, arrivals))
    ensures forall pn :: pn in AcceptedIn(r, arrivals) ==> pn in Numbers(arrivals) && pn !in r.seen.accepted
    decreases |arrivals|
  {
    if arrivals != [] {
      var a := arrivals[0];
      var r' := Opened(r, a.pn, a.deriveOk);
      StaysInStep(r, a.pn, a.deriveOk);
      AcceptedOnce(r', arrivals[1..]);
      var tail := AcceptedIn(r', arrivals[1..]);
      assert AcceptedIn(r, arrivals) == (if Opens(r, a.pn, a.deriveOk) then [a.pn] else []) + tail;
    }
  }

  // ----- New packets: exactly how far the keys reach

  /**
   What a receiver of generation `gen` that expects `expected` can open of the numbers from there on:
   its own generation, or the next one if its first number is within the margin and its keys can be
   derived.
   */
  predicate InReach(start: nat, gen: nat, expected: nat, a: Arrival) {
    || Generation(start, a.pn) == gen
    || (&& Generation(start, a.pn) == gen + 1 && a.deriveOk
        && Threshold(start, gen + 1) <= expected + KEY_UPDATE_LATE_MARGIN)
  }

  /** The first number that is ahead of all accepted ones. */
  function FirstNew(s: Seen): nat {
    if s.largest.None? then s.initial else s.largest.value + 1
  }

  /** A number that is ahead of all accepted ones is accepted exactly if it is in reach. */
  lemma NewExactly(r: Receiver, a: Arrival)
    requires InStep(r) && FirstNew(r.seen) <= a.pn <= U64_MAX
    ensures Opens(r, a.pn, a.deriveOk) <==> InReach(r.seen.initial, r.gen, FirstNew(r.seen), a)
    ensures Opens(r, a.pn, a.deriveOk) ==>
              var r' := Opened(r, a.pn, a.deriveOk);
              && FirstNew(r'.seen) == a.pn + 1 && r'.gen == Generation(r.seen.initial, a.pn)
              && r'.seen.initial == r.seen.initial
  {
    assert NextExpected(r.seen) == FirstNew(r.seen);
    if InReach(r.seen.initial, r.gen, FirstNew(r.seen), a) {
      AheadIdentified(a.pn, FirstNew(r.seen));
    }
  }

  /** Every number is ahead of all before it. */
  ghost predicate Ahead(expected: nat, arrivals: seq<Arrival>)
    decreases |arrivals|
  {
    arrivals != [] ==> expected <= arrivals[0].pn <= U64_MAX && Ahead(arrivals[0].pn + 1, arrivals[1..])
  }

  /** Every number is in reach when all before it have been accepted. */
  ghost predicate CrossesInReach(start: nat, gen: nat, expected: nat, arrivals: seq<Arrival>)
    decreases |arrivals|
  {
    arrivals != [] ==>
      && InReach(start, gen, expected, arrivals[0])
      && CrossesInReach(start, Generation(start, arrivals[0].pn), arrivals[0].pn + 1, arrivals[1..])
  }

  lemma {:induction false} NoMoreThanArrived(r: Receiver, arrivals: seq<Arrival>)
    ensures |AcceptedIn(r, arrivals)| <= |arrivals| == |Numbers(arrivals)|
    decreases |arrivals|
  {
    if arrivals != [] {
      NoMoreThanArrived(Opened(r, arrivals[0].pn, arrivals[0].deriveOk), arrivals[1..]);
    }
  }

  /**
   In-order traffic, with whatever losses, is accepted completely if and only if it skips no
   generation and enters each one after a number within the margin of its start, with keys that can
   be derived.
   */
  lemma {:induction false} InOrderExactly(r: Receiver, arrivals: seq<Arrival>)
    requires InStep(r) && Ahead(FirstNew(r.seen), arrivals)
    ensures AcceptedIn(r, arrivals) == Numbers(arrivals)
       <==> CrossesInReach(r.seen.initial, r.gen, FirstNew(r.seen), arrivals)
    decreases |arrivals|
  {
    hide Opens, InReach, Generation;
    if arrivals != [] {
      var a := arrivals[0];
      var r' := Opened(r, a.pn, a.deriveOk);
      NewExactly(r, a);
      InitialFirst(r);
      StaysInStep(r, a.pn, a.deriveOk);
      if Opens(r, a.pn, a.deriveOk) {
        InOrderExactly(r', arrivals[1..]);
        var tail := AcceptedIn(r', arrivals[1..]);
        assert AcceptedIn(r, arrivals) == [a.pn] + tail && Numbers(arrivals) == [a.pn] + Numbers(arrivals[1..]);
        assert ([a.pn] + tail)[1..] == tail && ([a.pn] + Numbers(arrivals[1..]))[1..] == Numbers(arrivals[1..]);
      } else {
        NoMoreThanArrived(r', arrivals[1..]);
        assert AcceptedIn(r, arrivals) == AcceptedIn(r', arrivals[1..]);
      }
    }
  }

  lemma SecondLost(first: nat, second: nat)
    requires first < second <= U64_MAX && InReach(0, 0, 0, Arrival(first, true))
    requires !InReach(0, Generation(0, first), first + 1, Arrival(second, true))
    ensures AcceptedIn(Fresh(0), [Arrival(first, true), Arrival(second, true)]) == [first]
  {
    hide Opens, InReach, Generation;
    var arrivals := [Arrival(first, true), Arrival(second, true)];
    NewExactly(Fresh(0), arrivals[0]);
    StaysInStep(Fresh(0), first, true);
    var r := Opened(Fresh(0), first, true);
    NewExactly(r, arrivals[1]);
    assert arrivals[1..] == [arrivals[1]] && [arrivals[1]][1..] == [];
    assert AcceptedIn(Opened(r, second, true), []) == [];
    assert AcceptedIn(r, [arrivals[1]]) == [];
  }

  lemma SecondKept(first: nat, second: nat)
    requires first < second <= U64_MAX && InReach(0, 0, 0, Arrival(first, true))
    requires InReach(0, Generation(0, first), first + 1, Arrival(second, true))
    ensures AcceptedIn(Fresh(0), [Arrival(first, true), Arrival(second, true)]) == [first, second]
  {
    hide Opens, InReach, Generation;
    var arrivals := [Arrival(first, true), Arrival(second, true)];
    NewExactly(Fresh(0), arrivals[0]);
    StaysInStep(Fresh(0), first, true);
    var r := Opened(Fresh(0), first, true);
    NewExactly(r, arrivals[1]);
    assert arrivals[1..] == [arrivals[1]] && [arrivals[1]][1..] == [];
    assert AcceptedIn(Opened(r, second, true), []) == [];
    assert AcceptedIn(r, [arrivals[1]]) == [second];
  }

  /**
   In-order traffic can be cut off: by losing more than the margin before a rotation, one packet being
   enough to tell, or, even from within the margin, by losing a whole generation.
   */
  lemma RotationMissed()
    ensures AcceptedIn(Fresh(0), [Arrival(0, true), Arrival(0x20_0000, true)]) == [0]
    ensures AcceptedIn(Fresh(0), [Arrival(0x1F_FFFE, true), Arrival(0x40_0000, true)]) == [0x1F_FFFE]
    ensures AcceptedIn(Fresh(0), [Arrival(0x20_0000 - 8194, true), Arrival(0x20_0000, true)]) == [0x20_0000 - 8194]
    ensures AcceptedIn(Fresh(0), [Arrival(0x20_0000 - 8193, true), Arrival(0x20_0000, true)])
         == [0x20_0000 - 8193, 0x20_0000]
  {
    SecondLost(0, 0x20_0000);
    SecondLost(0x1F_FFFE, 0x40_0000);
    SecondLost(0x20_0000 - 8194, 0x20_0000);
    SecondKept(0x20_0000 - 8193, 0x20_0000);
  }

  lemma InitialFirst(r: Receiver)
    requires InStep(r)
    ensures r.seen.initial <= FirstNew(r.seen)
  {
  }

  /** Every number is ahead of all before it, by at most the late margin, and keys can be derived. */
  ghost predicate SmallGaps(expected: nat, arrivals: seq<Arrival>)
    decreases |arrivals|
  {
    arrivals != [] ==>
      && expected <= arrivals[0].pn <= expected + KEY_UPDATE_LATE_MARGIN && arrivals[0].pn <= U64_MAX
      && arrivals[0].deriveOk && SmallGaps(arrivals[0].pn + 1, arrivals[1..])
  }

  /** So losses of up to 8192 packets in a row never cut the traffic off, whatever the number of rotations. */
  lemma InOrderAllAccepted(r: Receiver, arrivals: seq<Arrival>)
    requires InStep(r) && SmallGaps(FirstNew(r.seen), arrivals)
    ensures AcceptedIn(r, arrivals) == Numbers(arrivals)
  {
    InitialFirst(r);
    SmallGapsCross(r.seen.initial, r.gen, FirstNew(r.seen), arrivals);
    InOrderExactly(r, arrivals);
  }

  lemma {:induction false} SmallGapsCross(start: nat, gen: nat, expected: nat, arrivals: seq<Arrival>)
    requires start <= expected && SmallGaps(expected, arrivals)
    requires Threshold(start, gen) <= expected + KEY_UPDATE_INTERVAL && expected <= Threshold(start, gen + 1)
    requires Generation(start, expected) == gen || Generation(start, expected) == gen + 1
    ensures Ahead(expected, arrivals) && CrossesInReach(start, gen, expected, arrivals)
    decreases |arrivals|
  {
    if arrivals != [] {
      SmallGapsCross(start, Generation(start, arrivals[0].pn), arrivals[0].pn + 1, arrivals[1..]);
    }
  }

  /**
   Of numbers that are all ahead of it, in any order, a receiver accepts none if and only if each is
   out of its reach: it is then cut off for as long as nothing nearer arrives.
   */
  lemma {:induction false} CutOffExactly(r: Receiver, arrivals: seq<Arrival>)
    requires InStep(r) && Between(FirstNew(r.seen), arrivals, U64_MAX)
    ensures AcceptedIn(r, arrivals) == []
       <==> forall i :: 0 <= i < |arrivals| ==> !InReach(r.seen.initial, r.gen, FirstNew(r.seen), arrivals[i])
    ensures AcceptedIn(r, arrivals) == [] ==> Deliver(r, arrivals) == r
    decreases |arrivals|
  {
    hide Opens, InReach;
    if arrivals != [] {
      var a := arrivals[0];
      NewExactly(r, a);
      if !Opens(r, a.pn, a.deriveOk) {
        CutOffExactly(r, arrivals[1..]);
        assert AcceptedIn(r, arrivals) == AcceptedIn(r, arrivals[1..]);
        assert forall i :: 0 < i < |arrivals| ==> arrivals[i] == arrivals[1..][i - 1];
      }
    }
  }

  // ----- Late packets: how far behind a number can be

  /**
   A number still in the replay window is identified from what its header carries, unless it is one of
   the first 256 and 128 or more behind.
   */
  lemma LateExactly(s: Seen, pn: nat, largest: nat)
    requires s.largest == Some(largest) && pn <= largest < pn + PN_REPLAY_WINDOW && largest < U64_MAX
    ensures Identifies(pn, NextExpected(s), PacketNumberLen(pn)) <==> pn > 0xff || largest + 1 < pn + 128
  {
  }

  /**
   So a late number the replay window would take is accepted exactly if it is above 255 or less than 128
   behind, whatever the rotations in between.
   */
  lemma LateAcceptedExactly(r: Receiver, pn: nat, largest: nat, deriveOk: bool)
    requires InStep(r) && r.seen.largest == Some(largest) && largest < U64_MAX
    requires r.seen.initial <= pn <= largest < pn + 1024 && pn !in r.seen.accepted
    ensures Check(r.seen, pn).Ok?
    ensures Opens(r, pn, deriveOk) <==> pn > 0xff || largest + 1 < pn + 128
  {
    LateExactly(r.seen, pn, largest);
  }

  /** So packet 10 is lost once 137 has arrived, although the replay window would take it. */
  lemma EarlyReorderingLost()
    ensures var r := Deliver(Fresh(0), [Arrival(137, true)]);
            && r.seen == Seen(0, Some(137), {137})
            && Check(r.seen, 10).Ok? && !Opens(r, 10, true)
            && Reconstruct(Truncated(10), NextExpected(r.seen), PacketNumberLen(10)) == 266
  {
    hide Deliver, Opens, Opened, Identifies, Reconstruct;
    DeliverOne(Fresh(0), Arrival(137, true));
    FirstAccepted(137);
    var r := Opened(Fresh(0), 137, true);
    LateExactly(r.seen, 10, 137);
    NotIdentified(r, 10);
    ReadAs266();
  }

  lemma FirstAccepted(pn: nat)
    requires pn < KEY_UPDATE_INTERVAL
    ensures Opened(Fresh(0), pn, true).seen == Seen(0, Some(pn), {pn})
  {
    hide Identifies;
    AheadIdentified(pn, 0);
  }

  lemma NotIdentified(r: Receiver, pn: nat)
    requires !Identifies(pn, NextExpected(r.seen), PacketNumberLen(pn))
    ensures !Opens(r, pn, true)
  {
    hide Identifies;
  }

  lemma ReadAs266()
    ensures PacketNumberLen(10) == 1 && Reconstruct(Truncated(10), 138, 1) == 266
  {
    hide Adjust;
    assert Truncated(10) == 10 && Reconstruct(10, 138, 1) == Adjust(10, 138, 0x100);
    AdjustedUp();
  }

  lemma AdjustedUp()
    ensures Adjust(10, 138, 0x100) == 266
  {
  }

  lemma DeliverOne(r: Receiver, a: Arrival)
    ensures Deliver(r, [a]) == Opened(r, a.pn, a.deriveOk)
  {
    hide Opens;
    assert Deliver(Opened(r, a.pn, a.deriveOk), [a][1..]) == Opened(r, a.pn, a.deriveOk);
  }
}
