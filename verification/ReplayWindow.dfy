/**
 The sliding replay window (slt-core/src/crypto/udp_qsp/session.rs): a ring of 1024 bits that
 stands for the set of all packet numbers ever accepted.
 */
module Replay {
  import opened Bytes

  const PN_REPLAY_WINDOW: nat := 1024
  const WINDOW_WORD_BITS: nat := 64
  const WINDOW_WORDS: nat := 16

  datatype ReplayError = Replayed | TooOld

  /** What the window remembers: the largest accepted number and, in principle, all of them. */
  datatype Seen = Seen(initial: nat, largest: Option<nat>, accepted: set<int>)

  function NextExpected(s: Seen): nat {
    match s.largest
    case None => s.initial
    case Some(pn) => Min(pn + 1, U64_MAX)
  }

  /** The verdict on a packet number, in terms of the numbers accepted before. */
  function Check(s: Seen, pn: nat): Result<(), ReplayError> {
    match s.largest
    case None => if pn < s.initial then Err(TooOld) else Ok(())
    case Some(largest) =>
      if pn > largest then Ok(())
      else if largest - pn >= PN_REPLAY_WINDOW then Err(TooOld)
      else if pn in s.accepted then Err(Replayed)
      else Ok(())
  }

  function Accept(s: Seen, pn: nat): Seen {
    if Check(s, pn).Err? then s
    else Seen(s.initial, Some(if s.largest.None? then pn else Max(s.largest.value, pn)), s.accepted + {pn})
  }

  /** A 64-bit word, as its bits. */
  type Word = w: seq<bool> | |w| == WINDOW_WORD_BITS witness seq(WINDOW_WORD_BITS, i => false)

  const ZERO_WORD: Word := seq(WINDOW_WORD_BITS, i => false)

  /** Bit `idx` of the ring. */
  predicate Bit(words: seq<Word>, idx: nat)
    requires |words| == WINDOW_WORDS && idx < PN_REPLAY_WINDOW
  {
    words[idx / WINDOW_WORD_BITS][idx % WINDOW_WORD_BITS]
  }

  /** The number in the 1024 up to `largest` that shares slot `idx`; negative if there is none. */
  function Slot(largest: nat, idx: nat): int {
    largest - (largest - idx) % PN_REPLAY_WINDOW
  }

  lemma SlotOf(largest: nat, pn: nat)
    requires pn <= largest < pn + PN_REPLAY_WINDOW
    ensures Slot(largest, pn % PN_REPLAY_WINDOW) == pn
  {
  }

  lemma SlotIn(largest: nat, idx: nat)
    requires idx < PN_REPLAY_WINDOW
    ensures largest - PN_REPLAY_WINDOW < Slot(largest, idx) <= largest
    ensures Slot(largest, idx) % PN_REPLAY_WINDOW == idx
  {
  }

  /** Some number in `[from, to)` has slot `idx`. */
  predicate Hit(from: nat, to: nat, idx: nat) {
    (idx - from) % PN_REPLAY_WINDOW < to - from
  }

  lemma HitStep(from: nat, k: nat, idx: nat)
    requires from <= k < from + PN_REPLAY_WINDOW && idx < PN_REPLAY_WINDOW
    ensures Hit(from, k + 1, idx) <==> Hit(from, k, idx) || idx == k % PN_REPLAY_WINDOW
  {
  }

  function WindowStart(largest: nat): nat {
    Max(0, largest - (PN_REPLAY_WINDOW - 1))
  }

  /** Moving the window up from `largest` to `pn`: a slot whose number stays below is kept. */
  lemma SlideKeeps(largest: nat, pn: nat, idx: nat)
    requires largest < pn < largest + PN_REPLAY_WINDOW && idx < PN_REPLAY_WINDOW && Slot(pn, idx) <= largest
    ensures Slot(pn, idx) == Slot(largest, idx)
    ensures Slot(largest, idx) >= 0 ==> !Hit(WindowStart(largest), WindowStart(pn), idx)
  {
    SlotIn(largest, idx);
    SlotIn(pn, idx);
  }

  /** A slot whose number is new is cleared, if it had one. */
  lemma SlideClears(largest: nat, pn: nat, idx: nat)
    requires largest < pn < largest + PN_REPLAY_WINDOW && idx < PN_REPLAY_WINDOW && Slot(pn, idx) > largest
    ensures Slot(largest, idx) >= 0 ==> Hit(WindowStart(largest), WindowStart(pn), idx)
  {
    SlotIn(largest, idx);
    SlotIn(pn, idx);
  }

  /** Moving the window clears exactly the slots whose number changes. */
  lemma SlideSlot(largest: nat, pn: nat, idx: nat)
    requires largest < pn < largest + PN_REPLAY_WINDOW && idx < PN_REPLAY_WINDOW
    ensures Slot(pn, idx) <= largest ==>
              && Slot(pn, idx) == Slot(largest, idx)
              && (Slot(largest, idx) >= 0 ==> !Hit(WindowStart(largest), WindowStart(pn), idx))
    ensures Slot(pn, idx) > largest && Slot(largest, idx) >= 0 ==> Hit(WindowStart(largest), WindowStart(pn), idx)
  {
    hide Slot, Hit, WindowStart;
    if Slot(pn, idx) <= largest {
      SlideKeeps(largest, pn, idx);
    } else {
      SlideClears(largest, pn, idx);
    }
  }

  class ReplayWindow {
    const initialExpected: nat
    var largestPn: Option<nat>
    const bits: array<Word>
    ghost var accepted: set<int>

    ghost predicate Valid()
      reads this, bits
    {
      && bits.Length == WINDOW_WORDS
      && (largestPn.None? ==> accepted == {})
      && (largestPn.Some? ==>
            && largestPn.value in accepted
            && (forall pn :: pn in accepted ==> 0 <= pn <= largestPn.value)
            && Tracks(largestPn.value))
    }

    /** Every bit tells whether the number sharing its slot was accepted. */
    ghost predicate Tracks(largest: nat)
      requires bits.Length == WINDOW_WORDS
      reads this, bits
    {
      forall idx :: 0 <= idx < PN_REPLAY_WINDOW ==> (Bit(bits[..], idx) <==> Slot(largest, idx) in accepted)
    }

    ghost function View(): Seen
      reads this
    {
      Seen(initialExpected, largestPn, accepted)
    }

    constructor (initialExpected: nat)
      ensures Valid() && View() == Seen(initialExpected, None, {}) && fresh(bits)
    {
      this.initialExpected := initialExpected;
      largestPn := None;
      bits := new Word[WINDOW_WORDS](_ => ZERO_WORD);
      accepted := {};
    }

    /** The least number above all accepted ones, short of the 64-bit limit. */
    method ExpectedPn() returns (pn: nat)
      requires Valid()
      ensures pn == NextExpected(View())
      ensures forall n :: n in accepted ==> n < pn || pn == U64_MAX
      ensures accepted == {} ==> pn == initialExpected
      ensures accepted != {} ==> pn - 1 in accepted || pn == U64_MAX
    {
      pn := if largestPn.None? then initialExpected else Min(largestPn.value + 1, U64_MAX);
    }

    /** The old numbers leaving the window lose their bits. */
    method ClearRange(from: nat, to: nat)
      requires bits.Length == WINDOW_WORDS && from <= to < from + PN_REPLAY_WINDOW
      modifies bits
      ensures forall idx :: 0 <= idx < PN_REPLAY_WINDOW ==>
                (Bit(bits[..], idx) <==> Bit(old(bits[..]), idx) && !Hit(from, to, idx))
    {
      var k := from;
      while k < to
        invariant from <= k <= to
        invariant forall idx :: 0 <= idx < PN_REPLAY_WINDOW ==>
                    (Bit(bits[..], idx) <==> Bit(old(bits[..]), idx) && !Hit(from, k, idx))
      {
        ClearBit(k);
        forall idx | 0 <= idx < PN_REPLAY_WINDOW
          ensures Hit(from, k + 1, idx) <==> Hit(from, k, idx) || idx == k % PN_REPLAY_WINDOW
        {
          HitStep(from, k, idx);
        }
        k := k + 1;
      }
    }

    method IsSet(pn: nat) returns (b: bool)
      requires bits.Length == WINDOW_WORDS
      ensures b == Bit(bits[..], pn % PN_REPLAY_WINDOW)
    {
      var idx := pn % PN_REPLAY_WINDOW;
      b := bits[idx / WINDOW_WORD_BITS][idx % WINDOW_WORD_BITS];
    }

    method SetBit(pn: nat)
      requires bits.Length == WINDOW_WORDS
      modifies bits
      ensures forall idx :: 0 <= idx < PN_REPLAY_WINDOW ==>
                (Bit(bits[..], idx) <==> Bit(old(bits[..]), idx) || idx == pn % PN_REPLAY_WINDOW)
    {
      var i := pn % PN_REPLAY_WINDOW;
      var word, bit := i / WINDOW_WORD_BITS, i % WINDOW_WORD_BITS;
      bits[word] := bits[word][bit := true];
    }

    method ClearBit(pn: nat)
      requires bits.Length == WINDOW_WORDS
      modifies bits
      ensures forall idx :: 0 <= idx < PN_REPLAY_WINDOW ==>
                (Bit(bits[..], idx) <==> Bit(old(bits[..]), idx) && idx != pn % PN_REPLAY_WINDOW)
    {
      var i := pn % PN_REPLAY_WINDOW;
      var word, bit := i / WINDOW_WORD_BITS, i % WINDOW_WORD_BITS;
      bits[word] := bits[word][bit := false];
    }

    /** `bits.fill(0)`. */
    method FillZero()
      requires bits.Length == WINDOW_WORDS
      modifies bits
      ensures forall idx :: 0 <= idx < PN_REPLAY_WINDOW ==> !Bit(bits[..], idx)
    {
      forall i | 0 <= i < bits.Length {
        bits[i] := ZERO_WORD;
      }
    }

    /** Record `pn` as the new largest number, once the bits of departed numbers are clear. */
    method Advance(pn: nat)
      requires bits.Length == WINDOW_WORDS && (forall n :: n in accepted ==> 0 <= n < pn)
      requires forall idx :: 0 <= idx < PN_REPLAY_WINDOW ==>
                 (Bit(bits[..], idx) <==> Slot(pn, idx) in accepted)
      modifies this, bits
      ensures Valid() && largestPn == Some(pn) && accepted == old(accepted) + {pn}
    {
      largestPn := Some(pn);
      SetBit(pn);
      accepted := accepted + {pn};
      forall idx | 0 <= idx < PN_REPLAY_WINDOW
        ensures Slot(pn, idx) == pn <==> idx == pn % PN_REPLAY_WINDOW
      {
        SlotIn(pn, idx);
      }
    }

    /** The window accepts a number exactly when the set of accepted numbers says so. */
    method CheckAndUpdate(pn: nat) returns (r: Result<(), ReplayError>)
      requires Valid()
      modifies this, bits
      ensures Valid()
      ensures r == Check(old(View()), pn) && View() == Accept(old(View()), pn)
    {
      if largestPn.None? {
        if pn < initialExpected {
          return Err(TooOld);
        }
        FillZero();
        Advance(pn);
        return Ok(());
      }
      var largest := largestPn.value;
      if pn > largest {
        if pn - largest >= PN_REPLAY_WINDOW {
          FillZero();
          forall idx | 0 <= idx < PN_REPLAY_WINDOW ensures Slot(pn, idx) !in accepted {
            SlotIn(pn, idx);
          }
        } else {
          ClearRange(WindowStart(largest), WindowStart(pn));
          forall idx | 0 <= idx < PN_REPLAY_WINDOW
            ensures Bit(bits[..], idx) <==> Slot(pn, idx) in accepted
          {
            SlideSlot(largest, pn, idx);
          }
        }
        Advance(pn);
        return Ok(());
      }
      if largest - pn >= PN_REPLAY_WINDOW {
        return Err(TooOld);
      }
      SlotOf(largest, pn);
      var seen := IsSet(pn);
      if seen {
        return Err(Replayed);
      }
      SetBit(pn);
      accepted := accepted + {pn};
      forall idx | 0 <= idx < PN_REPLAY_WINDOW
        ensures Slot(largest, idx) == pn <==> idx == pn % PN_REPLAY_WINDOW
      {
        SlotIn(largest, idx);
      }
      return Ok(());
    }
  }
}
