/** Packet-number truncation and reconstruction (slt-core/src/crypto/udp_qsp/pn.rs). */
module PacketNumber {
  import opened Bytes

  const MAX_WIRE_PN_LEN: nat := 4

  /** 256 to the power `len`. */
  function Window(len: nat): nat
    requires 1 <= len <= MAX_WIRE_PN_LEN
  {
    if len == 1 then 0x100 else if len == 2 then 0x1_0000 else if len == 3 then 0x100_0000 else 0x1_0000_0000
  }

  /** The fewest bytes that hold the number, but never more than four. */
  function PacketNumberLen(pn: nat): (len: nat)
    ensures 1 <= len <= MAX_WIRE_PN_LEN
    ensures len < MAX_WIRE_PN_LEN ==> pn < Window(len)
    ensures 1 < len ==> Window(len - 1) <= pn
  {
    if pn <= 0xff then 1 else if pn <= 0xffff then 2 else if pn <= 0xff_ffff then 3 else 4
  }

  /** What a header carries of a packet number. */
  function Truncated(pn: nat): nat {
    pn % Window(PacketNumberLen(pn))
  }

  /** `u64::checked_add`. */
  function CheckedAdd(a: nat, b: nat): Option<nat> {
    if a + b <= U64_MAX then Some(a + b) else None
  }

  /** The full packet number closest to what the receiver expects, in 64-bit arithmetic. */
  function Reconstruct(truncated: nat, expected: nat, len: nat): nat
    requires 1 <= len <= MAX_WIRE_PN_LEN ==> truncated < Window(len)
  {
    if len == 0 || len > MAX_WIRE_PN_LEN then truncated
    else Adjust(expected / Window(len) * Window(len) + truncated, expected, Window(len))
  }

  /** Move a candidate by one window, up or down, towards the expected number. */
  function Adjust(base: nat, expected: nat, window: nat): nat {
    var half := window / 2;
    var candidate :=
      if CheckedAdd(base, half).Some? && base + half <= expected && CheckedAdd(base, window).Some?
      then base + window else base;
    if CheckedAdd(expected, half).Some? && candidate > expected + half && candidate >= window
    then candidate - window else candidate
  }

  /** `pn` is not too far behind, and not too far ahead, of `expected` for `len` bytes to identify it. */
  predicate Identifies(pn: nat, expected: nat, len: nat)
    requires 1 <= len <= MAX_WIRE_PN_LEN
  {
    var window := Window(len);
    && (expected < pn + window / 2 || pn + window > U64_MAX)
    && (pn <= expected + window / 2 || pn < window)
  }

  /** A candidate within one window of the expected number, off by whole windows, becomes `pn` or not at all. */
  lemma AdjustExactly(pn: nat, base: nat, expected: nat, window: nat)
    requires window > 0 && window % 2 == 0
    requires pn <= U64_MAX && base <= U64_MAX && expected - window < base < expected + window
    requires base == pn || base == pn + window || base == pn - window
             || base >= pn + 2 * window || base <= pn - 2 * window
    ensures Adjust(base, expected, window) == pn
       <==> && (expected < pn + window / 2 || pn + window > U64_MAX)
            && (pn <= expected + window / 2 || pn < window)
  {
  }

  lemma WholeWindows(n: int, window: nat)
    ensures n >= 1 ==> n * window >= window
    ensures n <= -1 ==> n * window <= -1 * window
    ensures n >= 2 ==> n * window >= 2 * window
    ensures n <= -2 ==> n * window <= -2 * window
  {
  }

  /** The same with both numbers split into a block and an offset. */
  lemma AdjustInBlock(pn: nat, b: nat, t: nat, expected: nat, q: nat, e: nat, window: nat, base: nat)
    requires window > 0 && window % 2 == 0 && t < window && e < window
    requires pn == b * window + t <= U64_MAX && expected == q * window + e && base == q * window + t <= U64_MAX
    ensures Adjust(base, expected, window) == pn
       <==> && (expected < pn + window / 2 || pn + window > U64_MAX)
            && (pn <= expected + window / 2 || pn < window)
  {
    hide Adjust;
    assert base - pn == (q - b) * window;
    WholeWindows(q - b, window);
    AdjustExactly(pn, base, expected, window);
  }

  /** Reconstruction recovers the packet number exactly when its truncation identifies it. */
  lemma ReconstructExactly(pn: nat, expected: nat, len: nat)
    requires 1 <= len <= MAX_WIRE_PN_LEN && pn <= U64_MAX && expected <= U64_MAX
    ensures Reconstruct(pn % Window(len), expected, len) == pn <==> Identifies(pn, expected, len)
  {
    LastBlock(pn, expected, len);
    var window := Window(len);
    AdjustInBlock(pn, pn / window, pn % window, expected, expected / window, expected % window, window,
                  expected / window * window + pn % window);
  }

  /** 2^64 is a whole number of windows. */
  lemma LastBlock(pn: nat, expected: nat, len: nat)
    requires 1 <= len <= MAX_WIRE_PN_LEN && expected <= U64_MAX
    ensures expected / Window(len) * Window(len) + pn % Window(len) <= U64_MAX
  {
  }

  /** A sender's header always identifies its packet to a receiver that is behind by less than 2^31. */
  lemma AheadIdentified(pn: nat, expected: nat)
    requires expected <= pn <= U64_MAX && pn <= expected + 0x8000_0000
    ensures Identifies(pn, expected, PacketNumberLen(pn))
  {
  }
}
