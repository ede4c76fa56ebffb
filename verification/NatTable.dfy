/**
 The UDP passthrough table (slt-server/src/quic.rs): a bounded least-recently-used map from peers to
 upstream readers. A reader reports its end by peer and token; tokens wrap at 64 bits.

 The readers are numbered in the order they are spawned, so that it can be said which reader a
 notification comes from.
 */
module NatTable {
  import opened Bytes

  const TOKENS: nat := U64_MAX + 1

  type Peer = nat

  datatype Entry = Entry(token: nat, lastSeen: nat, reader: nat)

  datatype Slot = Slot(peer: Peer, entry: Entry)

  /** Slots are most recently used first; `readers` has the peer each reader was spawned for. */
  datatype Nat = Nat(capacity: nat, slots: seq<Slot>, nextToken: nat, readers: seq<Peer>)

  // ----- The LRU map

  function Lookup(slots: seq<Slot>, peer: Peer): Option<Entry> {
    if slots == [] then None else if slots[0].peer == peer then Some(slots[0].entry) else Lookup(slots[1..], peer)
  }

  function Without(slots: seq<Slot>, peer: Peer): seq<Slot> {
    if slots == [] then [] else (if slots[0].peer == peer then [] else [slots[0]]) + Without(slots[1..], peer)
  }

  /** Puts an entry in front, dropping the last one if there is no room. */
  function Put(capacity: nat, slots: seq<Slot>, peer: Peer, entry: Entry): seq<Slot> {
    var rest := Without(slots, peer);
    [Slot(peer, entry)] + if |rest| < capacity then rest else if capacity == 0 then [] else rest[..capacity - 1]
  }

  // ----- The operations

  function ReaderDone(n: Nat, peer: Peer, token: nat): Nat {
    match Lookup(n.slots, peer)
    case None => n
    case Some(entry) =>
      if entry.token == token then n.(slots := Without(n.slots, peer))
      else n.(slots := Put(n.capacity, Without(n.slots, peer), peer, entry))
  }

  function Fresh(slots: seq<Slot>, now: nat, idle: nat): seq<Slot> {
    if slots == [] then []
    else (if now - slots[0].entry.lastSeen >= idle then [] else [slots[0]]) + Fresh(slots[1..], now, idle)
  }

  /** Reuses the peer's entry, or, when a socket can be had, spawns a reader with the next token. */
  function Touch(n: Nat, peer: Peer, now: nat, socket: bool): (Nat, bool) {
    match Lookup(n.slots, peer)
    case Some(entry) => (n.(slots := Put(n.capacity, n.slots, peer, entry.(lastSeen := now))), true)
    case None =>
      if !socket then (n, false)
      else
        (n.(slots := Put(n.capacity, n.slots, peer, Entry(n.nextToken, now, |n.readers|)),
            nextToken := (n.nextToken + 1) % TOKENS,
            readers := n.readers + [peer]), true)
  }

  // ----- The invariant

  ghost predicate Distinct(slots: seq<Slot>) {
    forall i, j :: 0 <= i < j < |slots| ==> slots[i].peer != slots[j].peer
  }

  ghost predicate EntryOk(n: Nat, s: Slot) {
    s.entry.reader < |n.readers| && n.readers[s.entry.reader] == s.peer && s.entry.token == s.entry.reader % TOKENS
  }

  ghost predicate NatOk(n: Nat) {
    && 0 < n.capacity
    && |n.slots| <= n.capacity
    && Distinct(n.slots)
    && n.nextToken == |n.readers| % TOKENS
    && (forall i :: 0 <= i < |n.slots| ==> EntryOk(n, n.slots[i]))
  }

  /** Every slot of `a` is one of `b`, in the same order. */
  ghost predicate Sub(a: seq<Slot>, b: seq<Slot>)
    decreases |b|
  {
    if b == [] then a == [] else Sub(a, b[1..]) || (a != [] && a[0] == b[0] && Sub(a[1..], b[1..]))
  }

  lemma {:induction false} SubAll(a: seq<Slot>, b: seq<Slot>)
    requires Sub(a, b)
    ensures |a| <= |b| && (forall i :: 0 <= i < |a| ==> a[i] in b)
    ensures Distinct(b) ==> Distinct(a)
    decreases |b|
  {
    if b != [] {
      if Sub(a, b[1..]) {
        SubAll(a, b[1..]);
        assert Distinct(b) ==> Distinct(b[1..]);
      } else {
        SubAll(a[1..], b[1..]);
        assert Distinct(b) ==> Distinct(b[1..]);
        assert a == [a[0]] + a[1..] && b == [b[0]] + b[1..];
        if Distinct(b) {
          forall j | 0 < j < |a| ensures a[0].peer != a[j].peer {
            assert a[j] == a[1..][j - 1];
            var k :| 0 <= k < |b[1..]| && b[1..][k] == a[j];
            assert b[k + 1] == a[j];
          }
          assert forall i, j :: 0 < i < j < |a| ==> a[i] == a[1..][i - 1] && a[j] == a[1..][j - 1];
        }
      }
    }
  }

  lemma {:induction false} WithoutOk(slots: seq<Slot>, peer: Peer)
    ensures Sub(Without(slots, peer), slots)
    ensures forall i :: 0 <= i < |Without(slots, peer)| ==> Without(slots, peer)[i].peer != peer
    ensures forall s :: s in slots && s.peer != peer ==> s in Without(slots, peer)
  {
    if slots != [] {
      WithoutOk(slots[1..], peer);
      assert slots == [slots[0]] + slots[1..];
      var rest := Without(slots[1..], peer);
      assert ([slots[0]] + rest)[1..] == rest && [] + rest == rest;
    }
  }

  lemma {:induction false} FreshOk(slots: seq<Slot>, now: nat, idle: nat)
    ensures Sub(Fresh(slots, now, idle), slots)
    ensures forall s :: s in Fresh(slots, now, idle) <==> s in slots && now - s.entry.lastSeen < idle
  {
    if slots != [] {
      FreshOk(slots[1..], now, idle);
      assert slots == [slots[0]] + slots[1..];
      var rest := Fresh(slots[1..], now, idle);
      assert ([slots[0]] + rest)[1..] == rest && [] + rest == rest;
    }
  }

  lemma {:induction false} LookupOk(slots: seq<Slot>, peer: Peer)
    ensures Lookup(slots, peer).Some? ==> Slot(peer, Lookup(slots, peer).value) in slots
    ensures Lookup(slots, peer).None? ==> forall s :: s in slots ==> s.peer != peer
    ensures Distinct(slots) ==> forall s :: s in slots && s.peer == peer ==> Lookup(slots, peer) == Some(s.entry)
  {
    if slots != [] {
      LookupOk(slots[1..], peer);
      assert slots == [slots[0]] + slots[1..];
      assert Distinct(slots) ==> Distinct(slots[1..]);
    }
  }

  lemma {:induction false} LookupWithout(slots: seq<Slot>, peer: Peer, other: Peer)
    ensures Lookup(Without(slots, peer), other) == if other == peer then None else Lookup(slots, other)
  {
    if slots != [] {
      LookupWithout(slots[1..], peer, other);
      var rest := Without(slots[1..], peer);
      assert ([slots[0]] + rest)[1..] == rest && [] + rest == rest;
    }
  }

  /** Putting keeps the table sound when the entry is. */
  lemma PutOk(n: Nat, m: Nat, peer: Peer, entry: Entry)
    requires NatOk(n) && m.capacity == n.capacity && m.nextToken == |m.readers| % TOKENS && n.readers <= m.readers
    requires EntryOk(m, Slot(peer, entry)) && m.slots == Put(n.capacity, n.slots, peer, entry)
    ensures NatOk(m)
  {
    hide Without, Sub, EntryOk;
    var rest := Without(n.slots, peer);
    WithoutOk(n.slots, peer);
    SubAll(rest, n.slots);
    assert forall i :: 0 < i < |m.slots| ==> m.slots[i] == rest[i - 1];
    forall i | 0 <= i < |m.slots| ensures EntryOk(m, m.slots[i]) {
      if i > 0 {
        assert m.slots[i] in n.slots;
        EntryStays(n, m, m.slots[i]);
      }
    }
  }

  lemma EntryStays(n: Nat, m: Nat, s: Slot)
    requires EntryOk(n, s) && n.readers <= m.readers
    ensures EntryOk(m, s)
  {
  }

  lemma SubOk(n: Nat, slots: seq<Slot>)
    requires NatOk(n) && Sub(slots, n.slots)
    ensures NatOk(n.(slots := slots))
  {
    SubAll(slots, n.slots);
    forall i | 0 <= i < |slots| ensures EntryOk(n.(slots := slots), slots[i]) {
      assert slots[i] in n.slots;
    }
  }

  lemma ReaderDoneOk(n: Nat, peer: Peer, token: nat)
    requires NatOk(n)
    ensures NatOk(ReaderDone(n, peer, token))
  {
    var found := Lookup(n.slots, peer);
    LookupOk(n.slots, peer);
    WithoutOk(n.slots, peer);
    SubOk(n, Without(n.slots, peer));
    if found.Some? && found.value.token != token {
      PutOk(n.(slots := Without(n.slots, peer)), ReaderDone(n, peer, token), peer, found.value);
    }
  }

  lemma TouchOk(n: Nat, peer: Peer, now: nat, socket: bool)
    requires NatOk(n)
    ensures NatOk(Touch(n, peer, now, socket).0)
  {
    var found := Lookup(n.slots, peer);
    LookupOk(n.slots, peer);
    var m := Touch(n, peer, now, socket).0;
    if found.Some? {
      assert EntryOk(n, Slot(peer, found.value));
      PutOk(n, m, peer, found.value.(lastSeen := now));
    } else if socket {
      NextToken(|n.readers|);
      PutOk(n, m, peer, Entry(n.nextToken, now, |n.readers|));
    }
  }

  lemma TouchKnown(n: Nat, peer: Peer, now: nat, socket: bool)
    ensures var (m, ok) := Touch(n, peer, now, socket);
            var entry := Lookup(n.slots, peer);
            && (ok <==> entry.Some? || socket) && (!ok ==> m == n)
            && (ok ==>
                  && Lookup(m.slots, peer).Some?
                  && Lookup(m.slots, peer).value.reader == (if entry.Some? then entry.value.reader else |n.readers|)
                  && m.readers == if entry.Some? then n.readers else n.readers + [peer])
  {
    hide Without;
  }

  lemma NextToken(k: nat)
    ensures (k % TOKENS + 1) % TOKENS == (k + 1) % TOKENS
  {
    var q, r := k / TOKENS, k % TOKENS;
    assert k == q * TOKENS + r;
    if r + 1 == TOKENS {
      assert k + 1 == (q + 1) * TOKENS;
    } else {
      assert k + 1 == q * TOKENS + (r + 1);
    }
  }

  // ----- Runs

  /** `Done(r)` is the notification of the `r`-th reader. */
  datatype Op = Packet(peer: Peer, now: nat, socket: bool) | Done(reader: nat) | Sweep(now: nat, idle: nat)

  function Perform(n: Nat, op: Op): Nat {
    match op
    case Packet(peer, now, socket) => Touch(n, peer, now, socket).0
    case Done(r) => if r < |n.readers| then ReaderDone(n, n.readers[r], r % TOKENS) else n
    case Sweep(now, idle) => n.(slots := Fresh(n.slots, now, idle))
  }

  function PerformAll(n: Nat, ops: seq<Op>): Nat
    decreases |ops|
  {
    if ops == [] then n else PerformAll(Perform(n, ops[0]), ops[1..])
  }

  function Empty(capacity: nat): Nat {
    Nat(capacity, [], 0, [])
  }

  lemma {:induction false} RunOk(n: Nat, ops: seq<Op>)
    requires NatOk(n)
    ensures NatOk(PerformAll(n, ops)) && PerformAll(n, ops).capacity == n.capacity
    decreases |ops|
  {
    if ops != [] {
      match ops[0] {
        case Packet(peer, now, socket) => TouchOk(n, peer, now, socket);
        case Done(r) =>
          if r < |n.readers| {
            ReaderDoneOk(n, n.readers[r], r % TOKENS);
          }
        case Sweep(now, idle) =>
          FreshOk(n.slots, now, idle);
          SubOk(n, Fresh(n.slots, now, idle));
      }
      RunOk(Perform(n, ops[0]), ops[1..]);
    }
  }

  /**
   In every reachable table there are at most `capacity` peers, each once, and until the tokens have
   wrapped the stored tokens are pairwise distinct and below the next one.
   */
  lemma TableInvariant(capacity: nat, ops: seq<Op>)
    requires 0 < capacity
    ensures var n := PerformAll(Empty(capacity), ops);
            && |n.slots| <= capacity && Distinct(n.slots)
            && (|n.readers| < TOKENS ==>
                  && (forall i :: 0 <= i < |n.slots| ==> n.slots[i].entry.token < n.nextToken)
                  && (forall i, j :: 0 <= i < j < |n.slots| ==> n.slots[i].entry.token != n.slots[j].entry.token))
  {
    RunOk(Empty(capacity), ops);
    var n := PerformAll(Empty(capacity), ops);
    if |n.readers| < TOKENS {
      forall i | 0 <= i < |n.slots| ensures n.slots[i].entry.token == n.slots[i].entry.reader < n.nextToken {
        assert EntryOk(n, n.slots[i]);
        Small(n.slots[i].entry.reader);
        Small(|n.readers|);
      }
      forall i, j | 0 <= i < j < |n.slots| ensures n.slots[i].entry.token != n.slots[j].entry.token {
        assert EntryOk(n, n.slots[i]) && EntryOk(n, n.slots[j]);
      }
    }
  }

  lemma Small(k: nat)
    requires k < TOKENS
    ensures k % TOKENS == k
  {
  }

  /**
   In a reachable table, the notification of reader `r` removes its peer's entry exactly if that
   entry's reader has the same token. Up to the wrap-around that is reader `r` itself. No other peer
   is affected, and no entry is lost by putting one back.
   */
  lemma DoneRemovesOwnEntry(capacity: nat, ops: seq<Op>, r: nat, other: Peer)
    requires 0 < capacity && r < |PerformAll(Empty(capacity), ops).readers|
    ensures var n := PerformAll(Empty(capacity), ops);
            var m := Perform(n, Done(r));
            var entry := Lookup(n.slots, n.readers[r]);
            && (entry.Some? ==>
                  && (Lookup(m.slots, n.readers[r]).None? <==> entry.value.reader % TOKENS == r % TOKENS)
                  && (Lookup(m.slots, n.readers[r]).Some? ==> Lookup(m.slots, n.readers[r]) == entry)
                  && (|n.readers| <= TOKENS ==>
                        (entry.value.reader % TOKENS == r % TOKENS <==> entry.value.reader == r)))
            && (other != n.readers[r] ==> Lookup(m.slots, other) == Lookup(n.slots, other))
  {
    RunOk(Empty(capacity), ops);
    var n := PerformAll(Empty(capacity), ops);
    DoneStep(n, n.readers[r], r % TOKENS, other);
    DoneStep(n, n.readers[r], r % TOKENS, n.readers[r]);
    var entry := Lookup(n.slots, n.readers[r]);
    LookupOk(n.slots, n.readers[r]);
    if entry.Some? && |n.readers| <= TOKENS {
      assert EntryOk(n, Slot(n.readers[r], entry.value));
      Small(r);
      Small(entry.value.reader);
    }
  }

  lemma DoneStep(n: Nat, peer: Peer, token: nat, other: Peer)
    requires NatOk(n)
    ensures var m := ReaderDone(n, peer, token);
            var entry := Lookup(n.slots, peer);
            && (other != peer ==> Lookup(m.slots, other) == Lookup(n.slots, other))
            && (other == peer && entry.Some? ==>
                  && entry.value.token == entry.value.reader % TOKENS
                  && Lookup(m.slots, other) == if entry.value.token == token then None else entry)
  {
    LookupOk(n.slots, peer);
    WithoutOk(n.slots, peer);
    SubAll(Without(n.slots, peer), n.slots);
    LookupWithout(n.slots, peer, other);
    var entry := Lookup(n.slots, peer);
    if entry.Some? {
      assert EntryOk(n, Slot(peer, entry.value));
      var rest := Without(n.slots, peer);
      WithoutGone(rest, peer);
      Shorter(n.slots, peer);
      assert ([Slot(peer, entry.value)] + rest)[1..] == rest;
    }
  }

  lemma {:induction false} WithoutGone(slots: seq<Slot>, peer: Peer)
    requires forall i :: 0 <= i < |slots| ==> slots[i].peer != peer
    ensures Without(slots, peer) == slots
  {
    if slots != [] {
      WithoutGone(slots[1..], peer);
    }
  }

  lemma {:induction false} Shorter(slots: seq<Slot>, peer: Peer)
    ensures Lookup(slots, peer).Some? ==> |Without(slots, peer)| < |slots|
    ensures |Without(slots, peer)| <= |slots|
  {
    if slots != [] {
      Shorter(slots[1..], peer);
    }
  }

  /**
   A packet that gets an upstream makes its peer the most recently used one. A known peer keeps its
   reader; a new one gets a new reader, and the only other entry that can go is the least recently
   used one of a full table.
   */
  lemma PacketKeepsUpstream(capacity: nat, ops: seq<Op>, peer: Peer, now: nat, socket: bool)
    requires 0 < capacity
    ensures var n := PerformAll(Empty(capacity), ops);
            var (m, ok) := Touch(n, peer, now, socket);
            var entry := Lookup(n.slots, peer);
            && (ok <==> entry.Some? || socket)
            && (!ok ==> m == n)
            && (ok ==>
                  && m.slots != [] && m.slots[0].peer == peer && m.slots[0].entry.lastSeen == now
                  && m.slots[0].entry.reader == (if entry.Some? then entry.value.reader else |n.readers|)
                  && m.readers == (if entry.Some? then n.readers else n.readers + [peer])
                  && m.slots[1..] ==
                       if entry.None? && |n.slots| == capacity then n.slots[..capacity - 1] else Without(n.slots, peer))
  {
    RunOk(Empty(capacity), ops);
    var n := PerformAll(Empty(capacity), ops);
    LookupOk(n.slots, peer);
    Shorter(n.slots, peer);
    WithoutMissing(n.slots, peer);
  }

  /** A peer that sends a packet and then falls idle, `k` times over, as time goes on. */
  function Rounds(peer: Peer, start: nat, k: nat): seq<Op> {
    if k == 0 then []
    else Rounds(peer, start, k - 1) + [Packet(peer, start + k, true), Sweep(start + k + 1, 1)]
  }

  function TimeOf(op: Op): Option<nat> {
    match op
    case Packet(_, now, _) => Some(now)
    case Done(_) => None
    case Sweep(now, _) => Some(now)
  }

  /** The clock never goes back, and has got to `now` at most. */
  ghost predicate TimeRises(ops: seq<Op>, now: nat) {
    && (forall i :: 0 <= i < |ops| && TimeOf(ops[i]).Some? ==> TimeOf(ops[i]).value <= now)
    && (forall i, j :: 0 <= i < j < |ops| && TimeOf(ops[i]).Some? && TimeOf(ops[j]).Some? ==>
          TimeOf(ops[i]).value <= TimeOf(ops[j]).value)
  }

  lemma {:induction false} RoundsRise(peer: Peer, start: nat, k: nat)
    ensures TimeRises(Rounds(peer, start, k), start + k + 1)
  {
    if k > 0 {
      RoundsRise(peer, start, k - 1);
    }
  }

  lemma {:induction false} PerformThen(n: Nat, a: seq<Op>, b: seq<Op>)
    ensures PerformAll(n, a + b) == PerformAll(PerformAll(n, a), b)
    decreases |a|
  {
    hide Perform;
    if a == [] {
      assert a + b == b;
    } else {
      PerformThen(Perform(n, a[0]), a[1..], b);
      assert (a + b)[1..] == a[1..] + b;
    }
  }

  lemma OnePacket(peer: Peer, now: nat, k: nat)
    ensures var n := Nat(1, [], k % TOKENS, seq(k, _ => peer));
            var m := Perform(n, Packet(peer, now, true));
            && m == Nat(1, [Slot(peer, Entry(k % TOKENS, now, k))], (k + 1) % TOKENS, seq(k + 1, _ => peer))
            && Perform(m, Sweep(now + 1, 1)) == Nat(1, [], (k + 1) % TOKENS, seq(k + 1, _ => peer))
  {
    NextToken(k);
    assert seq(k, _ => peer) + [peer] == seq(k + 1, _ => peer);
    var slots := [Slot(peer, Entry(k % TOKENS, now, k))];
    assert slots[1..] == [] && Fresh([], now + 1, 1) == [];
  }

  lemma {:induction false} AfterRounds(peer: Peer, start: nat, k: nat)
    ensures PerformAll(Empty(1), Rounds(peer, start, k)) == Nat(1, [], k % TOKENS, seq(k, _ => peer))
  {
    hide Perform;
    if k == 0 {
      assert seq(0, _ => peer) == [];
    } else {
      AfterRounds(peer, start, k - 1);
      OnePacket(peer, start + k, k - 1);
      var last := [Packet(peer, start + k, true), Sweep(start + k + 1, 1)];
      PerformThen(Empty(1), Rounds(peer, start, k - 1), last);
      var n := PerformAll(Empty(1), Rounds(peer, start, k - 1));
      var m := Perform(n, last[0]);
      assert last[1..] == [last[1]] && [last[1]][1..] == [];
      assert PerformAll(m, [last[1]]) == Perform(m, last[1]);
    }
  }

  /** A peer that has come and gone 2^64 times, and comes back. */
  function WrapAround(peer: Peer, start: nat): seq<Op> {
    Rounds(peer, start, TOKENS) + [Packet(peer, start + TOKENS + 1, true)]
  }

  /**
   After the wrap-around a late notification can remove a newer reader's entry: the first reader's
   notification removes the entry of the latest one.
   */
  lemma WrappedTokenRemovesOther(peer: Peer, start: nat)
    ensures TimeRises(WrapAround(peer, start), start + TOKENS + 1)
    ensures var n := PerformAll(Empty(1), WrapAround(peer, start));
            && n.slots == [Slot(peer, Entry(0, start + TOKENS + 1, TOKENS))]
            && Perform(n, Done(0)).slots == []
  {
    hide Rounds, PerformAll, Perform;
    var now := start + TOKENS + 1;
    RoundsRise(peer, start, TOKENS);
    AfterRounds(peer, start, TOKENS);
    PerformThen(Empty(1), Rounds(peer, start, TOKENS), [Packet(peer, now, true)]);
    OnePacket(peer, now, TOKENS);
    PerformOne(Nat(1, [], TOKENS % TOKENS, seq(TOKENS, _ => peer)), Packet(peer, now, true));
    assert TOKENS % TOKENS == 0;
    FirstReaderDone(peer, now);
  }

  lemma PerformOne(n: Nat, op: Op)
    ensures PerformAll(n, [op]) == Perform(n, op)
  {
    hide Perform;
    assert [op][1..] == [] && PerformAll(Perform(n, op), []) == Perform(n, op);
  }

  lemma FirstReaderDone(peer: Peer, now: nat)
    ensures var n := Nat(1, [Slot(peer, Entry(0, now, TOKENS))], (TOKENS + 1) % TOKENS, seq(TOKENS + 1, _ => peer));
            Perform(n, Done(0)).slots == []
  {
    var n := Nat(1, [Slot(peer, Entry(0, now, TOKENS))], (TOKENS + 1) % TOKENS, seq(TOKENS + 1, _ => peer));
    assert n.slots[1..] == [] && n.readers[0] == peer;
    assert Without(n.slots, peer) == [] + Without(n.slots[1..], peer) == [];
    assert Lookup(n.slots, peer) == Some(Entry(0, now, TOKENS));
  }

  // ----- The table as it is updated in place

  class QuicNatState {
    const capacity: nat
    var slots: seq<Slot>
    var nextToken: nat
    /** Readers spawned so far, to tell them apart. */
    var spawned: nat
    ghost var readers: seq<Peer>

    ghost function View(): Nat
      reads this
    {
      Nat(capacity, slots, nextToken, readers)
    }

    constructor (capacity: nat)
      ensures View() == Empty(capacity) && spawned == 0
    {
      this.capacity := capacity;
      slots, nextToken, spawned := [], 0, 0;
      readers := [];
    }

    method Pop(peer: Peer) returns (entry: Option<Entry>)
      modifies this`slots
      ensures entry == Lookup(old(slots), peer)
      ensures slots == if entry.Some? then Without(old(slots), peer) else old(slots)
    {
      entry := Lookup(slots, peer);
      if entry.Some? {
        slots := Without(slots, peer);
      }
    }

    method HandleReaderDone(peer: Peer, token: nat)
      modifies this`slots
      ensures View() == ReaderDone(old(View()), peer, token)
    {
      var entry := Pop(peer);
      if entry.Some? {
        if entry.value.token != token {
          slots := Put(capacity, slots, peer, entry.value);
        }
      }
    }

    /** Lists the idle peers first, then removes them one by one. */
    method SweepIdle(now: nat, idle: nat)
      requires Distinct(slots)
      modifies this`slots
      ensures View() == Perform(old(View()), Sweep(now, idle))
    {
      hide Without, Lookup, Excluding, Fresh;
      var stale: seq<Peer> := [];
      for i := 0 to |slots|
        invariant forall p :: p in stale <==>
          exists j :: 0 <= j < i && slots[j].peer == p && now - slots[j].entry.lastSeen >= idle
      {
        if now - slots[i].entry.lastSeen >= idle {
          stale := stale + [slots[i].peer];
        }
      }
      NoneExcluded(slots);
      for i := 0 to |stale|
        invariant slots == Excluding(old(slots), stale[..i])
      {
        ExcludeOne(old(slots), stale[..i], stale[i]);
        assert stale[..i + 1] == stale[..i] + [stale[i]];
        WithoutMissing(slots, stale[i]);
        var _ := Pop(stale[i]);
      }
      assert stale[..|stale|] == stale;
      ExcludingIdle(old(slots), stale, now, idle);
    }

    method GetOrCreateUpstream(peer: Peer, now: nat, socket: bool) returns (ok: bool)
      requires spawned == |readers|
      modifies this
      ensures spawned == |readers| && (View(), ok) == Touch(old(View()), peer, now, socket)
    {
      var entry := Lookup(slots, peer);
      if entry.Some? {
        slots := Put(capacity, slots, peer, entry.value.(lastSeen := now));
        return true;
      }
      if !socket {
        return false;
      }
      var token := nextToken;
      nextToken := (nextToken + 1) % TOKENS;
      slots := Put(capacity, slots, peer, Entry(token, now, spawned));
      spawned := spawned + 1;
      readers := readers + [peer];
      return true;
    }
  }

  function Excluding(slots: seq<Slot>, gone: seq<Peer>): seq<Slot> {
    if slots == [] then [] else (if slots[0].peer in gone then [] else [slots[0]]) + Excluding(slots[1..], gone)
  }

  lemma {:induction false} NoneExcluded(slots: seq<Slot>)
    ensures Excluding(slots, []) == slots
  {
    if slots != [] {
      NoneExcluded(slots[1..]);
    }
  }

  lemma {:induction false} ExcludeOne(slots: seq<Slot>, gone: seq<Peer>, peer: Peer)
    ensures Without(Excluding(slots, gone), peer) == Excluding(slots, gone + [peer])
  {
    if slots != [] {
      ExcludeOne(slots[1..], gone, peer);
      var rest := Excluding(slots[1..], gone);
      assert ([slots[0]] + rest)[1..] == rest && [] + rest == rest;
    }
  }

  lemma WithoutMissing(slots: seq<Slot>, peer: Peer)
    ensures Lookup(slots, peer).None? ==> Without(slots, peer) == slots
  {
    LookupOk(slots, peer);
    if Lookup(slots, peer).None? {
      WithoutGone(slots, peer);
    }
  }

  /** With distinct peers, leaving out the idle ones' peers leaves the fresh slots. */
  lemma {:induction false} ExcludingIdle(slots: seq<Slot>, stale: seq<Peer>, now: nat, idle: nat)
    requires forall i :: 0 <= i < |slots| ==> (slots[i].peer in stale <==> now - slots[i].entry.lastSeen >= idle)
    ensures Excluding(slots, stale) == Fresh(slots, now, idle)
  {
    if slots != [] {
      ExcludingIdle(slots[1..], stale, now, idle);
    }
  }
}
