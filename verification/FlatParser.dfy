/**
 What the TCP front door decides, stated without a reader: flatten the TLS handshake records
 into one byte stream, then judge that stream (slt-core/src/classifier.rs).

 Beside each flattened byte stands its end: the number of wire bytes read once it has been read.
 */
module FlatParser {
  import opened Bytes
  import opened ClientHello

  datatype Verdict = Claim | Pass | Drop | Incomplete

  const TLS_HANDSHAKE_CONTENT_TYPE: Byte := 0x16
  const TLS_RECORD_HEADER_LEN: nat := 5

  /** The bytes of all handshake records, their ends, and why they stop: cut short, or a foreign record. */
  datatype Stream = Stream(bytes: seq<Byte>, ends: seq<nat>, tail: Verdict)

  /** Flatten `buf` from wire position `pos`, with `rem` bytes left in the current record. */
  function Flatten(buf: seq<Byte>, pos: nat, rem: nat): (s: Stream)
    requires pos <= |buf|
    ensures |s.bytes| == |s.ends| && s.tail in {Incomplete, Pass}
    decreases |buf| - pos
  {
    if rem > 0 then
      if pos == |buf| then Stream([], [], Incomplete) else
      var rest := Flatten(buf, pos + 1, rem - 1);
      Stream([buf[pos]] + rest.bytes, [pos + 1] + rest.ends, rest.tail)
    else if pos + TLS_RECORD_HEADER_LEN > |buf| then Stream([], [], Incomplete)
    else if buf[pos] != TLS_HANDSHAKE_CONTENT_TYPE then Stream([], [], Pass)
    else Flatten(buf, pos + TLS_RECORD_HEADER_LEN, U16(buf[pos + 3], buf[pos + 4]))
  }

  function HelloLen(m: seq<Byte>): nat
    requires 4 <= |m|
  {
    4 + U24(m[1], m[2], m[3])
  }

  predicate CandidateMatches(m: seq<Byte>, mac: Mac)
    requires 71 <= |m|
  {
    CandidateTag(m[6..38], mac) == Some(m[39..55])
  }

  /** The bytes seen so far already rule out an SLT ClientHello. */
  predicate Refuted(m: seq<Byte>, mac: Mac) {
    && 4 <= |m|
    && (|| m[0] != HANDSHAKE_TYPE_CLIENT_HELLO
        || TLS_RECORD_HEADER_LEN + HelloLen(m) > MAX_TCP_CLIENT_HELLO_WIRE_LEN
        || HelloLen(m) < 6
        || (6 <= |m| && HelloLen(m) < 38)
        || (38 <= |m| && HelloLen(m) < 39)
        || (39 <= |m| && (m[38] != LEGACY_SESSION_ID_LEN || HelloLen(m) < 71))
        || (71 <= |m| && !CandidateMatches(m, mac)))
  }

  predicate Complete(m: seq<Byte>) {
    4 <= |m| && HelloLen(m) <= |m|
  }

  function Judge(s: Stream, mac: Mac): Verdict
    requires |s.bytes| == |s.ends|
  {
    var m := s.bytes;
    if Refuted(m, mac) then Pass
    else if !Complete(m) then s.tail
    else if s.ends[HelloLen(m) - 1] > MAX_TCP_CLIENT_HELLO_WIRE_LEN then Pass
    else if Verify(m[..HelloLen(m)], mac) == Ok(true) then Claim
    else Pass
  }

  /** The verdict on a stream buffer. */
  function Classify(buf: seq<Byte>, mac: Mac): (v: Verdict)
    ensures v != Drop
    ensures |buf| >= 8192 ==> v != Incomplete
  {
    var v := Judge(Flatten(buf, 0, 0), mac);
    if v == Incomplete && |buf| >= MAX_TCP_CLIENT_HELLO_WIRE_LEN then Pass else v
  }

  // ----- Wire positions

  ghost predicate Ascending(ends: seq<nat>, low: nat, high: nat) {
    && (forall i :: 0 <= i < |ends| ==> low + i < ends[i] <= high)
    && (forall i, j :: 0 <= i < j < |ends| ==> ends[i] < ends[j])
  }

  /** Ends grow strictly, start after the header still to come, and stay inside the buffer. */
  lemma {:induction false} EndsAscend(buf: seq<Byte>, pos: nat, rem: nat)
    requires pos <= |buf|
    ensures Ascending(Flatten(buf, pos, rem).ends, if rem == 0 then pos + TLS_RECORD_HEADER_LEN else pos, |buf|)
    decreases |buf| - pos
  {
    if rem > 0 {
      if pos < |buf| {
        EndsAscend(buf, pos + 1, rem - 1);
        var rest := Flatten(buf, pos + 1, rem - 1).ends;
        var ends := [pos + 1] + rest;
        assert forall i :: 0 < i < |ends| ==> ends[i] == rest[i - 1];
        assert Ascending(ends, pos, |buf|);
      }
    } else if pos + TLS_RECORD_HEADER_LEN <= |buf| && buf[pos] == TLS_HANDSHAKE_CONTENT_TYPE {
      EndsAscend(buf, pos + TLS_RECORD_HEADER_LEN, U16(buf[pos + 3], buf[pos + 4]));
    }
  }

  /** `s'` continues `s`, every further byte ending beyond wire position `limit`. */
  ghost predicate Continues(s: Stream, s': Stream, limit: nat)
    requires |s.bytes| == |s.ends| && |s'.bytes| == |s'.ends|
  {
    && s.bytes <= s'.bytes && s.ends <= s'.ends
    && (s.tail == Pass ==> s' == s)
    && (forall i :: |s.ends| <= i < |s'.ends| ==> s'.ends[i] > limit)
  }

  /**
   More wire bytes only append flattened bytes, every one of them ending beyond the old buffer;
   nothing is appended once a foreign record was met.
   */
  lemma {:induction false} FlattenExtends(buf: seq<Byte>, more: seq<Byte>, pos: nat, rem: nat)
    requires pos <= |buf|
    ensures Continues(Flatten(buf, pos, rem), Flatten(buf + more, pos, rem), |buf|)
    decreases |buf| - pos
  {
    var buf' := buf + more;
    if rem > 0 {
      if pos < |buf| {
        FlattenExtends(buf, more, pos + 1, rem - 1);
        var s, s' := Flatten(buf, pos, rem).ends, Flatten(buf', pos, rem).ends;
        var t' := Flatten(buf', pos + 1, rem - 1).ends;
        assert s' == [pos + 1] + t';
        forall i | |s| <= i < |s'| ensures s'[i] > |buf| {
          assert s'[i] == t'[i - 1];
        }
      } else {
        EndsAscend(buf', pos, rem);
      }
    } else if pos + TLS_RECORD_HEADER_LEN > |buf| {
      EndsAscend(buf', pos, rem);
    } else if buf[pos] == TLS_HANDSHAKE_CONTENT_TYPE {
      FlattenExtends(buf, more, pos + TLS_RECORD_HEADER_LEN, U16(buf[pos + 3], buf[pos + 4]));
    }
  }

  lemma RefutedExtends(m: seq<Byte>, m': seq<Byte>, mac: Mac)
    requires m <= m' && Refuted(m, mac)
    ensures Refuted(m', mac)
  {
    if 71 <= |m| {
      assert m'[6..38] == m[6..38] && m'[39..55] == m[39..55];
    }
  }

  /** A message that verifies was never refuted by any of its prefixes. */
  lemma VerifiedNotRefuted(m: seq<Byte>, mac: Mac)
    requires Complete(m) && Verify(m[..HelloLen(m)], mac) == Ok(true)
    requires TLS_RECORD_HEADER_LEN + HelloLen(m) <= MAX_TCP_CLIENT_HELLO_WIRE_LEN
    ensures !Refuted(m, mac)
  {
    var hello := m[..HelloLen(m)];
    VerifyExactly(hello, mac);
    SliceOfPrefix(m, HelloLen(m), 6, 38);
    SliceOfPrefix(m, HelloLen(m), 39, 55);
  }

  lemma SliceOfPrefix(m: seq<Byte>, k: nat, i: nat, j: nat)
    requires i <= j <= k <= |m|
    ensures m[..k][i..j] == m[i..j]
  {
  }

  // ----- Main results

  /** The wire offset just past the first ClientHello, when the buffer holds all of it. */
  ghost predicate HelloEndsAt(buf: seq<Byte>, hello: seq<Byte>, end: nat) {
    var s := Flatten(buf, 0, 0);
    var m := s.bytes;
    Complete(m) && hello == m[..HelloLen(m)] && end == s.ends[HelloLen(m) - 1]
  }

  /**
   Refinement of the flat parser: the verdict is Claim exactly when the concatenated handshake
   payloads begin with a complete ClientHello that verifies and that ends within the ceiling.
   Fragmentation enters only through that end position.
   */
  lemma ClaimExactly(buf: seq<Byte>, mac: Mac)
    ensures Classify(buf, mac) == Claim
       <==> exists hello, end: nat :: HelloEndsAt(buf, hello, end)
                              && Verify(hello, mac) == Ok(true)
                              && end <= MAX_TCP_CLIENT_HELLO_WIRE_LEN
  {
    var s := Flatten(buf, 0, 0);
    var m := s.bytes;
    EndsAscend(buf, 0, 0);
    if Classify(buf, mac) == Claim {
      assert HelloEndsAt(buf, m[..HelloLen(m)], s.ends[HelloLen(m) - 1]);
    }
    if hello, end: nat :| HelloEndsAt(buf, hello, end) && Verify(hello, mac) == Ok(true) && end <= 8192 {
      VerifiedNotRefuted(m, mac);
    }
  }

  /** Verdict stability: a decision is never revised when more bytes arrive. */
  lemma VerdictStable(buf: seq<Byte>, more: seq<Byte>, mac: Mac)
    requires Classify(buf, mac) != Incomplete
    ensures Classify(buf + more, mac) == Classify(buf, mac)
  {
    var s, s' := Flatten(buf, 0, 0), Flatten(buf + more, 0, 0);
    var m, m' := s.bytes, s'.bytes;
    FlattenExtends(buf, more, 0, 0);
    if Refuted(m, mac) {
      RefutedExtends(m, m', mac);
    } else if Complete(m) {
      assert m'[..HelloLen(m')] == m[..HelloLen(m)];
      if 71 <= |m| {
        assert m'[6..38] == m[6..38] && m'[39..55] == m[39..55];
      }
    } else if s.tail == Pass {
    } else if Complete(m') {
      assert s'.ends[HelloLen(m') - 1] > |buf|;
    }
  }

  /** Two reads of one stream that both reach a decision reach the same one. */
  lemma ChunkingIndependent(stream: seq<Byte>, i: nat, j: nat, mac: Mac)
    requires i <= |stream| && j <= |stream|
    requires Classify(stream[..i], mac) != Incomplete && Classify(stream[..j], mac) != Incomplete
    ensures Classify(stream[..i], mac) == Classify(stream[..j], mac) == Classify(stream, mac)
  {
    assert stream[..i] + stream[i..] == stream && stream[..j] + stream[j..] == stream;
    VerdictStable(stream[..i], stream[i..], mac);
    VerdictStable(stream[..j], stream[j..], mac);
  }

  // ----- Record framing

  datatype Record = Record(major: Byte, minor: Byte, payload: seq<Byte>)

  function EncodeRecord(r: Record): seq<Byte>
    requires |r.payload| < 0x1_0000
  {
    [TLS_HANDSHAKE_CONTENT_TYPE, r.major, r.minor, |r.payload| / 0x100, |r.payload| % 0x100] + r.payload
  }

  ghost predicate Encodable(records: seq<Record>) {
    forall r :: r in records ==> |r.payload| < 0x1_0000
  }

  function Wire(records: seq<Record>): seq<Byte>
    requires Encodable(records)
  {
    if records == [] then [] else EncodeRecord(records[0]) + Wire(records[1..])
  }

  function Fragments(records: seq<Record>): seq<Byte> {
    if records == [] then [] else records[0].payload + Fragments(records[1..])
  }

  lemma Assoc<T>(a: seq<T>, b: seq<T>, c: seq<T>)
    ensures a + (b + c) == a + b + c
  {
  }

  /** The ends of a run of `n` bytes inside one record. */
  function RunEnds(pos: nat, n: nat): seq<nat> {
    seq(n, i => pos + i + 1)
  }

  /** Taking a run of bytes from the current record at once is taking them one by one. */
  lemma {:induction false} FlattenRun(buf: seq<Byte>, pos: nat, rem: nat, n: nat)
    requires n <= rem && pos + n <= |buf|
    ensures var rest := Flatten(buf, pos + n, rem - n);
            Flatten(buf, pos, rem) == Stream(buf[pos..pos + n] + rest.bytes, RunEnds(pos, n) + rest.ends, rest.tail)
    decreases n
  {
    var rest := Flatten(buf, pos + n, rem - n);
    if n == 0 {
      assert buf[pos..pos] + rest.bytes == rest.bytes && RunEnds(pos, 0) + rest.ends == rest.ends;
    } else {
      FlattenRun(buf, pos + 1, rem - 1, n - 1);
      assert [buf[pos]] + buf[pos + 1..pos + n] == buf[pos..pos + n];
      assert [pos + 1] + RunEnds(pos + 1, n - 1) == RunEnds(pos, n);
      Assoc([buf[pos]], buf[pos + 1..pos + n], rest.bytes);
      Assoc([pos + 1], RunEnds(pos + 1, n - 1), rest.ends);
    }
  }

  lemma WireMore(records: seq<Record>)
    requires Encodable(records) && records != []
    ensures Encodable(records[1..]) && |records[0].payload| < 0x1_0000
    ensures Wire(records) == EncodeRecord(records[0]) + Wire(records[1..])
  {
  }

  lemma FlattenStep(buf: seq<Byte>, pos: nat)
    requires pos + TLS_RECORD_HEADER_LEN <= |buf| && buf[pos] == TLS_HANDSHAKE_CONTENT_TYPE
    ensures Flatten(buf, pos, 0) == Flatten(buf, pos + TLS_RECORD_HEADER_LEN, U16(buf[pos + 3], buf[pos + 4]))
  {
  }

  /** Where the parts of a record are. */
  lemma RecordAt(before: seq<Byte>, r: Record, rest: seq<Byte>)
    requires |r.payload| < 0x1_0000
    ensures var buf := before + EncodeRecord(r) + rest;
            var pos, n := |before|, |r.payload|;
            && |buf| == pos + 5 + n + |rest| && buf[pos] == TLS_HANDSHAKE_CONTENT_TYPE
            && buf[pos + 3] == n / 0x100 && buf[pos + 4] == n % 0x100
            && buf[pos + 5..pos + 5 + n] == r.payload
  {
  }

  lemma LengthField(n: nat)
    requires n < 0x1_0000
    ensures U16(n / 0x100, n % 0x100) == n
  {
  }

  /** A record header leads into its payload. */
  lemma FlattenHeader(before: seq<Byte>, r: Record, rest: seq<Byte>)
    requires |r.payload| < 0x1_0000
    ensures var buf := before + EncodeRecord(r) + rest;
            && |before| + 5 + |r.payload| <= |buf|
            && Flatten(buf, |before|, 0) == Flatten(buf, |before| + 5, |r.payload|)
            && buf[|before| + 5..|before| + 5 + |r.payload|] == r.payload
  {
    hide Flatten, EncodeRecord, U16;
    RecordAt(before, r, rest);
    LengthField(|r.payload|);
    FlattenStep(before + EncodeRecord(r) + rest, |before|);
  }

  /** One record contributes its payload. */
  lemma FlattenRecord(before: seq<Byte>, r: Record, rest: seq<Byte>)
    requires |r.payload| < 0x1_0000
    ensures var buf := before + EncodeRecord(r) + rest;
            var s := Flatten(buf, |before|, 0);
            var later := Flatten(buf, |before + EncodeRecord(r)|, 0);
            s.bytes == r.payload + later.bytes && s.tail == later.tail
  {
    hide Flatten;
    var buf, n := before + EncodeRecord(r) + rest, |r.payload|;
    FlattenHeader(before, r, rest);
    FlattenRun(buf, |before| + 5, n, n);
    assert |before + EncodeRecord(r)| == |before| + 5 + n;
  }

  /** Flattening undoes any record framing, empty records included. */
  lemma {:induction false} FlattenWire(before: seq<Byte>, records: seq<Record>)
    requires Encodable(records)
    ensures var s := Flatten(before + Wire(records), |before|, 0);
            s.bytes == Fragments(records) && s.tail == Incomplete
    decreases |records|
  {
    if records == [] {
      assert before + Wire(records) == before;
    } else {
      FlattenWireMore(before, records);
      FlattenWire(before + EncodeRecord(records[0]), records[1..]);
    }
  }

  lemma FlattenWireMore(before: seq<Byte>, records: seq<Record>)
    requires Encodable(records) && records != []
    ensures |records[0].payload| < 0x1_0000 && Encodable(records[1..])
    ensures var s := Flatten(before + Wire(records), |before|, 0);
            var next := before + EncodeRecord(records[0]);
            var later := Flatten(next + Wire(records[1..]), |next|, 0);
            s.bytes == records[0].payload + later.bytes && s.tail == later.tail
  {
    hide EncodeRecord, Flatten, Wire;
    WireMore(records);
    FlattenRecord(before, records[0], Wire(records[1..]));
    assert before + Wire(records) == before + EncodeRecord(records[0]) + Wire(records[1..]);
  }

  /** A complete message stays where it is when more bytes arrive. */
  lemma HelloEndsExtends(read: seq<Byte>, more: seq<Byte>, hello: seq<Byte>, end: nat)
    requires HelloEndsAt(read, hello, end)
    ensures HelloEndsAt(read + more, hello, end)
  {
    FlattenExtends(read, more, 0, 0);
    var m, m' := Flatten(read, 0, 0).bytes, Flatten(read + more, 0, 0).bytes;
    assert m'[..HelloLen(m')] == m[..HelloLen(m)];
  }

  lemma HelloEndsInside(read: seq<Byte>, hello: seq<Byte>, end: nat)
    requires HelloEndsAt(read, hello, end)
    ensures end <= |read|
  {
    EndsAscend(read, 0, 0);
  }

  /** A read that reaches the end of the message holds all of it. */
  lemma HelloEndsWithin(read: seq<Byte>, more: seq<Byte>, hello: seq<Byte>, end: nat)
    requires HelloEndsAt(read + more, hello, end) && end <= |read|
    ensures HelloEndsAt(read, hello, end)
  {
    FlattenExtends(read, more, 0, 0);
    var s, t := Flatten(read + more, 0, 0), Flatten(read, 0, 0);
    var m, n := s.bytes, t.bytes;
    assert |t.ends| >= HelloLen(m);
    assert n[..HelloLen(n)] == m[..HelloLen(m)];
  }

  /** One read of a stream whose message verifies and ends at `end`: wait before it, claim from it on. */
  lemma ClaimedFromEnd(read: seq<Byte>, more: seq<Byte>, hello: seq<Byte>, end: nat, mac: Mac)
    requires HelloEndsAt(read + more, hello, end) && Verify(hello, mac) == Ok(true)
    requires end <= MAX_TCP_CLIENT_HELLO_WIRE_LEN
    ensures Classify(read, mac) == if |read| < end then Incomplete else Claim
  {
    ClaimExactly(read + more, mac);
    if end <= |read| {
      HelloEndsWithin(read, more, hello, end);
      ClaimExactly(read, mac);
    } else if Classify(read, mac) != Incomplete {
      VerdictStable(read, more, mac);
      ClaimExactly(read, mac);
      var hello', end': nat :| HelloEndsAt(read, hello', end');
      HelloEndsExtends(read, more, hello', end');
      HelloEndsInside(read, hello', end');
    }
  }

  /** Where a framed message ends. */
  lemma FramedHelloEnds(records: seq<Record>) returns (end: nat)
    requires Encodable(records) && WellFormed(Fragments(records))
    ensures end <= |Wire(records)| && HelloEndsAt(Wire(records), Fragments(records), end)
  {
    var wire, hello := Wire(records), Fragments(records);
    FlattenWire([], records);
    assert [] + wire == wire;
    EndsAscend(wire, 0, 0);
    assert hello[..HelloLen(hello)] == hello;
    end := Flatten(wire, 0, 0).ends[|hello| - 1];
  }

  /**
   Seal then classify: a message that verifies, sent in any handshake records whose wire form
   stays within the ceiling, is claimed at exactly its last byte: every shorter read waits,
   every longer read claims, whatever follows the records.
   */
  lemma FramedHelloClaimed(records: seq<Record>, more: seq<Byte>, mac: Mac) returns (end: nat)
    requires Encodable(records)
    requires Verify(Fragments(records), mac) == Ok(true)
    requires |Wire(records)| <= MAX_TCP_CLIENT_HELLO_WIRE_LEN
    ensures end <= |Wire(records)| && HelloEndsAt(Wire(records), Fragments(records), end)
    ensures forall k :: 0 <= k <= |Wire(records) + more| ==>
              Classify((Wire(records) + more)[..k], mac) == if k < end then Incomplete else Claim
  {
    VerifyExactly(Fragments(records), mac);
    end := FramedHelloEnds(records);
    HelloEndsExtends(Wire(records), more, Fragments(records), end);
    var all := Wire(records) + more;
    forall k | 0 <= k <= |all|
      ensures Classify(all[..k], mac) == if k < end then Incomplete else Claim
    {
      assert all[..k] + all[k..] == all;
      ClaimedFromEnd(all[..k], all[k..], Fragments(records), end, mac);
    }
  }

  /**
   The same for a message sealed by filling its session id: any buffer that does not already
   start with the candidate tag will do.
   */
  lemma SealedHelloClaimed(hello: seq<Byte>, sessionId: seq<Byte>, records: seq<Record>, more: seq<Byte>, mac: Mac)
    requires Filled(hello, sessionId, mac).Ok?
    requires CandidateTag(hello[6..38], mac) != Some(sessionId[..16])
    requires Encodable(records) && |Wire(records)| <= MAX_TCP_CLIENT_HELLO_WIRE_LEN
    requires Fragments(records) == WithSessionId(hello, Filled(hello, sessionId, mac).value)
    ensures Classify(Wire(records) + more, mac) == Claim
  {
    SealVerifies(hello, sessionId, mac);
    var end := FramedHelloClaimed(records, more, mac);
    var all := Wire(records) + more;
    assert all[..|all|] == all;
  }

  // ----- Waiting and passing

  function Announced(header: seq<Byte>): nat
    requires 5 <= |header|
  {
    (header[3] as int) * 256 + header[4] as int
  }

  /** What can be left of a buffer after its complete records while more may come: part of a record. */
  predicate PartOfRecord(rest: seq<Byte>) {
    |rest| < 5 || (rest[0] == 0x16 && |rest| < 5 + Announced(rest))
  }

  /** The header of a record that is not a handshake. */
  predicate Foreign(rest: seq<Byte>) {
    5 <= |rest| && rest[0] != 0x16
  }

  function PartOfPayload(rest: seq<Byte>): seq<Byte> {
    if |rest| < 5 || rest[0] != 0x16 then [] else rest[5..]
  }

  /** Every buffer is complete handshake records followed by part of one or by a foreign one. */
  lemma {:induction false} EveryBufferIsFramed(buf: seq<Byte>) returns (records: seq<Record>, rest: seq<Byte>)
    ensures Encodable(records) && buf == Wire(records) + rest && (PartOfRecord(rest) || Foreign(rest))
    decreases |buf|
  {
    if PartOfRecord(buf) || Foreign(buf) {
      records, rest := [], buf;
      assert buf == Wire(records) + rest;
    } else {
      var n := Announced(buf);
      var r := Record(buf[1], buf[2], buf[5..5 + n]);
      var later;
      later, rest := EveryBufferIsFramed(buf[5 + n..]);
      records := [r] + later;
      assert EncodeRecord(r) == buf[..5 + n] by { EncodedAsRead(buf, r); }
      assert records[1..] == later && Encodable(records);
      assert Wire(records) == EncodeRecord(r) + Wire(later);
      assert buf == buf[..5 + n] + buf[5 + n..];
    }
  }

  lemma EncodedAsRead(buf: seq<Byte>, r: Record)
    requires 5 <= |buf| && buf[0] == 0x16 && 5 + Announced(buf) <= |buf|
    requires r == Record(buf[1], buf[2], buf[5..5 + Announced(buf)])
    ensures |r.payload| < 0x1_0000 && EncodeRecord(r) == buf[..5 + Announced(buf)]
  {
    var n := Announced(buf);
    assert n / 0x100 == buf[3] && n % 0x100 == buf[4];
    assert buf[..5 + n] == buf[..5] + buf[5..5 + n];
  }

  lemma FlattenForeign(before: seq<Byte>, rest: seq<Byte>)
    requires Foreign(rest)
    ensures Flatten(before + rest, |before|, 0) == Stream([], [], Pass)
  {
    assert (before + rest)[|before|] == rest[0];
  }

  lemma FlattenPart(before: seq<Byte>, rest: seq<Byte>)
    requires PartOfRecord(rest)
    ensures var s := Flatten(before + rest, |before|, 0); s.bytes == PartOfPayload(rest) && s.tail == Incomplete
  {
    var buf := before + rest;
    if 5 <= |rest| {
      assert forall i :: 0 <= i < |rest| ==> buf[|before| + i] == rest[i];
      var n := |rest| - 5;
      assert U16(rest[3], rest[4]) == Announced(rest);
      FlattenStep(buf, |before|);
      FlattenRun(buf, |before| + 5, Announced(rest), n);
      assert buf[|before| + 5..|before| + 5 + n] == rest[5..];
      CutShort(buf, Announced(rest) - n);
    }
  }

  lemma CutShort(buf: seq<Byte>, rem: nat)
    ensures Flatten(buf, |buf|, rem) == Stream([], [], Incomplete)
  {
  }

  /** What the flattened stream of a framed buffer is. */
  lemma {:induction false} FlattenFramed(before: seq<Byte>, records: seq<Record>, rest: seq<Byte>)
    requires Encodable(records) && (PartOfRecord(rest) || Foreign(rest))
    ensures var s := Flatten(before + Wire(records) + rest, |before|, 0);
            && s.bytes == Fragments(records) + PartOfPayload(rest)
            && s.tail == if Foreign(rest) then Pass else Incomplete
    decreases |records|
  {
    hide Flatten, EncodeRecord;
    if records == [] {
      assert before + Wire(records) + rest == before + rest;
      assert Fragments(records) + PartOfPayload(rest) == PartOfPayload(rest);
      if Foreign(rest) {
        FlattenForeign(before, rest);
      } else {
        FlattenPart(before, rest);
      }
    } else {
      WireMore(records);
      var next := before + EncodeRecord(records[0]);
      FlattenRecord(before, records[0], Wire(records[1..]) + rest);
      FlattenFramed(next, records[1..], rest);
      assert before + Wire(records) + rest == next + (Wire(records[1..]) + rest) == next + Wire(records[1..]) + rest;
      Assoc(records[0].payload, Fragments(records[1..]), PartOfPayload(rest));
    }
  }

  function AnnouncedBody(m: seq<Byte>): nat
    requires 4 <= |m|
  {
    (m[1] as int) * 65536 + (m[2] as int) * 256 + m[3] as int
  }

  /**
   The message bytes so far leave the question open. The header counts once its four bytes are there; of
   the fields that follow, version, random, session-id length and session id, each counts once it is
   complete, and must fit the announced length as soon as the one before it is.
   */
  ghost predicate Waiting(m: seq<Byte>, mac: Mac) {
    || |m| < 4
    || (var body := AnnouncedBody(m);
        && m[0] == 1 && 9 + body <= 8192 && |m| < 4 + body
        && 2 <= body
        && (6 <= |m| ==> 34 <= body)
        && (38 <= |m| ==> 35 <= body)
        && (39 <= |m| ==> m[38] == 32 && 67 <= body)
        && (71 <= |m| ==> mac(CANDIDATE_LABEL + m[6..22]) == Some(m[39..55])))
  }

  lemma WaitingExactly(m: seq<Byte>, mac: Mac)
    ensures Waiting(m, mac) <==> !Refuted(m, mac) && !Complete(m)
  {
    if 71 <= |m| {
      assert m[6..38][..16] == m[6..22];
    }
  }

  lemma IncompleteJudgement(s: Stream, mac: Mac)
    requires |s.bytes| == |s.ends| && s.tail in {Incomplete, Pass}
    ensures Judge(s, mac) == Incomplete <==> s.tail == Incomplete && Waiting(s.bytes, mac)
  {
    hide Waiting;
    WaitingExactly(s.bytes, mac);
  }

  /**
   The classifier waits if and only if fewer than 8192 bytes have come, what follows the complete
   records is part of one, and the handshake bytes leave the question open.
   */
  lemma IncompleteExactly(records: seq<Record>, rest: seq<Byte>, mac: Mac)
    requires Encodable(records) && (PartOfRecord(rest) || Foreign(rest))
    ensures Classify(Wire(records) + rest, mac) == Incomplete
       <==> && |Wire(records) + rest| < 8192 && !Foreign(rest)
            && Waiting(Fragments(records) + PartOfPayload(rest), mac)
  {
    hide Flatten, Judge, Waiting, Wire;
    FlattenFramed([], records, rest);
    assert [] + Wire(records) + rest == Wire(records) + rest;
    IncompleteJudgement(Flatten(Wire(records) + rest, 0, 0), mac);
  }

  lemma NoClaimWithoutHello(records: seq<Record>, rest: seq<Byte>, mac: Mac)
    requires Encodable(records) && (PartOfRecord(rest) || Foreign(rest))
    requires var m := Fragments(records) + PartOfPayload(rest); |m| < 4 || |m| < 4 + AnnouncedBody(m)
    ensures Classify(Wire(records) + rest, mac) != Claim
  {
    hide Flatten, Wire, Verify;
    FlattenFramed([], records, rest);
    assert [] + Wire(records) + rest == Wire(records) + rest;
    ClaimExactly(Wire(records) + rest, mac);
  }

  /**
   While the message is incomplete, a foreign record, or handshake bytes that no longer leave the question
   open, pass the connection at once.
   */
  lemma PassedAtOnce(records: seq<Record>, rest: seq<Byte>, mac: Mac)
    requires Encodable(records) && (PartOfRecord(rest) || Foreign(rest))
    requires var m := Fragments(records) + PartOfPayload(rest); |m| < 4 || |m| < 4 + AnnouncedBody(m)
    requires Foreign(rest) || !Waiting(Fragments(records) + PartOfPayload(rest), mac)
    ensures Classify(Wire(records) + rest, mac) == Pass
  {
    hide Flatten, Wire, Waiting, Judge;
    IncompleteExactly(records, rest, mac);
    NoClaimWithoutHello(records, rest, mac);
  }

  /** So a first record that is not a handshake passes from its fifth byte on, whatever it is. */
  lemma OtherTrafficPasses(buf: seq<Byte>, mac: Mac)
    requires 5 <= |buf| && buf[0] != 0x16
    ensures Classify(buf, mac) == Pass
  {
    assert Wire([]) + buf == buf;
    PassedAtOnce([], buf, mac);
  }
}
