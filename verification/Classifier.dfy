/**
 The TCP front-door classifier (slt-core/src/classifier.rs): a record reader and a handshake reader
 that advance through one buffer, and the loop that peeks until they decide
 (slt-server/src/tcp/classification.rs).
 */
module Classifier {
  import opened Bytes
  import opened ClientHello
  import opened FlatParser

  /** What is left of a stream after its first `n` bytes. */
  ghost function After(s: Stream, n: nat): Stream
    requires n <= |s.bytes| == |s.ends|
  {
    Stream(s.bytes[n..], s.ends[n..], s.tail)
  }

  /** Taking `n` bytes from the current record moves `n` bytes along the flattened stream. */
  lemma RunTaken(buf: seq<Byte>, pos: nat, rem: nat, s: Stream, k: nat, n: nat)
    requires n <= rem && pos + n <= |buf| && k <= |s.bytes| == |s.ends|
    requires Flatten(buf, pos, rem) == After(s, k)
    ensures k + n <= |s.bytes| && Flatten(buf, pos + n, rem - n) == After(s, k + n)
    ensures forall i :: k <= i < k + n ==> s.bytes[i] == buf[pos + i - k]
    ensures n > 0 ==> s.ends[k + n - 1] == pos + n
  {
    FlattenRun(buf, pos, rem, n);
    var rest := Flatten(buf, pos + n, rem - n);
    assert s.bytes[k..] == buf[pos..pos + n] + rest.bytes && s.ends[k..] == RunEnds(pos, n) + rest.ends;
    assert s.bytes[k..][n..] == s.bytes[k + n..] && s.ends[k..][n..] == s.ends[k + n..];
    assert forall i :: k <= i < k + n ==> s.bytes[i] == s.bytes[k..][i - k];
    if n > 0 {
      assert s.ends[k + n - 1] == s.ends[k..][n - 1];
    }
  }

  lemma NothingLeft(buf: seq<Byte>, rem: nat)
    ensures Flatten(buf, |buf|, rem) == Stream([], [], Incomplete)
  {
  }

  class RecordReader {
    const buf: seq<Byte>
    var pos: nat
    var recordRemaining: nat

    ghost predicate Valid()
      reads this
    {
      pos <= |buf|
    }

    /** Everything this reader has still to deliver. */
    ghost function Rest(): Stream
      requires Valid()
      reads this
    {
      Flatten(buf, pos, recordRemaining)
    }

    constructor (buf: seq<Byte>)
      ensures Valid() && this.buf == buf && pos == 0 && Rest() == Flatten(buf, 0, 0)
    {
      this.buf := buf;
      pos := 0;
      recordRemaining := 0;
    }

    /** Fill the first `len` bytes of `out` from the records, in whole runs. */
    method ReadExact(out: array<Byte>, len: nat) returns (r: Result<(), Verdict>)
      requires Valid() && len <= out.Length
      modifies this, out
      ensures Valid()
      ensures var s := old(Rest());
              if len <= |s.bytes| then
                && r == Ok(())
                && out[..len] == s.bytes[..len]
                && Rest() == After(s, len)
                && (len > 0 ==> pos == s.ends[len - 1])
              else r == Err(s.tail)
    {
      hide Flatten;
      ghost var s := Rest();
      var filled := 0;
      while filled < len
        invariant 0 <= filled <= len && Valid()
        invariant filled <= |s.bytes| && Rest() == After(s, filled)
        invariant forall i :: 0 <= i < filled ==> out[i] == s.bytes[i]
        invariant filled == len > 0 ==> pos == s.ends[len - 1]
        decreases |buf| - pos
      {
        if recordRemaining == 0 {
          var next := NextRecord();
          if next.Err? {
            return next;
          }
        }
        var available := |buf| - pos;
        if available == 0 {
          NothingLeft(buf, recordRemaining);
          return Err(Incomplete);
        }
        var take := Min(Min(recordRemaining, len - filled), available);
        CopyRun(out, filled, take, s);
        filled := filled + take;
      }
      return Ok(());
    }

    /** Copy one run of the current record to `out[filled..]`. */
    method CopyRun(out: array<Byte>, filled: nat, take: nat, ghost s: Stream)
      requires Valid() && filled + take <= out.Length && take <= recordRemaining && take <= |buf| - pos
      requires filled <= |s.bytes| == |s.ends| && Rest() == After(s, filled)
      modifies this, out
      ensures Valid() && filled + take <= |s.bytes| && Rest() == After(s, filled + take)
      ensures pos == old(pos) + take && (take > 0 ==> pos == s.ends[filled + take - 1])
      ensures forall i :: 0 <= i < filled ==> out[i] == old(out[i])
      ensures forall i :: filled <= i < filled + take ==> out[i] == s.bytes[i]
    {
      hide Flatten;
      RunTaken(buf, pos, recordRemaining, s, filled, take);
      forall i | filled <= i < filled + take {
        out[i] := buf[pos + i - filled];
      }
      pos := pos + take;
      recordRemaining := recordRemaining - take;
    }

    /** Step over one record header. */
    method NextRecord() returns (r: Result<(), Verdict>)
      requires Valid() && recordRemaining == 0
      modifies this
      ensures Valid()
      ensures r.Err? ==> old(Rest()) == Stream([], [], r.error)
      ensures r.Ok? ==> Rest() == old(Rest()) && pos == old(pos) + TLS_RECORD_HEADER_LEN
    {
      if pos + 5 > |buf| {
        return Err(Incomplete);
      }
      if buf[pos] != TLS_HANDSHAKE_CONTENT_TYPE {
        return Err(Pass);
      }
      var len := U16(buf[pos + 3], buf[pos + 4]);
      pos := pos + 5;
      recordRemaining := len;
      return Ok(());
    }
  }

  lemma PrefixMore(bytes: seq<Byte>, n: nat, len: nat)
    requires n + len <= |bytes|
    ensures bytes[..n] + bytes[n..n + len] == bytes[..n + len]
  {
  }

  class HandshakeReader {
    const record: RecordReader
    var remaining: nat

    /** The reader has delivered the first `n` bytes of `s`. */
    ghost predicate At(s: Stream, n: nat)
      reads this, record
    {
      record.Valid() && n <= |s.bytes| == |s.ends| && record.Rest() == After(s, n)
    }

    constructor (record: RecordReader, remaining: nat)
      ensures this.record == record && this.remaining == remaining
    {
      this.record := record;
      this.remaining := remaining;
    }

    /** Read inside the message: a read past its declared length passes at once. */
    method ReadExact(out: array<Byte>, len: nat, ghost s: Stream, ghost n: nat) returns (r: Result<(), Verdict>)
      requires At(s, n) && len <= out.Length
      modifies this, record, out
      ensures r == if len > old(remaining) then Err(Pass)
                   else if n + len > |s.bytes| then Err(s.tail) else Ok(())
      ensures r.Ok? ==>
        && At(s, n + len)
        && remaining == old(remaining) - len
        && out[..len] == s.bytes[n..n + len]
        && (len > 0 ==> record.pos == s.ends[n + len - 1])
    {
      if len > remaining {
        return Err(Pass);
      }
      r := record.ReadExact(out, len);
      if r.Ok? {
        assert s.bytes[n..][..len] == s.bytes[n..n + len];
        assert s.bytes[n..][len..] == s.bytes[n + len..] && s.ends[n..][len..] == s.ends[n + len..];
        remaining := remaining - len;
      }
    }

    /** Append the rest of the message, in chunks of at most 256 bytes. */
    method ReadRemainingInto(output: seq<Byte>, ghost s: Stream) returns (r: Result<(), Verdict>, output': seq<Byte>)
      requires At(s, |output|) && output == s.bytes[..|output|]
      requires output != [] ==> record.pos == s.ends[|output| - 1]
      modifies this, record
      ensures var m := |output| + old(remaining);
              if m > |s.bytes| then r == Err(s.tail)
              else
                && r == Ok(())
                && output' == s.bytes[..m]
                && (m > 0 ==> record.pos == s.ends[m - 1])
    {
      hide Flatten, After;
      output' := output;
      while remaining > 0
        invariant |output'| + remaining == |output| + old(remaining) && At(s, |output'|)
        invariant output' == s.bytes[..|output'|]
        invariant output' != [] ==> record.pos == s.ends[|output'| - 1]
        decreases remaining
      {
        var bytes;
        r, bytes := ReadChunk(s, |output'|);
        if r.Err? {
          return;
        }
        PrefixMore(s.bytes, |output'|, |bytes|);
        output' := output' + bytes;
      }
      r := Ok(());
    }

    /** One chunk of the loop above. */
    method ReadChunk(ghost s: Stream, ghost n: nat) returns (r: Result<(), Verdict>, bytes: seq<Byte>)
      requires At(s, n) && remaining > 0
      modifies this, record
      ensures var len := Min(old(remaining), 256);
              if n + len > |s.bytes| then r == Err(s.tail)
              else
                && r == Ok(()) && At(s, n + len) && |bytes| == len
                && bytes == s.bytes[n..n + len]
                && remaining == old(remaining) - len
                && record.pos == s.ends[n + len - 1]
    {
      var chunk := new Byte[256];
      var len := Min(remaining, chunk.Length);
      r := ReadExact(chunk, len, s, n);
      bytes := chunk[..len];
    }

    method WireBytesRead() returns (n: nat)
      ensures n == record.pos
    {
      n := record.pos;
    }
  }

  /** The readers decide exactly what the flat parser decides. */
  method ClassifyTcpClientHelloWithinLimit(input: seq<Byte>, mac: Mac) returns (v: Verdict)
    ensures v == Judge(Flatten(input, 0, 0), mac)
  {
    ghost var s := Flatten(input, 0, 0);
    ghost var m := s.bytes;
    var record := new RecordReader(input);

    var header := new Byte[4];
    var r := record.ReadExact(header, 4);
    if r.Err? {
      return r.error;
    }
    if header[0] != HANDSHAKE_TYPE_CLIENT_HELLO {
      return Pass;
    }
    var hsLen := U24(header[1], header[2], header[3]);
    if TLS_RECORD_HEADER_LEN + header.Length + hsLen > MAX_TCP_CLIENT_HELLO_WIRE_LEN {
      return Pass;
    }
    var hs := new HandshakeReader(record, hsLen);
    v := ClassifyBody(hs, header[..], mac, s);
  }

  /** The fields of the message up to the session id, as offset and length. */
  ghost predicate Field(n: nat, len: nat) {
    (n == 4 && len == 2) || (n == 6 && len == 32) || (n == 38 && len == 1) || (n == 39 && len == 32)
  }

  /** Stopping at a field: pass if the message has no room for it, otherwise wait or pass with the stream. */
  lemma StopAtField(s: Stream, mac: Mac, n: nat, len: nat)
    requires Field(n, len)
    requires var m := s.bytes;
             && n <= |m| == |s.ends| && n <= HelloLen(m) && (n + len > HelloLen(m) || n + len > |m|)
             && m[0] == HANDSHAKE_TYPE_CLIENT_HELLO && (n == 39 ==> m[38] == LEGACY_SESSION_ID_LEN)
             && TLS_RECORD_HEADER_LEN + HelloLen(m) <= MAX_TCP_CLIENT_HELLO_WIRE_LEN
    ensures Judge(s, mac) == if n + len > HelloLen(s.bytes) then Pass else s.tail
  {
  }

  /** The part after the handshake header. */
  method ClassifyBody(hs: HandshakeReader, header: seq<Byte>, mac: Mac, ghost s: Stream) returns (v: Verdict)
    requires hs.At(s, 4) && header == s.bytes[..4] && header[0] == HANDSHAKE_TYPE_CLIENT_HELLO
    requires TLS_RECORD_HEADER_LEN + HelloLen(header) <= MAX_TCP_CLIENT_HELLO_WIRE_LEN
    requires hs.remaining == HelloLen(header) - 4
    modifies hs, hs.record
    ensures v == Judge(s, mac)
  {
    var version := new Byte[2];
    var r := hs.ReadExact(version, 2, s, 4);
    if r.Err? {
      StopAtField(s, mac, 4, 2);
      return r.error;
    }
    var random := new Byte[32];
    r := hs.ReadExact(random, 32, s, 6);
    if r.Err? {
      StopAtField(s, mac, 6, 32);
      return r.error;
    }
    v := ClassifySessionId(hs, header, version[..], random[..], mac, s);
  }

  /** The part after the random. */
  method ClassifySessionId(hs: HandshakeReader, header: seq<Byte>, version: seq<Byte>, random: seq<Byte>,
      mac: Mac, ghost s: Stream) returns (v: Verdict)
    requires hs.At(s, 38)
    requires var m := s.bytes;
             && header == m[..4] && version == m[4..6] && random == m[6..38]
             && m[0] == HANDSHAKE_TYPE_CLIENT_HELLO && 38 <= HelloLen(m) == hs.remaining + 38
             && TLS_RECORD_HEADER_LEN + HelloLen(m) <= MAX_TCP_CLIENT_HELLO_WIRE_LEN
    modifies hs, hs.record
    ensures v == Judge(s, mac)
  {
    var sessionIdLen := new Byte[1];
    var r := hs.ReadExact(sessionIdLen, 1, s, 38);
    if r.Err? {
      StopAtField(s, mac, 38, 1);
      return r.error;
    }
    assert sessionIdLen[0] == sessionIdLen[..1][0] == s.bytes[38];
    if sessionIdLen[0] != LEGACY_SESSION_ID_LEN {
      return Pass;
    }
    var sessionId := new Byte[32];
    r := hs.ReadExact(sessionId, 32, s, 39);
    if r.Err? {
      StopAtField(s, mac, 39, 32);
      return r.error;
    }
    v := ClassifyToken(hs, header, version, random, sessionIdLen[..], sessionId[..], mac, s);
  }

  /** The part after the session id: candidate tag, rest of the message, full verification. */
  method ClassifyToken(hs: HandshakeReader, header: seq<Byte>, version: seq<Byte>, random: seq<Byte>,
      sessionIdLen: seq<Byte>, sessionId: seq<Byte>, mac: Mac, ghost s: Stream) returns (v: Verdict)
    requires hs.At(s, 71) && hs.record.pos == s.ends[70]
    requires var m := s.bytes;
             && header == m[..4] && version == m[4..6] && random == m[6..38]
             && sessionIdLen == m[38..39] && sessionId == m[39..71]
             && m[0] == HANDSHAKE_TYPE_CLIENT_HELLO && m[38] == LEGACY_SESSION_ID_LEN
             && TLS_RECORD_HEADER_LEN + HelloLen(m) <= MAX_TCP_CLIENT_HELLO_WIRE_LEN
             && 71 <= HelloLen(m) == hs.remaining + 71
    modifies hs, hs.record
    ensures v == Judge(s, mac)
  {
    ghost var m := s.bytes;
    var candidate := CandidateTag(random, mac);
    if candidate.None? {
      return Pass;
    }
    assert m[39..71][..16] == m[39..55];
    if sessionId[..TOKEN_PART_LEN] != candidate.value {
      return Pass;
    }
    var hello := header + version + random + sessionIdLen + sessionId;
    assert hello == m[..71];
    var r, message := hs.ReadRemainingInto(hello, s);
    if r.Err? {
      return r.error;
    }
    assert message == m[..HelloLen(m)];
    var read := hs.WireBytesRead();
    if read > MAX_TCP_CLIENT_HELLO_WIRE_LEN {
      return Pass;
    }
    return if Verify(message, mac) == Ok(true) then Claim else Pass;
  }

  method ClassifyTcpClientHello(input: seq<Byte>, mac: Mac) returns (v: Verdict)
    ensures v == Classify(input, mac)
  {
    v := ClassifyTcpClientHelloWithinLimit(input, mac);
    if v == Incomplete && |input| >= MAX_TCP_CLIENT_HELLO_WIRE_LEN {
      v := Pass;
    }
  }

  /** What one round of the peek loop sees: the timeout, an eviction, an error, or this many bytes of the stream. */
  datatype Round = TimedOut | Evicted | PeekFailed | Peeked(n: nat)

  datatype Outcome = Decided(verdict: Verdict) | WasEvicted | IoFailed

  ghost predicate LeftOpen(stream: seq<Byte>, round: Round, mac: Mac) {
    round.Peeked? && 0 < round.n <= |stream| && Classify(stream[..round.n], mac) == Incomplete
  }

  /**
   Peeks until there is a decision. Whatever the rounds see, a decision is the one for the whole
   stream, and every earlier peek left it open.
   */
  method ClassifyStream(stream: seq<Byte>, rounds: seq<Round>, mac: Mac) returns (r: Option<Outcome>, used: nat)
    requires forall i :: 0 <= i < |rounds| && rounds[i].Peeked? ==>
      rounds[i].n <= Min(|stream|, MAX_TCP_CLIENT_HELLO_WIRE_LEN)
    ensures used <= |rounds| && (r.None? ==> used == |rounds|) && (r.Some? ==> 0 < used)
    ensures forall i :: 0 <= i < used - (if r.Some? then 1 else 0) ==> LeftOpen(stream, rounds[i], mac)
    ensures r.Some? ==>
      match rounds[used - 1]
      case TimedOut => r.value == Decided(Incomplete)
      case Evicted => r.value == WasEvicted
      case PeekFailed => r.value == IoFailed
      case Peeked(n) =>
        if n == 0 then r.value == Decided(Drop)
        else
          && n <= |stream| && r.value == Decided(Classify(stream[..n], mac))
          && Classify(stream, mac) == Classify(stream[..n], mac) != Incomplete
  {
    used := 0;
    while used < |rounds|
      invariant 0 <= used <= |rounds|
      invariant forall i :: 0 <= i < used ==> LeftOpen(stream, rounds[i], mac)
    {
      var round := rounds[used];
      used := used + 1;
      match round {
        case TimedOut => return Some(Decided(Incomplete)), used;
        case Evicted => return Some(WasEvicted), used;
        case PeekFailed => return Some(IoFailed), used;
        case Peeked(n) =>
          if n == 0 {
            return Some(Decided(Drop)), used;
          }
          var verdict := ClassifyTcpClientHello(stream[..n], mac);
          if verdict != Incomplete {
            VerdictStable(stream[..n], stream[n..], mac);
            assert stream[..n] + stream[n..] == stream;
            return Some(Decided(verdict)), used;
          }
      }
    }
    return None, used;
  }
}
