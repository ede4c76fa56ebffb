/**
 Message framing (slt-core/src/proto/framing.rs, slt-core/src/proto/message.rs) and the buffered TCP
 channel over it (slt-core/src/transport/tcp.rs). A message is identified by its type byte.
 */
module Framing {
  import opened Bytes

  const HEADER_LEN: nat := 5
  const DATA: Byte := 0x0a
  const U32_LIMIT: nat := 0x1_0000_0000

  type MessageType = b: Byte | 0x01 <= b <= 0x12 witness 0x01

  datatype Message = Message(ty: MessageType, payload: seq<Byte>)

  datatype MessageLimits = MessageLimits(maxFrameLen: nat, maxDataLen: nat)

  datatype MessageError =
    | UnknownType(ty: Byte)
    | LengthTooLarge(len: nat, max: nat)
    | DataTooLarge(len: nat, max: nat)
    | LengthOverflow(len: nat)

  // ----- One frame

  function DecodeFrame(buf: seq<Byte>, maxLen: nat): (r: Result<Option<(Message, nat)>, MessageError>)
    ensures r.Ok? && r.value.Some? ==> HEADER_LEN <= r.value.value.1 <= |buf|
  {
    if |buf| < HEADER_LEN then Ok(None)
    else if !(0x01 <= buf[0] <= 0x12) then Err(UnknownType(buf[0]))
    else
      var len := U32(buf[1], buf[2], buf[3], buf[4]);
      if len > maxLen then Err(LengthTooLarge(len, maxLen))
      else if |buf| < HEADER_LEN + len then Ok(None)
      else Ok(Some((Message(buf[0], buf[HEADER_LEN..HEADER_LEN + len]), HEADER_LEN + len)))
  }

  function DecodeMessage(buf: seq<Byte>, limits: MessageLimits): (r: Result<Option<(Message, nat)>, MessageError>)
    ensures r.Ok? && r.value.Some? ==> HEADER_LEN <= r.value.value.1 <= |buf|
  {
    var r := DecodeFrame(buf, limits.maxFrameLen);
    if r.Err? || r.value.None? then r
    else
      var m := r.value.value.0;
      if m.ty == DATA && |m.payload| > limits.maxDataLen then Err(DataTooLarge(|m.payload|, limits.maxDataLen)) else r
  }

  /** Type and length; a length that does not fit its field is never encoded. */
  function Header(ty: MessageType, len: nat): seq<Byte> {
    var high := len / 0x100;
    var higher := high / 0x100;
    [ty, higher / 0x100 % 0x100, higher % 0x100, high % 0x100, len % 0x100]
  }

  function Encode(m: Message): seq<Byte> {
    Header(m.ty, |m.payload|) + m.payload
  }

  predicate Admissible(m: Message, limits: MessageLimits) {
    && |m.payload| < U32_LIMIT
    && |m.payload| <= limits.maxFrameLen
    && (m.ty == DATA ==> |m.payload| <= limits.maxDataLen)
  }

  ghost predicate AllAdmissible(ms: seq<Message>, limits: MessageLimits) {
    forall i :: 0 <= i < |ms| ==> Admissible(ms[i], limits)
  }

  /** Reading back a frame at the front of any bytes gives the message, if the limits admit it. */
  lemma DecodeEncode(m: Message, tail: seq<Byte>, limits: MessageLimits)
    requires |m.payload| < U32_LIMIT
    ensures DecodeMessage(Encode(m) + tail, limits) ==
              if |m.payload| > limits.maxFrameLen then Err(LengthTooLarge(|m.payload|, limits.maxFrameLen))
              else if !Admissible(m, limits) then Err(DataTooLarge(|m.payload|, limits.maxDataLen))
              else Ok(Some((m, |Encode(m)|)))
  {
    var buf := Encode(m) + tail;
    LengthField(m.ty, |m.payload|);
    assert buf[..HEADER_LEN] == Header(m.ty, |m.payload|);
    assert buf[0] == m.ty && U32(buf[1], buf[2], buf[3], buf[4]) == |m.payload|;
    assert buf[HEADER_LEN..HEADER_LEN + |m.payload|] == m.payload;
  }

  /** A frame of unknown type or excessive length is refused at its header, whatever follows. */
  lemma RefusedAtHeader(ty: Byte, len: nat, tail: seq<Byte>, limits: MessageLimits)
    requires len < U32_LIMIT
    ensures var known := 0x01 <= ty <= 0x12;
            var buf := [ty] + Header(0x01, len)[1..] + tail;
            && (!known ==> DecodeMessage(buf, limits) == Err(UnknownType(ty)))
            && (known && len > limits.maxFrameLen ==>
                  DecodeMessage(buf, limits) == Err(LengthTooLarge(len, limits.maxFrameLen)))
  {
    LengthField(0x01, len);
    var h := Header(0x01, len);
    var buf := [ty] + h[1..] + tail;
    assert forall i :: 1 <= i < HEADER_LEN ==> buf[i] == h[i];
  }

  /** The frame on the wire: the type, four length bytes with the most significant first, the payload. */
  lemma FrameFormat(m: Message)
    requires |m.payload| < 0x1_0000_0000
    ensures var e := Encode(m);
            && |e| == 5 + |m.payload| && e[0] == m.ty && e[5..] == m.payload
            && |m.payload| == (((e[1] as int) * 256 + e[2] as int) * 256 + e[3] as int) * 256 + e[4] as int
  {
    LengthField(m.ty, |m.payload|);
  }

  /** The data limit is for messages of type 0x0a and for no others. */
  lemma DataLimit(ty: MessageType, payload: seq<Byte>, tail: seq<Byte>, limits: MessageLimits)
    requires |payload| < 0x1_0000_0000 && limits.maxDataLen < |payload| <= limits.maxFrameLen
    ensures DecodeMessage(Encode(Message(ty, payload)) + tail, limits) ==
              if ty == 0x0a then Err(DataTooLarge(|payload|, limits.maxDataLen))
              else Ok(Some((Message(ty, payload), 5 + |payload|)))
  {
    DecodeEncode(Message(ty, payload), tail, limits);
  }

  lemma LengthField(ty: MessageType, len: nat)
    requires len < U32_LIMIT
    ensures var h := Header(ty, len); U32(h[1], h[2], h[3], h[4]) == len
  {
  }

  /** What decodes is the frame of what it decodes to: there is one encoding per message. */
  lemma EncodeDecode(buf: seq<Byte>, limits: MessageLimits)
    requires DecodeMessage(buf, limits).Ok? && DecodeMessage(buf, limits).value.Some?
    ensures var (m, n) := DecodeMessage(buf, limits).value.value;
            Admissible(m, limits) && |Encode(m)| == n && buf[..n] == Encode(m)
  {
    var (m, n) := DecodeMessage(buf, limits).value.value;
    HeaderBytes(buf[0], buf[1], buf[2], buf[3], buf[4]);
    assert buf[..n] == buf[..HEADER_LEN] + buf[HEADER_LEN..n];
  }

  lemma HeaderBytes(ty: MessageType, a: Byte, b: Byte, c: Byte, d: Byte)
    ensures U32(a, b, c, d) < U32_LIMIT && Header(ty, U32(a, b, c, d)) == [ty, a, b, c, d]
  {
    var len := U32(a, b, c, d);
    var higher := a * 0x100 + b;
    var high := higher * 0x100 + c;
    assert len == high * 0x100 + d;
    assert len / 0x100 == high && len % 0x100 == d;
    assert high / 0x100 == higher && high % 0x100 == c;
    assert higher / 0x100 == a && higher % 0x100 == b;
  }

  /** A decoding result that is not "need more" does not change when more bytes arrive. */
  lemma DecodeStable(buf: seq<Byte>, more: seq<Byte>, limits: MessageLimits)
    requires DecodeMessage(buf, limits) != Ok(None)
    ensures DecodeMessage(buf + more, limits) == DecodeMessage(buf, limits)
  {
    var whole := buf + more;
    assert forall i :: 0 <= i < HEADER_LEN ==> whole[i] == buf[i];
    var len := U32(buf[1], buf[2], buf[3], buf[4]);
    if HEADER_LEN + len <= |buf| {
      assert whole[HEADER_LEN..HEADER_LEN + len] == buf[HEADER_LEN..HEADER_LEN + len];
    }
  }

  /**
   A buffer needs more exactly if it is shorter than a header or the beginning of a frame within the
   limit. Only in the first four bytes is an unknown type or an excessive length not yet noticed.
   */
  lemma NeedsMoreExactly(buf: seq<Byte>, maxLen: nat)
    ensures DecodeFrame(buf, maxLen) == Ok(None)
       <==> || |buf| < HEADER_LEN
            || exists m: Message :: |m.payload| <= maxLen && |m.payload| < U32_LIMIT && buf < Encode(m)
  {
    if HEADER_LEN <= |buf| {
      if DecodeFrame(buf, maxLen) == Ok(None) {
        var len := U32(buf[1], buf[2], buf[3], buf[4]);
        var m := Message(buf[0], buf[HEADER_LEN..] + seq(HEADER_LEN + len - |buf|, _ => 0));
        HeaderBytes(buf[0], buf[1], buf[2], buf[3], buf[4]);
        assert |m.payload| == len && Header(m.ty, len) == buf[..HEADER_LEN];
        assert buf < Encode(m);
      }
      if m: Message :| |m.payload| <= maxLen && |m.payload| < U32_LIMIT && buf < Encode(m) {
        PrefixNeedsMore(buf, m, maxLen);
      }
    }
  }

  lemma PrefixNeedsMore(buf: seq<Byte>, m: Message, maxLen: nat)
    requires HEADER_LEN <= |buf| && |m.payload| <= maxLen && |m.payload| < U32_LIMIT && buf < Encode(m)
    ensures DecodeFrame(buf, maxLen) == Ok(None)
  {
    hide Header;
    LengthField(m.ty, |m.payload|);
    HeaderShape(m.ty, |m.payload|);
    var h := Header(m.ty, |m.payload|);
    assert forall i :: 0 <= i < HEADER_LEN ==> buf[i] == Encode(m)[i] == h[i];
  }

  lemma HeaderShape(ty: MessageType, len: nat)
    ensures |Header(ty, len)| == HEADER_LEN && Header(ty, len)[0] == ty
  {
  }

  // ----- Streams

  /** The messages at the front of a stream, what is left, and the error that stopped it. */
  datatype Parsed = Parsed(messages: seq<Message>, rest: seq<Byte>, error: Option<MessageError>)

  function Parse(buf: seq<Byte>, limits: MessageLimits): Parsed
    decreases |buf|
  {
    match DecodeMessage(buf, limits)
    case Err(e) => Parsed([], buf, Some(e))
    case Ok(None) => Parsed([], buf, None)
    case Ok(Some(p)) =>
      Then([p.0], Parse(buf[p.1..], limits))
  }

  function EncodeAll(ms: seq<Message>): seq<Byte> {
    if ms == [] then [] else Encode(ms[0]) + EncodeAll(ms[1..])
  }

  /** Parsing in two goes, keeping the rest between them, is parsing at once. */
  lemma {:induction false} ParseMore(buf: seq<Byte>, more: seq<Byte>, limits: MessageLimits)
    ensures var p := Parse(buf, limits);
            Parse(buf + more, limits) ==
              if p.error.Some? then p.(rest := p.rest + more) else Then(p.messages, Parse(p.rest + more, limits))
    decreases |buf|
  {
    hide DecodeMessage;
    var d := DecodeMessage(buf, limits);
    if d != Ok(None) {
      DecodeStable(buf, more, limits);
      if d.Ok? {
        var n := d.value.value.1;
        assert (buf + more)[n..] == buf[n..] + more;
        ParseMore(buf[n..], more, limits);
        var p := Parse(buf[n..], limits);
        ThenThen(d.value.value.0, p.messages, Parse(p.rest + more, limits));
      }
    }
  }

  function Then(ms: seq<Message>, later: Parsed): Parsed {
    later.(messages := ms + later.messages)
  }

  lemma ThenThen(m: Message, ms: seq<Message>, later: Parsed)
    ensures Then([m], Then(ms, later)) == Then([m] + ms, later)
    ensures Then([], later) == later
  {
    assert [m] + (ms + later.messages) == ([m] + ms) + later.messages;
  }

  /** Reading chunk by chunk, draining after each, stopping at the first error. */
  function Feed(buf: seq<Byte>, chunks: seq<seq<Byte>>, limits: MessageLimits): Parsed
    decreases |chunks|
  {
    var p := Parse(buf, limits);
    if chunks == [] then p
    else if p.error.Some? then p.(rest := p.rest + Concat(chunks))
    else
      Then(p.messages, Feed(p.rest + chunks[0], chunks[1..], limits))
  }

  /** However the stream is chunked, the messages, the error and the unread bytes are the same. */
  lemma {:induction false} ChunkingIndependent(buf: seq<Byte>, chunks: seq<seq<Byte>>, limits: MessageLimits)
    ensures Feed(buf, chunks, limits) == Parse(buf + Concat(chunks), limits)
    decreases |chunks|
  {
    hide Parse;
    ParseMore(buf, Concat(chunks), limits);
    var p := Parse(buf, limits);
    if chunks == [] {
      assert buf + Concat(chunks) == buf;
    } else if p.error.None? {
      ChunkingIndependent(p.rest + chunks[0], chunks[1..], limits);
      assert p.rest + Concat(chunks) == (p.rest + chunks[0]) + Concat(chunks[1..]);
    }
  }

  /** The stream is the frames of the messages followed by the unread bytes, which are less than a frame. */
  lemma {:induction false} ParseExactly(buf: seq<Byte>, limits: MessageLimits)
    ensures var p := Parse(buf, limits);
            && AllAdmissible(p.messages, limits)
            && buf == EncodeAll(p.messages) + p.rest
            && (p.error.None? ==> DecodeMessage(p.rest, limits) == Ok(None))
            && (p.error.None? ==> |p.rest| < HEADER_LEN + limits.maxFrameLen)
            && (p.error.Some? ==> DecodeMessage(p.rest, limits) == Err(p.error.value))
    decreases |buf|
  {
    hide Encode, Admissible, AllAdmissible, DecodeMessage;
    var d := DecodeMessage(buf, limits);
    if d.Ok? && d.value.Some? {
      var n := d.value.value.1;
      EncodeDecode(buf, limits);
      ParseExactly(buf[n..], limits);
      assert buf == buf[..n] + buf[n..];
      ConsedFrames(d.value.value.0, Parse(buf[n..], limits), limits);
    } else {
      assert EncodeAll([]) + buf == buf;
      NoneAdmissible(limits);
      NeedsMore(buf, limits);
    }
  }

  lemma NeedsMore(buf: seq<Byte>, limits: MessageLimits)
    ensures DecodeMessage(buf, limits) == Ok(None) ==> |buf| < HEADER_LEN + limits.maxFrameLen
  {
  }

  lemma NoneAdmissible(limits: MessageLimits)
    ensures AllAdmissible([], limits)
  {
  }

  lemma ConsedFrames(m: Message, p: Parsed, limits: MessageLimits)
    requires Admissible(m, limits) && AllAdmissible(p.messages, limits)
    ensures AllAdmissible([m] + p.messages, limits)
    ensures EncodeAll([m] + p.messages) + p.rest == Encode(m) + (EncodeAll(p.messages) + p.rest)
  {
    assert ([m] + p.messages)[1..] == p.messages;
  }

  /**
   Admissible messages written to a stream and followed by an incomplete frame come out the other
   end, in whatever chunks the stream is read.
   */
  lemma StreamRoundTrip(ms: seq<Message>, tail: seq<Byte>, chunks: seq<seq<Byte>>, limits: MessageLimits)
    requires AllAdmissible(ms, limits)
    requires DecodeMessage(tail, limits) == Ok(None) && Concat(chunks) == EncodeAll(ms) + tail
    ensures Feed([], chunks, limits) == Parsed(ms, tail, None)
  {
    ChunkingIndependent([], chunks, limits);
    assert [] + Concat(chunks) == EncodeAll(ms) + tail;
    ParseFrames(ms, tail, limits);
  }

  lemma ParseOne(m: Message, later: seq<Byte>, limits: MessageLimits)
    requires Admissible(m, limits)
    ensures Parse(Encode(m) + later, limits) == Then([m], Parse(later, limits))
  {
    hide DecodeMessage, Encode;
    DecodeEncode(m, later, limits);
    assert (Encode(m) + later)[|Encode(m)|..] == later;
  }

  lemma ParseNone(tail: seq<Byte>, limits: MessageLimits)
    requires DecodeMessage(tail, limits) == Ok(None)
    ensures Parse(tail, limits) == Parsed([], tail, None)
  {
  }

  lemma {:induction false} ParseFrames(ms: seq<Message>, tail: seq<Byte>, limits: MessageLimits)
    requires AllAdmissible(ms, limits)
    requires DecodeMessage(tail, limits) == Ok(None)
    ensures Parse(EncodeAll(ms) + tail, limits) == Parsed(ms, tail, None)
    decreases |ms|
  {
    hide DecodeMessage, Encode, Parse;
    if ms == [] {
      assert EncodeAll(ms) + tail == tail;
      ParseNone(tail, limits);
    } else {
      var later := EncodeAll(ms[1..]) + tail;
      assert EncodeAll(ms) + tail == Encode(ms[0]) + later;
      ParseOne(ms[0], later, limits);
      ParseFrames(ms[1..], tail, limits);
      assert ms == [ms[0]] + ms[1..];
    }
  }

  // ----- The channel

  datatype WriteError = Frame(error: MessageError) | Io

  /** Requests a TLS key update before every `interval`-th outbound message. */
  class IntervalKeyUpdater {
    const interval: nat
    var untilUpdate: nat
    /** Messages let through and updates requested so far. */
    ghost var messages: nat
    ghost var updates: nat

    ghost predicate Valid()
      reads this
    {
      0 < interval && 1 <= untilUpdate <= interval && messages == updates * interval + (interval - untilUpdate)
    }

    constructor (interval: nat)
      requires 0 < interval
      ensures Valid() && this.interval == interval && messages == updates == 0
    {
      this.interval, untilUpdate := interval, interval;
      messages, updates := 0, 0;
    }

    /** The next message is the one an update is due for. */
    ghost predicate Due()
      reads this
    {
      messages + 1 == (updates + 1) * interval
    }

    /**
     Lets the message through unless an update is due and cannot be requested; the count of updates
     stays the number of whole intervals passed.
     */
    method MaybeRequestKeyUpdate(ok: bool) returns (r: bool)
      requires Valid()
      modifies this
      ensures Valid() && (r <==> ok || !old(Due()))
      ensures !r ==> messages == old(messages) && updates == old(updates)
      ensures r ==> messages == old(messages) + 1 && updates == old(updates) + if old(Due()) then 1 else 0
      ensures updates * interval <= messages < (updates + 1) * interval
    {
      NextMultiple(updates, interval);
      if untilUpdate > 1 {
        untilUpdate := untilUpdate - 1;
        messages := messages + 1;
        return true;
      }
      if !ok {
        return false;
      }
      untilUpdate := interval;
      messages := messages + 1;
      updates := updates + 1;
      NextMultiple(updates, interval);
      return true;
    }
  }

  lemma NextMultiple(n: nat, k: nat)
    ensures (n + 1) * k == n * k + k
  {
  }

  class TcpChannel {
    var readBuf: seq<Byte>
    var writeBuf: seq<Byte>
    const keyUpdater: IntervalKeyUpdater
    /** Plaintext handed to the TLS stream. */
    var written: seq<Byte>

    constructor (readBuf: seq<Byte>, keyUpdater: IntervalKeyUpdater)
      ensures this.readBuf == readBuf && this.keyUpdater == keyUpdater && written == []
    {
      this.readBuf, this.keyUpdater := readBuf, keyUpdater;
      writeBuf, written := [], [];
    }

    method ReadMore(chunk: seq<Byte>)
      modifies this`readBuf
      ensures readBuf == old(readBuf) + chunk
    {
      readBuf := readBuf + chunk;
    }

    /** Takes exactly what decoding the buffer takes; on an error or a partial frame the buffer stays. */
    method TryPopMessage(limits: MessageLimits) returns (r: Result<Option<Message>, MessageError>)
      modifies this`readBuf
      ensures match DecodeMessage(old(readBuf), limits)
              case Err(e) => r == Err(e) && readBuf == old(readBuf)
              case Ok(None) => r == Ok(None) && readBuf == old(readBuf)
              case Ok(Some(p)) => r == Ok(Some(p.0)) && readBuf == old(readBuf)[p.1..]
    {
      var frame := DecodeFrame(readBuf, limits.maxFrameLen);
      if frame.Err? {
        return Err(frame.error);
      }
      if frame.value.None? {
        return Ok(None);
      }
      var (m, consumed) := frame.value.value;
      if m.ty == DATA && |m.payload| > limits.maxDataLen {
        return Err(DataTooLarge(|m.payload|, limits.maxDataLen));
      }
      var buf := readBuf[..consumed];
      readBuf := readBuf[consumed..];
      return Ok(Some(Message(m.ty, buf[HEADER_LEN..])));
    }

    /** A caller's drain loop: pops until the buffer needs more or is refused. */
    method Drain(limits: MessageLimits) returns (messages: seq<Message>, error: Option<MessageError>)
      modifies this`readBuf
      ensures Parsed(messages, readBuf, error) == Parse(old(readBuf), limits)
    {
      hide DecodeMessage;
      messages := [];
      var r := TryPopMessage(limits);
      while r.Ok? && r.value.Some?
        invariant r.Ok? && r.value.Some? ==>
          Then(messages + [r.value.value], Parse(readBuf, limits)) == Parse(old(readBuf), limits)
        invariant !(r.Ok? && r.value.Some?) ==>
          Parsed(messages, readBuf, if r.Err? then Some(r.error) else None) == Parse(old(readBuf), limits)
        decreases r.Ok? && r.value.Some?, |readBuf|
      {
        messages := messages + [r.value.value];
        r := TryPopMessage(limits);
      }
      error := if r.Err? then Some(r.error) else None;
    }

    /**
     `keyOk` and `taken` are the answers of TLS: whether a key update can be requested, and how many bytes
     it takes before it fails. Only whole frames are reported as written; a failed write leaves the
     beginning of one on the stream.
     */
    method WriteMessage(m: Message, keyOk: bool, taken: nat) returns (r: Result<(), WriteError>)
      requires keyUpdater.Valid()
      modifies this`writeBuf, this`written, keyUpdater
      ensures keyUpdater.Valid()
      ensures r ==
        if old(keyUpdater.Due()) && !keyOk then Err(Io)
        else if |m.payload| >= U32_LIMIT then Err(Frame(LengthOverflow(|m.payload|)))
        else if taken < |Encode(m)| then Err(Io)
        else Ok(())
      ensures r.Ok? ==> written == old(written) + Encode(m)
      ensures r.Err? ==>
        var begun := r.error.Io? && |m.payload| < U32_LIMIT && (keyOk || !old(keyUpdater.Due()));
        written == old(written) + if begun then Encode(m)[..taken] else []
    {
      var updated := keyUpdater.MaybeRequestKeyUpdate(keyOk);
      if !updated {
        return Err(Io);
      }
      writeBuf := [];
      if |m.payload| >= U32_LIMIT {
        return Err(Frame(LengthOverflow(|m.payload|)));
      }
      writeBuf := writeBuf + Header(m.ty, |m.payload|);
      writeBuf := writeBuf + m.payload;
      if taken < |writeBuf| {
        written := written + writeBuf[..taken];
        return Err(Io);
      }
      written := written + writeBuf;
      return Ok(());
    }
  }
}
