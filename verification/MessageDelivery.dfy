/**
 Messages over UDP-QSP: framing (slt-core/src/proto/message.rs) inside sealed packets
 (slt-core/src/crypto/udp_qsp/session.rs).
 */
module MessageDelivery {
  import opened Bytes
  import opened Framing
  import opened QspSession

  /** `decode_padded_message`: the first message and exactly its bytes. */
  function DecodePadded(buf: seq<Byte>, limits: MessageLimits): Result<Option<(Message, seq<Byte>)>, MessageError> {
    match DecodeMessage(buf, limits)
    case Err(e) => Err(e)
    case Ok(None) => Ok(None)
    case Ok(Some(p)) => Ok(Some((p.0, buf[..p.1])))
  }

  /** What is found is the frame at the front; whatever is wrong with it, or missing, is reported. */
  lemma PaddedExactly(buf: seq<Byte>, limits: MessageLimits)
    ensures match DecodePadded(buf, limits)
            case Ok(Some((m, frame))) => frame <= buf && frame == Encode(m)
            case Ok(None) => DecodeMessage(buf, limits) == Ok(None)
            case Err(e) => DecodeMessage(buf, limits) == Err(e)
  {
    if DecodeMessage(buf, limits).Ok? && DecodeMessage(buf, limits).value.Some? {
      EncodeDecode(buf, limits);
    }
  }

  /** An admissible frame is found whatever padding follows it. */
  lemma PaddingIgnored(m: Message, padding: seq<Byte>, limits: MessageLimits)
    requires Admissible(m, limits)
    ensures DecodePadded(Encode(m) + padding, limits) == Ok(Some((m, Encode(m))))
  {
    DecodeEncode(m, padding, limits);
    assert (Encode(m) + padding)[..|Encode(m)|] == Encode(m);
  }

  /** A message sealed into a packet comes out of any receiver that accepts the packet. */
  lemma MessageArrives(k: Ring, p: Packet, m: Message, limits: MessageLimits, deriveOk: bool, cloneOk: bool)
    requires Admissible(m, limits) && p.Sealed? && p.payload == Padded(Encode(m), p.pn)
    ensures var r := Reply(k, p, deriveOk, cloneOk);
            r.Ok? ==> DecodePadded(r.value.payload, limits) == Ok(Some((m, Encode(m))))
  {
    hide Reply;
    PayloadArrives(k, p, Encode(m), deriveOk, cloneOk);
    PaddingIgnored(m, [], limits);
    assert Encode(m) + [] == Encode(m);
  }
}
