/**
 The SLT claim token carried in the `legacy_session_id` of a TLS ClientHello
 (slt-core/src/crypto/client_hello.rs).

 A token is 32 bytes: a candidate tag over a prefix of `random`, then a claim tag over
 the whole message with the session id zeroed. The keyed and truncated HMAC is a
 parameter `mac`; `None` stands for an HMAC failure.
 */
module ClientHello {
  import opened Bytes

  const HANDSHAKE_TYPE_CLIENT_HELLO: Byte := 0x01
  const LEGACY_SESSION_ID_LEN: nat := 32
  const TOKEN_PART_LEN: nat := 16
  const RANDOM_PREFIX_LEN: nat := 16
  const MAX_TCP_CLIENT_HELLO_WIRE_LEN: nat := 8192

  // "slt-tcp-candidate-v2" and "slt-tcp-claim-v2" in ASCII
  const CANDIDATE_LABEL: seq<Byte> :=
    [115, 108, 116, 45, 116, 99, 112, 45, 99, 97, 110, 100, 105, 100, 97, 116, 101, 45, 118, 50]
  const CLAIM_LABEL: seq<Byte> :=
    [115, 108, 116, 45, 116, 99, 112, 45, 99, 108, 97, 105, 109, 45, 118, 50]

  type Tag = t: seq<Byte> | |t| == 16 witness seq(16, i => 0)

  type Mac = seq<Byte> -> Option<Tag>

  datatype Malformed =
    | MissingHeader | NotClientHello | LengthMismatch | MissingRandom
    | MissingSessionIdLen | SessionIdNot32 | TruncatedSessionId

  datatype ClientHelloError =
    | InvalidSessionIdLength(expected: nat, actual: nat)
    | MalformedClientHello(reason: Malformed)
    | HmacFailed

  datatype ClientHelloLayout = ClientHelloLayout(random: seq<Byte>, sessionIdStart: nat)

  /** Exactly one ClientHello handshake message with a 32-byte session id. */
  predicate WellFormed(hello: seq<Byte>) {
    && 71 <= |hello|
    && hello[0] == HANDSHAKE_TYPE_CLIENT_HELLO
    && |hello| == 4 + U24(hello[1], hello[2], hello[3])
    && hello[38] == LEGACY_SESSION_ID_LEN
  }

  function Layout(hello: seq<Byte>): (r: Result<ClientHelloLayout, ClientHelloError>)
    ensures r.Ok? <==> WellFormed(hello)
    ensures r.Ok? <==>
      && 71 <= |hello| == 4 + (hello[1] as int) * 65536 + (hello[2] as int) * 256 + hello[3] as int
      && hello[0] == 1 && hello[38] == 32
    ensures r.Ok? ==> r.value == ClientHelloLayout(hello[6..38], 39)
  {
    if |hello| < 4 then Err(MalformedClientHello(MissingHeader))
    else if hello[0] != HANDSHAKE_TYPE_CLIENT_HELLO then Err(MalformedClientHello(NotClientHello))
    else if |hello| != 4 + U24(hello[1], hello[2], hello[3]) then Err(MalformedClientHello(LengthMismatch))
    else
      var randomStart := 4 + 2;
      var randomEnd := randomStart + 32;
      if |hello| < randomEnd then Err(MalformedClientHello(MissingRandom))
      else if |hello| <= randomEnd then Err(MalformedClientHello(MissingSessionIdLen))
      else if hello[randomEnd] != LEGACY_SESSION_ID_LEN then Err(MalformedClientHello(SessionIdNot32))
      else if |hello| < randomEnd + 1 + LEGACY_SESSION_ID_LEN then Err(MalformedClientHello(TruncatedSessionId))
      else Ok(ClientHelloLayout(hello[randomStart..randomEnd], randomEnd + 1))
  }

  /** The header of a ClientHello message of this length. */
  predicate HeaderOk(hello: seq<Byte>) {
    && 4 <= |hello| && hello[0] == 1
    && |hello| == 4 + (hello[1] as int) * 65536 + (hello[2] as int) * 256 + hello[3] as int
  }

  /** Every malformed hello is refused for its first defect, in the order of the message. */
  lemma MalformedExactly(hello: seq<Byte>, why: Malformed)
    ensures Layout(hello) == Err(MalformedClientHello(why))
       <==> match why
            case MissingHeader => |hello| < 4
            case NotClientHello => 4 <= |hello| && hello[0] != 1
            case LengthMismatch => 4 <= |hello| && hello[0] == 1 && !HeaderOk(hello)
            case MissingRandom => HeaderOk(hello) && |hello| < 38
            case MissingSessionIdLen => HeaderOk(hello) && |hello| == 38
            case SessionIdNot32 => HeaderOk(hello) && 39 <= |hello| && hello[38] != 32
            case TruncatedSessionId => HeaderOk(hello) && 39 <= |hello| < 71 && hello[38] == 32
  {
  }

  function CandidateTag(random: seq<Byte>, mac: Mac): Option<Tag>
    requires |random| == 32
  {
    mac(CANDIDATE_LABEL + random[..RANDOM_PREFIX_LEN])
  }

  function ZeroSessionId(): seq<Byte> {
    seq(LEGACY_SESSION_ID_LEN, i => 0)
  }

  function ClaimTag(hello: seq<Byte>, sessionIdStart: nat, mac: Mac): Option<Tag>
    requires sessionIdStart + LEGACY_SESSION_ID_LEN <= |hello|
  {
    mac(CLAIM_LABEL + hello[..sessionIdStart] + ZeroSessionId() + hello[sessionIdStart + LEGACY_SESSION_ID_LEN..])
  }

  function Verify(hello: seq<Byte>, mac: Mac): Result<bool, ClientHelloError> {
    match Layout(hello)
    case Err(e) => Err(e)
    case Ok(layout) =>
      var sessionId := hello[layout.sessionIdStart..layout.sessionIdStart + LEGACY_SESSION_ID_LEN];
      var candidate := CandidateTag(layout.random, mac);
      if candidate.None? then Err(HmacFailed) else
      var claim := ClaimTag(hello, layout.sessionIdStart, mac);
      if claim.None? then Err(HmacFailed) else
      Ok(sessionId[..TOKEN_PART_LEN] == candidate.value && sessionId[TOKEN_PART_LEN..] == claim.value)
  }

  /** What filling a session-id buffer leaves in it, or why it fails. */
  function Filled(hello: seq<Byte>, sessionId: seq<Byte>, mac: Mac): (r: Result<seq<Byte>, ClientHelloError>)
    ensures r.Ok? ==> |sessionId| == LEGACY_SESSION_ID_LEN && WellFormed(hello) && |r.value| == LEGACY_SESSION_ID_LEN
  {
    if |sessionId| != LEGACY_SESSION_ID_LEN then
      Err(InvalidSessionIdLength(LEGACY_SESSION_ID_LEN, |sessionId|))
    else
      match Layout(hello)
      case Err(e) => Err(e)
      case Ok(layout) =>
        var candidate := CandidateTag(layout.random, mac);
        if candidate.None? then Err(HmacFailed)
        else if sessionId[..TOKEN_PART_LEN] == candidate.value then Ok(sessionId)
        else
          var claim := ClaimTag(hello, layout.sessionIdStart, mac);
          if claim.None? then Err(HmacFailed) else Ok(candidate.value + claim.value)
  }

  /** Fill the session-id buffer in place; the buffer is untouched on every error. */
  method FillLegacySessionId(hello: seq<Byte>, sessionId: array<Byte>, mac: Mac)
    returns (r: Result<(), ClientHelloError>)
    modifies sessionId
    ensures match Filled(hello, old(sessionId[..]), mac)
            case Ok(token) => r == Ok(()) && sessionId[..] == token
            case Err(e) => r == Err(e) && sessionId[..] == old(sessionId[..])
  {
    if sessionId.Length != LEGACY_SESSION_ID_LEN {
      return Err(InvalidSessionIdLength(LEGACY_SESSION_ID_LEN, sessionId.Length));
    }
    var layout := Layout(hello);
    if layout.Err? {
      return Err(layout.error);
    }
    var candidate := CandidateTag(layout.value.random, mac);
    if candidate.None? {
      return Err(HmacFailed);
    }
    if sessionId[..TOKEN_PART_LEN] == candidate.value {
      return Ok(());
    }
    var claim := ClaimTag(hello, layout.value.sessionIdStart, mac);
    if claim.None? {
      return Err(HmacFailed);
    }
    forall i | 0 <= i < TOKEN_PART_LEN {
      sessionId[i] := candidate.value[i];
    }
    forall i | 0 <= i < TOKEN_PART_LEN {
      sessionId[TOKEN_PART_LEN + i] := claim.value[i];
    }
    assert sessionId[..] == candidate.value + claim.value;
    return Ok(());
  }

  /** The message with its 32 session-id bytes replaced. */
  function WithSessionId(hello: seq<Byte>, sessionId: seq<Byte>): (r: seq<Byte>)
    requires WellFormed(hello) && |sessionId| == LEGACY_SESSION_ID_LEN
    ensures WellFormed(r) && |r| == |hello|
    ensures r[..39] == hello[..39] && r[39..71] == sessionId && r[71..] == hello[71..]
  {
    hello[..39] + sessionId + hello[71..]
  }

  /** A message verifies exactly when it is well formed and carries both tags of its own contents. */
  lemma VerifyExactly(hello: seq<Byte>, mac: Mac)
    ensures Verify(hello, mac) == Ok(true)
       <==> && WellFormed(hello)
            && CandidateTag(hello[6..38], mac) == Some(hello[39..55])
            && ClaimTag(hello, 39, mac) == Some(hello[55..71])
  {
    if WellFormed(hello) {
      var sessionId := hello[39..71];
      assert sessionId[..16] == hello[39..55];
      assert sessionId[16..] == hello[55..71];
    }
  }

  /** The tags never depend on the session-id bytes they are stored in. */
  lemma TagsIgnoreSessionId(hello: seq<Byte>, sessionId: seq<Byte>, mac: Mac)
    requires WellFormed(hello) && |sessionId| == LEGACY_SESSION_ID_LEN
    ensures ClaimTag(WithSessionId(hello, sessionId), 39, mac) == ClaimTag(hello, 39, mac)
    ensures CandidateTag(WithSessionId(hello, sessionId)[6..38], mac) == CandidateTag(hello[6..38], mac)
  {
    var sealed := WithSessionId(hello, sessionId);
    assert sealed[6..38] == sealed[..39][6..38] == hello[..39][6..38] == hello[6..38];
  }

  /**
   A filled token placed in its message verifies, except on the retained-token path, where it
   verifies exactly when the retained second half is still the claim tag of this message.
   */
  lemma SealVerifies(hello: seq<Byte>, sessionId: seq<Byte>, mac: Mac)
    requires Filled(hello, sessionId, mac).Ok?
    ensures Verify(WithSessionId(hello, Filled(hello, sessionId, mac).value), mac) == Ok(true)
       <==> || CandidateTag(hello[6..38], mac) != Some(sessionId[..16])
            || ClaimTag(hello, 39, mac) == Some(sessionId[16..])
  {
    var token := Filled(hello, sessionId, mac).value;
    var sealed := WithSessionId(hello, token);
    TagsIgnoreSessionId(hello, token, mac);
    VerifyExactly(sealed, mac);
    assert sealed[39..55] == sealed[39..71][..16] == token[..16];
    assert sealed[55..71] == sealed[39..71][16..] == token[16..];
    if CandidateTag(hello[6..38], mac) != Some(sessionId[..16]) {
      var candidate: seq<Byte> := CandidateTag(hello[6..38], mac).value;
      var claim: seq<Byte> := ClaimTag(hello, 39, mac).value;
      assert token == candidate + claim && token[..16] == candidate && token[16..] == claim;
    }
  }

  /**
   HelloRetryRequest: filling again keeps the first token as long as the second message repeats
   the 16 leading random bytes, whatever else changed.
   */
  lemma RefillKeepsToken(first: seq<Byte>, second: seq<Byte>, sessionId: seq<Byte>, mac: Mac)
    requires Filled(first, sessionId, mac).Ok?
    requires WellFormed(second) && second[6..22] == first[6..22]
    ensures Filled(second, Filled(first, sessionId, mac).value, mac) == Filled(first, sessionId, mac)
  {
    var token := Filled(first, sessionId, mac).value;
    assert first[6..38][..16] == first[6..22];
    assert second[6..38][..16] == second[6..22];
    var candidate := CandidateTag(first[6..38], mac);
    assert token[..16] == candidate.value;
  }

  /**
   So a second message that changes what the claim tag covers does not verify: it keeps the first token,
   and with it the claim tag of the first message.
   */
  lemma RetriedHelloUnverified(first: seq<Byte>, second: seq<Byte>, sessionId: seq<Byte>, mac: Mac)
    requires Filled(first, sessionId, mac).Ok? && CandidateTag(first[6..38], mac) != Some(sessionId[..16])
    requires WellFormed(second) && second[6..22] == first[6..22]
    ensures Filled(second, Filled(first, sessionId, mac).value, mac).Ok?
    ensures var token := Filled(second, Filled(first, sessionId, mac).value, mac).value;
            && (Verify(WithSessionId(second, token), mac) == Ok(true)
                <==> ClaimTag(second, 39, mac) == ClaimTag(first, 39, mac))
  {
    var token := Filled(first, sessionId, mac).value;
    RefillKeepsToken(first, second, sessionId, mac);
    SealVerifies(second, token, mac);
    assert first[6..38][..16] == first[6..22] && second[6..38][..16] == second[6..22];
    var candidate: seq<Byte> := CandidateTag(first[6..38], mac).value;
    var claim: seq<Byte> := ClaimTag(first, 39, mac).value;
    assert token == candidate + claim && token[..16] == candidate && token[16..] == claim;
  }

  // ----- What a token covers

  lemma LabelsAsText()
    ensures |CANDIDATE_LABEL| == |"slt-tcp-candidate-v2"| && |CLAIM_LABEL| == |"slt-tcp-claim-v2"|
    ensures forall i :: 0 <= i < |CANDIDATE_LABEL| ==> CANDIDATE_LABEL[i] == "slt-tcp-candidate-v2"[i] as int
    ensures forall i :: 0 <= i < |CLAIM_LABEL| ==> CLAIM_LABEL[i] == "slt-tcp-claim-v2"[i] as int
  {
  }

  const ZEROS: Tag := seq(16, i => 0)
  const ONES: Tag := seq(16, i => 1)

  /** The two messages are the same apart from their session ids. */
  predicate SameOutside(a: seq<Byte>, b: seq<Byte>)
    requires WellFormed(a) && WellFormed(b)
  {
    a[..39] == b[..39] && a[71..] == b[71..]
  }

  function ClaimInput(hello: seq<Byte>): seq<Byte>
    requires WellFormed(hello)
  {
    CLAIM_LABEL + hello[..39] + ZeroSessionId() + hello[71..]
  }

  lemma ClaimInputsDiffer(a: seq<Byte>, b: seq<Byte>)
    requires WellFormed(a) && WellFormed(b) && ClaimInput(a) == ClaimInput(b)
    ensures SameOutside(a, b)
  {
    assert ClaimInput(a)[16..55] == a[..39] && ClaimInput(b)[16..55] == b[..39];
    assert ClaimInput(a)[87..] == a[71..] && ClaimInput(b)[87..] == b[71..];
  }

  /** A key that tells `input` from every other input of its kind, with candidate tags other than `avoid`. */
  function KeyFor(input: seq<Byte>, avoid: seq<Byte>): Mac {
    x => Some(if x == input then ZEROS
              else if |x| == 36 && avoid == ONES then ZEROS
              else ONES)
  }

  lemma KeyTags(hello: seq<Byte>, input: seq<Byte>, avoid: seq<Byte>)
    requires WellFormed(hello) && |input| != 36
    ensures var mac := KeyFor(input, avoid);
            && CandidateTag(hello[6..38], mac) == Some(if avoid == ONES then ZEROS else ONES)
            && ClaimTag(hello, 39, mac) == Some(if ClaimInput(hello) == input then ZEROS else ONES)
  {
    assert |CANDIDATE_LABEL + hello[6..38][..16]| == 36;
    assert |ClaimInput(hello)| > 36;
  }

  /** The token sealed for `a` verifies in `a` and, put into `b`, does not. */
  ghost predicate Separates(a: seq<Byte>, b: seq<Byte>, sessionId: seq<Byte>, mac: Mac)
    requires WellFormed(a) && WellFormed(b)
  {
    && Filled(a, sessionId, mac).Ok?
    && Verify(WithSessionId(a, Filled(a, sessionId, mac).value), mac) == Ok(true)
    && Verify(WithSessionId(b, Filled(a, sessionId, mac).value), mac) != Ok(true)
  }

  lemma KeyTells(a: seq<Byte>, b: seq<Byte>, sessionId: seq<Byte>)
    requires WellFormed(a) && WellFormed(b) && |sessionId| == 32 && !SameOutside(a, b)
    ensures Separates(a, b, sessionId, KeyFor(ClaimInput(a), sessionId[..16]))
  {
    hide Verify, ClaimTag, CandidateTag, ClaimInput;
    var mac := KeyFor(ClaimInput(a), sessionId[..16]);
    assert |ClaimInput(a)| != 36 by { ClaimInputLong(a); }
    KeyTags(a, ClaimInput(a), sessionId[..16]);
    KeyTags(b, ClaimInput(a), sessionId[..16]);
    if ClaimInput(a) == ClaimInput(b) {
      ClaimInputsDiffer(a, b);
    }
    SealVerifies(a, sessionId, mac);
    var token := Filled(a, sessionId, mac).value;
    var other := WithSessionId(b, token);
    TagsIgnoreSessionId(b, token, mac);
    VerifyExactly(other, mac);
    assert other[55..71] == other[39..71][16..] == token[16..];
    assert token[16..] == ZEROS && ZEROS[0] != ONES[0];
  }

  lemma ClaimInputLong(hello: seq<Byte>)
    requires WellFormed(hello)
    ensures |ClaimInput(hello)| > 36
  {
  }

  /**
   A token sealed for `a` is good for `b` under every key if and only if the two messages agree in every
   byte outside the session id: version, random, cipher suites and extensions are all covered.
   */
  lemma TokenBindsWholeHello(a: seq<Byte>, b: seq<Byte>, sessionId: seq<Byte>)
    requires WellFormed(a) && WellFormed(b) && |sessionId| == 32
    ensures SameOutside(a, b) <==> forall mac: Mac :: !Separates(a, b, sessionId, mac)
  {
    if SameOutside(a, b) {
      forall mac: Mac ensures !Separates(a, b, sessionId, mac) {
        if Filled(a, sessionId, mac).Ok? {
          assert WithSessionId(a, Filled(a, sessionId, mac).value) == WithSessionId(b, Filled(a, sessionId, mac).value);
        }
      }
    } else {
      KeyTells(a, b, sessionId);
    }
  }

  lemma CandidateHalfIs(hello: seq<Byte>, sessionId: seq<Byte>, mac: Mac)
    requires Filled(hello, sessionId, mac).Ok?
    ensures Some(Filled(hello, sessionId, mac).value[..16]) == CandidateTag(hello[6..38], mac)
  {
    var token := Filled(hello, sessionId, mac).value;
    if CandidateTag(hello[6..38], mac) != Some(sessionId[..16]) {
      var candidate: seq<Byte> := CandidateTag(hello[6..38], mac).value;
      var claim: seq<Byte> := ClaimTag(hello, 39, mac).value;
      assert (candidate + claim)[..16] == candidate;
    }
  }

  /**
   The first halves of two filled tokens are equal under every key if and only if the two messages have
   the same first 16 random bytes.
   */
  lemma CandidateBindsRandom(a: seq<Byte>, b: seq<Byte>, sessionId: seq<Byte>)
    requires WellFormed(a) && WellFormed(b) && |sessionId| == 32
    ensures a[6..22] == b[6..22]
       <==> forall mac: Mac :: Filled(a, sessionId, mac).Ok? && Filled(b, sessionId, mac).Ok? ==>
              Filled(a, sessionId, mac).value[..16] == Filled(b, sessionId, mac).value[..16]
  {
    assert a[6..38][..16] == a[6..22] && b[6..38][..16] == b[6..22];
    if a[6..22] == b[6..22] {
      forall mac: Mac | Filled(a, sessionId, mac).Ok? && Filled(b, sessionId, mac).Ok?
        ensures Filled(a, sessionId, mac).value[..16] == Filled(b, sessionId, mac).value[..16]
      {
        CandidateHalfIs(a, sessionId, mac);
        CandidateHalfIs(b, sessionId, mac);
      }
    } else {
      var input := CANDIDATE_LABEL + a[6..22];
      var mac: Mac := x => Some(if x == input then ZEROS else ONES);
      assert input[20..] == a[6..22] && (CANDIDATE_LABEL + b[6..22])[20..] == b[6..22];
      assert CandidateTag(a[6..38], mac) == Some(ZEROS) && CandidateTag(b[6..38], mac) == Some(ONES);
      CandidateHalfIs(a, sessionId, mac);
      CandidateHalfIs(b, sessionId, mac);
      assert ZEROS[0] != ONES[0];
    }
  }

  /** Filling fails for the first of these reasons that applies, and for no other. */
  lemma FillFailsExactly(hello: seq<Byte>, sessionId: seq<Byte>, mac: Mac)
    ensures match Filled(hello, sessionId, mac)
            case Err(InvalidSessionIdLength(expected, actual)) => actual == |sessionId| != expected == 32
            case Err(MalformedClientHello(_)) => |sessionId| == 32 && !WellFormed(hello)
            case Err(HmacFailed) =>
              && |sessionId| == 32 && WellFormed(hello)
              && (mac(CANDIDATE_LABEL + hello[6..22]).None? || mac(ClaimInput(hello)).None?)
            case Ok(_) => |sessionId| == 32 && WellFormed(hello) && mac(CANDIDATE_LABEL + hello[6..22]).Some?
  {
    if WellFormed(hello) {
      assert hello[6..38][..16] == hello[6..22];
    }
  }
}
