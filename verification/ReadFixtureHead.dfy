/**
 The `ReadFixtureHead` wire codec of
 remediation/round37/stage_a_fixture/src/read_fixture_head_codec.cpp.
 */
module ReadFixtureHead {
  import opened Wrappers
  import opened Bytes

  const MAGIC: seq<byte> := [0x53, 0x31, 0x52, 0x48] // 'S' '1' 'R' 'H'
  const VERSION: uint16 := 1
  const REQUEST_KIND: uint16 := 0x0001
  const SUCCESS_KIND: uint16 := 0x8001
  const ERROR_KIND: uint16 := 0x8002
  const OPERATION: uint16 := 0x0001
  const PREFIX_BYTES: nat := 66
  const REQUEST_BYTES: nat := 64
  const ERROR_RESPONSE_BYTES: nat := 66
  const ACTIVE_P11_BYTES: nat := 299
  const TERMINAL_P11_BYTES: nat := 300
  const MAXIMUM_RESPONSE_BYTES: nat := 366

  type Nonce = n: seq<byte> | |n| == 16 witness seq(16, _ => 0)

  type P10Digest = d: seq<byte> | |d| == 32 witness seq(32, _ => 0)

  datatype Failure = Malformed | CorrelationMismatch | ReadIncomplete | InvalidTrustedInput

  predicate PayloadLength(n: int) {
    n == ACTIVE_P11_BYTES || n == TERMINAL_P11_BYTES
  }

  // ---------- The wire language ----------

  function Header(kind: uint16, total: uint32): (h: seq<byte>)
    ensures |h| == 12
  {
    MAGIC + Le16(VERSION) + Le16(kind) + Le32(total)
  }

  function RequestWire(nonce: Nonce, p10: P10Digest): (w: seq<byte>)
    ensures |w| == REQUEST_BYTES
  {
    Header(REQUEST_KIND, REQUEST_BYTES) + Le16(OPERATION) + Le16(0) + nonce + p10
  }

  function ResponseWire(kind: uint16, status: uint16, nonce: Nonce, p10: P10Digest, payload: seq<byte>): (w: seq<byte>)
    requires |payload| <= TERMINAL_P11_BYTES
    ensures |w| == PREFIX_BYTES + |payload|
  {
    Header(kind, PREFIX_BYTES + |payload|) + Le16(OPERATION) + Le16(status) + nonce + p10 + Le16(|payload|) + payload
  }

  function SuccessWire(nonce: Nonce, p10: P10Digest, p11: seq<byte>): seq<byte>
    requires PayloadLength(|p11|)
  {
    ResponseWire(SUCCESS_KIND, 0, nonce, p10, p11)
  }

  function ErrorWire(nonce: Nonce, p10: P10Digest): seq<byte> {
    ResponseWire(ERROR_KIND, 1, nonce, p10, [])
  }

  // ---------- Encoders ----------

  method WriteHeader(out: array<byte>, kind: uint16, total: uint32)
    requires 12 <= out.Length
    modifies out
    ensures Wrote(out, 0, Header(kind, total))
  {
    Copy(out, 0, MAGIC);
    Put16(out, 4, VERSION);
    Put16(out, 6, kind);
    Put32(out, 8, total);
  }

  method EncodeRequest(nonce: Nonce, trustedP10: P10Digest) returns (wire: seq<byte>)
    ensures wire == RequestWire(nonce, trustedP10)
    ensures wire == [0x53, 0x31, 0x52, 0x48, 1, 0, 1, 0, 64, 0, 0, 0, 1, 0, 0, 0] + nonce + trustedP10
  {
    var out := new byte[REQUEST_BYTES];
    WriteHeader(out, REQUEST_KIND, REQUEST_BYTES);
    Put16(out, 12, OPERATION);
    Put16(out, 14, 0);
    Copy(out, 16, nonce);
    Copy(out, 32, trustedP10);
    wire := out[..];
    assert out[..64] == out[..];
    RequestLayout(nonce, trustedP10);
  }

  method WriteCommonResponse(out: array<byte>, kind: uint16, total: uint32, status: uint16,
                             nonce: Nonce, p10: P10Digest, payloadSize: uint16)
    requires PREFIX_BYTES <= out.Length
    modifies out
    ensures Wrote(out, 0, Header(kind, total) + Le16(OPERATION) + Le16(status) + nonce + p10 + Le16(payloadSize))
  {
    WriteHeader(out, kind, total);
    Put16(out, 12, OPERATION);
    Put16(out, 14, status);
    Copy(out, 16, nonce);
    Copy(out, 32, p10);
    Put16(out, 64, payloadSize);
  }

  lemma RequestLayout(nonce: Nonce, p10: P10Digest)
    ensures RequestWire(nonce, p10) == [0x53, 0x31, 0x52, 0x48, 1, 0, 1, 0, 64, 0, 0, 0, 1, 0, 0, 0] + nonce + p10
  {
    assert Header(REQUEST_KIND, REQUEST_BYTES) + Le16(OPERATION) + Le16(0) == [0x53, 0x31, 0x52, 0x48, 1, 0, 1, 0, 64, 0, 0, 0, 1, 0, 0, 0];
  }

  lemma ErrorLayout(nonce: Nonce, p10: P10Digest)
    ensures ErrorWire(nonce, p10) == [0x53, 0x31, 0x52, 0x48, 1, 0, 2, 0x80, 66, 0, 0, 0, 1, 0, 1, 0] + nonce + p10 + [0, 0]
  {
    var head := Header(ERROR_KIND, PREFIX_BYTES) + Le16(OPERATION) + Le16(1);
    assert head == [0x53, 0x31, 0x52, 0x48, 1, 0, 2, 0x80, 66, 0, 0, 0, 1, 0, 1, 0] && Le16(0) == [0, 0];
    assert ErrorWire(nonce, p10) == head + nonce + p10 + Le16(0) + [];
  }

  /** The bytes before the nonce of a success response of 256 + `low` bytes. */
  function SuccessHead(low: byte): seq<byte> {
    [0x53, 0x31, 0x52, 0x48, 1, 0, 1, 0x80, low, 1, 0, 0, 1, 0, 0, 0]
  }

  lemma SuccessLayout(nonce: Nonce, p10: P10Digest, p11: seq<byte>)
    requires PayloadLength(|p11|)
    ensures SuccessWire(nonce, p10, p11) == SuccessHead(|p11| - 190) + nonce + p10 + [|p11| - 256, 1] + p11
  {
    assert Header(SUCCESS_KIND, PREFIX_BYTES + |p11|) + Le16(OPERATION) + Le16(0) == SuccessHead(|p11| - 190);
    assert Le16(|p11|) == [|p11| - 256, 1];
  }

  method EncodeVerifiedSuccessResponse(nonce: Nonce, trustedP10: P10Digest, p11: seq<byte>)
    returns (r: Result<seq<byte>, Failure>)
    ensures PayloadLength(|p11|) ==> r == Ok(SuccessWire(nonce, trustedP10, p11))
    ensures |p11| == 299 ==> r == Ok(SuccessHead(109) + nonce + trustedP10 + [43, 1] + p11)
    ensures |p11| == 300 ==> r == Ok(SuccessHead(110) + nonce + trustedP10 + [44, 1] + p11)
    ensures !PayloadLength(|p11|) ==> r == Err(InvalidTrustedInput)
  {
    if |p11| != ACTIVE_P11_BYTES && |p11| != TERMINAL_P11_BYTES {
      return Err(InvalidTrustedInput);
    }
    var out := new byte[PREFIX_BYTES + |p11|];
    WriteCommonResponse(out, SUCCESS_KIND, PREFIX_BYTES + |p11|, 0, nonce, trustedP10, |p11|);
    ghost var prefix := out[..PREFIX_BYTES];
    assert prefix == Header(SUCCESS_KIND, PREFIX_BYTES + |p11|) + Le16(OPERATION) + Le16(0) + nonce + trustedP10 + Le16(|p11|);
    Copy(out, PREFIX_BYTES, p11);
    assert out[..PREFIX_BYTES + |p11|] == prefix + p11;
    assert out[..PREFIX_BYTES + |p11|] == out[..];
    SuccessLayout(nonce, trustedP10, p11);
    r := Ok(out[..]);
  }

  method EncodeGenericErrorResponse(nonce: Nonce, trustedP10: P10Digest) returns (wire: seq<byte>)
    ensures wire == ErrorWire(nonce, trustedP10)
    ensures wire == [0x53, 0x31, 0x52, 0x48, 1, 0, 2, 0x80, 66, 0, 0, 0, 1, 0, 1, 0] + nonce + trustedP10 + [0, 0]
  {
    var out := new byte[ERROR_RESPONSE_BYTES];
    WriteCommonResponse(out, ERROR_KIND, ERROR_RESPONSE_BYTES, 1, nonce, trustedP10, 0);
    assert out[..PREFIX_BYTES] == out[..];
    ErrorLayout(nonce, trustedP10);
    wire := out[..];
  }

  // ---------- Validators ----------

  predicate FixedHeader(wire: seq<byte>) {
    |wire| >= 12 && wire[..4] == MAGIC && Get16(wire, 4) == VERSION
  }

  function ValidateRequest(wire: seq<byte>, trustedP10: P10Digest): Result<Nonce, Failure> {
    if |wire| != REQUEST_BYTES || !FixedHeader(wire) || Get16(wire, 6) != REQUEST_KIND
       || Get32(wire, 8) != REQUEST_BYTES || Get16(wire, 12) != OPERATION || Get16(wire, 14) != 0 then Err(Malformed)
    else if wire[32..64] != trustedP10 then Err(CorrelationMismatch)
    else Ok(wire[16..32])
  }

  predicate IsError(wire: seq<byte>)
    requires |wire| >= PREFIX_BYTES
  {
    Get16(wire, 6) == ERROR_KIND && Get16(wire, 14) == 1 && |wire| == ERROR_RESPONSE_BYTES && Get16(wire, 64) == 0
  }

  predicate IsSuccess(wire: seq<byte>)
    requires |wire| >= PREFIX_BYTES
  {
    && Get16(wire, 6) == SUCCESS_KIND && Get16(wire, 14) == 0
    && PayloadLength(Get16(wire, 64)) && |wire| == PREFIX_BYTES + Get16(wire, 64)
  }

  function ValidateResponse(wire: seq<byte>, nonce: Nonce, trustedP10: P10Digest,
                            selected: seq<byte>, expectedLength: nat): Result<seq<byte>, Failure>
  {
    if !PayloadLength(expectedLength) || |selected| != expectedLength then Err(InvalidTrustedInput)
    else if |wire| < PREFIX_BYTES || |wire| > MAXIMUM_RESPONSE_BYTES || !FixedHeader(wire)
            || Get32(wire, 8) != |wire| || Get16(wire, 12) != OPERATION then Err(Malformed)
    else if !IsError(wire) && !IsSuccess(wire) then Err(Malformed)
    else if wire[16..32] != nonce || wire[32..64] != trustedP10 then Err(CorrelationMismatch)
    else if IsError(wire) then Err(ReadIncomplete)
    else if Get16(wire, 64) != expectedLength || wire[PREFIX_BYTES..PREFIX_BYTES + expectedLength] != selected
    then Err(CorrelationMismatch)
    else Ok(wire[PREFIX_BYTES..PREFIX_BYTES + expectedLength])
  }

  // ---------- The validators recognise exactly the wire language ----------

  /** What the fixed part of a response says, field by field. */
  ghost predicate ResponseFields(w: seq<byte>, kind: uint16, status: uint16, nonce: seq<byte>, p10: seq<byte>, length: uint16)
    requires |w| >= PREFIX_BYTES
  {
    && FixedHeader(w) && Get16(w, 6) == kind && Get32(w, 8) == |w|
    && Get16(w, 12) == OPERATION && Get16(w, 14) == status
    && w[16..32] == nonce && w[32..64] == p10 && Get16(w, 64) == length
  }

  lemma HeaderIff(w: seq<byte>, kind: uint16, total: uint32)
    requires |w| >= 12
    ensures FixedHeader(w) && Get16(w, 6) == kind && Get32(w, 8) == total <==> w[..12] == Header(kind, total)
  {
    Get16Iff(w, 4, VERSION);
    Get16Iff(w, 6, kind);
    Get32Iff(w, 8, total);
    assert w[..12] == w[..4] + w[4..6] + w[6..8] + w[8..12];
    var h := Header(kind, total);
    assert h[..4] == MAGIC && h[4..6] == Le16(VERSION) && h[6..8] == Le16(kind) && h[8..12] == Le32(total);
    if w[..12] == h {
      assert w[..4] == h[..4] && w[4..6] == h[4..6] && w[6..8] == h[6..8] && w[8..12] == h[8..12];
    }
  }

  lemma ResponseIff(w: seq<byte>, kind: uint16, status: uint16, nonce: Nonce, p10: P10Digest, payload: seq<byte>)
    requires |payload| <= TERMINAL_P11_BYTES && |w| == PREFIX_BYTES + |payload|
    ensures w == ResponseWire(kind, status, nonce, p10, payload)
            <==> ResponseFields(w, kind, status, nonce, p10, |payload|) && w[PREFIX_BYTES..] == payload
  {
    HeaderIff(w, kind, |w|);
    Get16Iff(w, 12, OPERATION);
    Get16Iff(w, 14, status);
    Get16Iff(w, 64, |payload|);
    assert w == w[..12] + w[12..14] + w[14..16] + w[16..32] + w[32..64] + w[64..66] + w[66..];
    var v := ResponseWire(kind, status, nonce, p10, payload);
    assert v[..12] == Header(kind, |w|) && v[12..14] == Le16(OPERATION) && v[14..16] == Le16(status);
    assert v[16..32] == nonce && v[32..64] == p10 && v[64..66] == Le16(|payload|) && v[66..] == payload;
  }

  lemma RequestIff(w: seq<byte>, nonce: Nonce, p10: P10Digest)
    requires |w| == REQUEST_BYTES
    ensures w == RequestWire(nonce, p10) <==>
              && FixedHeader(w) && Get16(w, 6) == REQUEST_KIND && Get32(w, 8) == REQUEST_BYTES
              && Get16(w, 12) == OPERATION && Get16(w, 14) == 0 && w[16..32] == nonce && w[32..64] == p10
  {
    HeaderIff(w, REQUEST_KIND, REQUEST_BYTES);
    Get16Iff(w, 12, OPERATION);
    Get16Iff(w, 14, 0);
    assert w == w[..12] + w[12..14] + w[14..16] + w[16..32] + w[32..64];
    var v := RequestWire(nonce, p10);
    assert v[..12] == Header(REQUEST_KIND, REQUEST_BYTES) && v[12..14] == Le16(OPERATION) && v[14..16] == Le16(0);
    assert v[16..32] == nonce && v[32..64] == p10;
  }

  /** A wire is accepted with nonce `n` exactly when it is the request encoding of `n` and the trusted digest. */
  lemma RequestClassification(wire: seq<byte>, trusted: P10Digest)
    ensures forall n: Nonce :: ValidateRequest(wire, trusted) == Ok(n) <==> wire == RequestWire(n, trusted)
    ensures ValidateRequest(wire, trusted) == Err(CorrelationMismatch)
            <==> exists n: Nonce, d: P10Digest :: d != trusted && wire == RequestWire(n, d)
    ensures ValidateRequest(wire, trusted) == Err(Malformed)
            <==> forall n: Nonce, d: P10Digest :: wire != RequestWire(n, d)
  {
    if |wire| == REQUEST_BYTES {
      forall n: Nonce, d: P10Digest
        ensures wire == RequestWire(n, d) ==> wire[16..32] == n && wire[32..64] == d && ValidateRequest(wire, trusted) != Err(Malformed)
      {
        RequestIff(wire, n, d);
      }
      RequestIff(wire, wire[16..32], wire[32..64]);
    }
  }

  ghost predicate SomeSuccess(wire: seq<byte>) {
    exists n: Nonce, d: P10Digest, p: seq<byte> :: PayloadLength(|p|) && wire == SuccessWire(n, d, p)
  }

  ghost predicate SomeError(wire: seq<byte>) {
    exists n: Nonce, d: P10Digest :: wire == ErrorWire(n, d)
  }

  /** The structural tests common to both response kinds. */
  predicate Framed(wire: seq<byte>) {
    && PREFIX_BYTES <= |wire| <= MAXIMUM_RESPONSE_BYTES && FixedHeader(wire)
    && Get32(wire, 8) == |wire| && Get16(wire, 12) == OPERATION
  }

  lemma SuccessIff(wire: seq<byte>)
    ensures SomeSuccess(wire) <==> Framed(wire) && IsSuccess(wire)
    ensures forall n: Nonce, d: P10Digest, p: seq<byte> :: PayloadLength(|p|) && wire == SuccessWire(n, d, p) ==>
              Framed(wire) && IsSuccess(wire) && n == wire[16..32] && d == wire[32..64] && p == wire[66..]
    ensures Framed(wire) && IsSuccess(wire) ==> wire == SuccessWire(wire[16..32], wire[32..64], wire[66..])
  {
    forall n: Nonce, d: P10Digest, p: seq<byte> | PayloadLength(|p|) && wire == SuccessWire(n, d, p)
      ensures Framed(wire) && IsSuccess(wire) && n == wire[16..32] && d == wire[32..64] && p == wire[66..]
    {
      ResponseIff(wire, SUCCESS_KIND, 0, n, d, p);
    }
    if Framed(wire) && IsSuccess(wire) {
      var n: Nonce, d: P10Digest, p := wire[16..32], wire[32..64], wire[66..];
      ResponseIff(wire, SUCCESS_KIND, 0, n, d, p);
      assert wire == SuccessWire(n, d, p);
    }
  }

  lemma ErrorIff(wire: seq<byte>)
    ensures SomeError(wire) <==> Framed(wire) && IsError(wire)
    ensures forall n: Nonce, d: P10Digest :: wire == ErrorWire(n, d) ==>
              Framed(wire) && IsError(wire) && n == wire[16..32] && d == wire[32..64]
    ensures Framed(wire) && IsError(wire) ==> wire == ErrorWire(wire[16..32], wire[32..64])
  {
    forall n: Nonce, d: P10Digest | wire == ErrorWire(n, d)
      ensures Framed(wire) && IsError(wire) && n == wire[16..32] && d == wire[32..64]
    {
      ResponseIff(wire, ERROR_KIND, 1, n, d, []);
    }
    if Framed(wire) && IsError(wire) {
      var n: Nonce, d: P10Digest := wire[16..32], wire[32..64];
      ResponseIff(wire, ERROR_KIND, 1, n, d, []);
      assert wire == ErrorWire(n, d);
    }
  }

  /**
   Exact classification of every wire, for valid trusted input: accepted (with the selected
   payload) iff it is the expected success encoding; `read_incomplete` iff it is the expected
   error encoding; a correlation mismatch iff it is some other success or error encoding;
   malformed iff it is neither.
   */
  lemma ResponseClassification(wire: seq<byte>, nonce: Nonce, trusted: P10Digest, selected: seq<byte>)
    requires PayloadLength(|selected|)
    ensures var v := ValidateResponse(wire, nonce, trusted, selected, |selected|);
            && (v.Ok? <==> wire == SuccessWire(nonce, trusted, selected))
            && (v.Ok? ==> v.value == selected)
            && (v == Err(ReadIncomplete) <==> wire == ErrorWire(nonce, trusted))
            && (v == Err(CorrelationMismatch) <==>
                  (SomeSuccess(wire) || SomeError(wire))
                  && wire != SuccessWire(nonce, trusted, selected) && wire != ErrorWire(nonce, trusted))
            && (v == Err(Malformed) <==> !SomeSuccess(wire) && !SomeError(wire))
            && v != Err(InvalidTrustedInput)
  {
    SuccessIff(wire);
    ErrorIff(wire);
    if Framed(wire) && IsSuccess(wire) {
      assert Get16(wire, 64) == |selected| ==> wire[66..66 + |selected|] == wire[66..];
    }
  }

  /** Invalid trusted input is reported before the wire is looked at, and in no other case. */
  lemma TrustedInputFirst(wire: seq<byte>, nonce: Nonce, trusted: P10Digest, selected: seq<byte>, length: nat)
    ensures ValidateResponse(wire, nonce, trusted, selected, length) == Err(InvalidTrustedInput)
            <==> !(PayloadLength(length) && |selected| == length)
  {
  }
}
