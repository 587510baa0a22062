/**
 * Wire frames exchanged with a ring-3 device process: a 16-byte little-endian
 * header followed by the payload.
 */
module Wire {
  import opened Words

  const FRAME_MAX: nat := 4096
  const HEADER_LEN: nat := 16
  const PAYLOAD_MAX: nat := FRAME_MAX - HEADER_LEN
  const MAGIC: seq<byte> := [0x4C, 0x57, 0x4B, 0x30]
  const VERSION: nat := 1
  const RESPONSE_BIT: nat := 0x8000

  const CMD_PING: nat := 0x0001
  const CMD_BLAKE3: nat := 0x0010
  const CMD_ATTEST: nat := 0x0040
  const CMD_STATUS: nat := 0x0080
  const CMD_ERROR: nat := 0xFFFF

  datatype Status = Ok | BadFrame | UnknownCmd | Denied | Internal

  type U16 = n: nat | n < U16_LIMIT
  type U32 = n: nat | n < U32_LIMIT
  type Magic = s: seq<byte> | |s| == 4 witness [0, 0, 0, 0]

  datatype Header = Header(magic: Magic, version: U16, cmd: U16, reqId: U32, payloadLen: U16, status: U16)

  function StatusCode(s: Status): U16 {
    match s
    case Ok => 0
    case BadFrame => 1
    case UnknownCmd => 2
    case Denied => 3
    case Internal => 4
  }

  function ParseHeader(b: seq<byte>): Header
    requires |b| >= HEADER_LEN
  {
    Header(b[0..4], U16At(b, 4), U16At(b, 6), U32At(b, 8), U16At(b, 12), U16At(b, 14))
  }

  function EncodeHeader(h: Header): (b: seq<byte>)
    ensures |b| == HEADER_LEN
  {
    h.magic + Le16(h.version) + Le16(h.cmd) + Le32(h.reqId) + Le16(h.payloadLen) + Le16(h.status)
  }

  /** Every header survives encoding, whatever follows it. */
  lemma HeaderRoundTrip(h: Header, rest: seq<byte>)
    ensures ParseHeader(EncodeHeader(h) + rest) == h
  {
    var b := EncodeHeader(h) + rest;
    assert b[0..4] == h.magic;
    assert b[4..6] == Le16(h.version);
    assert b[6..8] == Le16(h.cmd);
    assert b[8..12] == Le32(h.reqId);
    assert b[12..14] == Le16(h.payloadLen);
    assert b[14..16] == Le16(h.status);
    Le16At(b, 4, h.version);
    Le16At(b, 6, h.cmd);
    Le32At(b, 8, h.reqId);
    Le16At(b, 12, h.payloadLen);
    Le16At(b, 14, h.status);
  }

  /** Every 16 bytes are the encoding of exactly the header they parse to. */
  lemma HeaderBytes(b: seq<byte>)
    requires |b| == HEADER_LEN
    ensures EncodeHeader(ParseHeader(b)) == b
  {
    var h := ParseHeader(b);
    Le16Of(b, 4);
    Le16Of(b, 6);
    Le32Of(b, 8);
    Le16Of(b, 12);
    Le16Of(b, 14);
    assert b == b[0..4] + b[4..6] + b[6..8] + b[8..12] + b[12..14] + b[14..16];
  }

  /** A reply carries the response bit over the command it answers. */
  function ReplyFrame(reqId: U32, cmd: nat, status: Status, payload: seq<byte>): (f: seq<byte>)
    requires cmd < RESPONSE_BIT && |payload| <= PAYLOAD_MAX
    ensures |f| == HEADER_LEN + |payload|
  {
    EncodeHeader(Header(MAGIC, VERSION, cmd + RESPONSE_BIT, reqId, |payload|, StatusCode(status))) + payload
  }

  function ErrorFrame(reqId: U32, status: Status): (f: seq<byte>)
    ensures |f| == HEADER_LEN
  {
    EncodeHeader(Header(MAGIC, VERSION, CMD_ERROR, reqId, 0, StatusCode(status))) + []
  }

  /** The checks a frame must pass to be dispatched as a request. */
  predicate IsRequest(data: seq<byte>) {
    && HEADER_LEN <= |data| <= FRAME_MAX
    && var h := ParseHeader(data);
       && h.magic == MAGIC
       && h.version == VERSION
       && h.payloadLen + HEADER_LEN <= |data|
       && h.payloadLen <= PAYLOAD_MAX
       && h.cmd < RESPONSE_BIT
       && h.cmd != CMD_ERROR
  }

  function Payload(data: seq<byte>): (p: seq<byte>)
    requires IsRequest(data)
    ensures |p| + HEADER_LEN <= |data|
  {
    data[HEADER_LEN..HEADER_LEN + ParseHeader(data).payloadLen]
  }

  /** A complete response: right magic and version, exact length, response bit set. */
  predicate WellFormed(f: seq<byte>) {
    && HEADER_LEN <= |f| <= FRAME_MAX
    && var h := ParseHeader(f);
       && h.magic == MAGIC
       && h.version == VERSION
       && HEADER_LEN + h.payloadLen == |f|
       && RESPONSE_BIT <= h.cmd
  }

  function ReqId(f: seq<byte>): U32
    requires |f| >= HEADER_LEN
  {
    ParseHeader(f).reqId
  }

  lemma ReplyWellFormed(reqId: U32, cmd: nat, status: Status, payload: seq<byte>)
    requires cmd < RESPONSE_BIT && |payload| <= PAYLOAD_MAX
    ensures WellFormed(ReplyFrame(reqId, cmd, status, payload))
    ensures ReqId(ReplyFrame(reqId, cmd, status, payload)) == reqId
  {
    HeaderRoundTrip(Header(MAGIC, VERSION, cmd + RESPONSE_BIT, reqId, |payload|, StatusCode(status)), payload);
  }

  lemma ErrorWellFormed(reqId: U32, status: Status)
    ensures WellFormed(ErrorFrame(reqId, status)) && ReqId(ErrorFrame(reqId, status)) == reqId
  {
    HeaderRoundTrip(Header(MAGIC, VERSION, CMD_ERROR, reqId, 0, StatusCode(status)), []);
  }

  /** No response, even with bytes appended, would be dispatched as a request. */
  lemma ResponseIsNoRequest(f: seq<byte>, rest: seq<byte>)
    requires WellFormed(f)
    ensures !IsRequest(f + rest)
  {
    if |f + rest| <= FRAME_MAX {
      var data := f + rest;
      assert data[0..HEADER_LEN] == f[0..HEADER_LEN];
      assert data[6] == f[6] && data[7] == f[7];
    }
  }
}
