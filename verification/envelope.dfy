/** The envelope around each queued payload: its encoding, its checksum, and what the checksum detects. */
module Envelope {
  import opened Bytes
  import opened Crc

  const ENVELOPE_MAGIC: u32 := 0x5051_4F42
  const ENVELOPE_VERSION: byte := 1
  const ENVELOPE_HEADER_BYTES := 10
  const CHECKSUM_BYTES := 4

  datatype Decoded = Decoded(attempts: byte, payload: seq<byte>)

  predicate Encodable(payload: seq<byte>) {
    |payload| < 0x1_0000_0000
  }

  function Body(attempts: byte, payload: seq<byte>): (b: seq<byte>)
    requires Encodable(payload)
    ensures |b| == ENVELOPE_HEADER_BYTES + |payload|
  {
    Le32(ENVELOPE_MAGIC) + [ENVELOPE_VERSION] + [attempts] + Le32(|payload|) + payload
  }

  function Sealed(attempts: byte, payload: seq<byte>): (b: seq<byte>)
    requires Encodable(payload)
    ensures |b| == ENVELOPE_HEADER_BYTES + |payload| + CHECKSUM_BYTES
  {
    Body(attempts, payload) + Le32(Crc32(Body(attempts, payload)))
  }

  /** encodeEnvelope: the string is built field by field; a payload too long for its length field is refused. */
  method Encode(attempts: byte, payload: seq<byte>) returns (encoded: Option<seq<byte>>)
    ensures encoded == if Encodable(payload) then Some(Sealed(attempts, payload)) else None
  {
    hide Le32, Crc32;
    if |payload| > 0xFFFF_FFFF { return None; }
    var out := Le32(ENVELOPE_MAGIC);
    out := out + [ENVELOPE_VERSION];
    out := out + [attempts];
    out := out + Le32(|payload|);
    out := out + payload;
    var crc := TableCrc32(out);
    out := out + Le32(crc);
    encoded := Some(out);
  }

  predicate Accepted(b: seq<byte>) {
    && |b| >= ENVELOPE_HEADER_BYTES + CHECKSUM_BYTES
    && De32(b, |b| - 4) == Crc32(b[..|b| - 4])
    && De32(b, 0) == ENVELOPE_MAGIC && b[4] == ENVELOPE_VERSION
    && ENVELOPE_HEADER_BYTES + De32(b, 6) == |b| - CHECKSUM_BYTES
  }

  function Opened(b: seq<byte>): Option<Decoded> {
    if Accepted(b) then Some(Decoded(b[5], b[10..|b| - 4])) else None
  }

  /** decodeEnvelope: the checksum first, then the fields, read with a moving offset. */
  method Decode(encoded: seq<byte>) returns (decoded: Option<Decoded>)
    ensures decoded == Opened(encoded)
  {
    hide De32, Crc32;
    var valid := HasValidChecksum(encoded);
    if !valid { return None; }
    var payloadEnd := |encoded| - CHECKSUM_BYTES;
    var offset: nat := 0;
    var magic := De32(encoded, offset);
    offset := offset + 4;
    var version := encoded[offset];
    offset := offset + 1;
    var attempts := encoded[offset];
    offset := offset + 1;
    var payloadLength := De32(encoded, offset);
    offset := offset + 4;
    if magic != ENVELOPE_MAGIC || version != ENVELOPE_VERSION { return None; }
    if offset + payloadLength != payloadEnd { return None; }
    decoded := Some(Decoded(attempts, encoded[offset..offset + payloadLength]));
  }

  method HasValidChecksum(encoded: seq<byte>) returns (valid: bool)
    ensures valid <==> |encoded| >= ENVELOPE_HEADER_BYTES + CHECKSUM_BYTES
                       && De32(encoded, |encoded| - 4) == Crc32(encoded[..|encoded| - 4])
  {
    hide De32, Crc32;
    if |encoded| < ENVELOPE_HEADER_BYTES + CHECKSUM_BYTES { return false; }
    var checksumOffset := |encoded| - CHECKSUM_BYTES;
    var crc := TableCrc32(encoded[..checksumOffset]);
    valid := De32(encoded, checksumOffset) == crc;
  }

  /** An envelope decodes to exactly what was put into it, and nothing but an envelope decodes: a byte string opens to these
      attempts and this payload if and only if it is the envelope sealed over them. */
  lemma OpenedExact(b: seq<byte>, attempts: byte, payload: seq<byte>)
    ensures Opened(b) == Some(Decoded(attempts, payload)) <==> Encodable(payload) && b == Sealed(attempts, payload)
  {
    hide Le32, De32, Crc32;
    if Encodable(payload) && b == Sealed(attempts, payload) {
      SealedFields(attempts, payload);
    }
    if Opened(b) == Some(Decoded(attempts, payload)) {
      var n := De32(b, 6);
      Field32(b, 0, ENVELOPE_MAGIC);
      Field32(b, 6, n);
      Field32(b, |b| - 4, Crc32(b[..|b| - 4]));
      assert b[..|b| - 4] == b[0..4] + [b[4]] + [b[5]] + b[6..10] + b[10..|b| - 4];
      assert b[..|b| - 4] == Body(attempts, payload);
      assert b == b[..|b| - 4] + b[|b| - 4..|b| - 4 + 4];
    }
  }

  lemma SealedFields(attempts: byte, payload: seq<byte>)
    requires Encodable(payload)
    ensures Opened(Sealed(attempts, payload)) == Some(Decoded(attempts, payload))
  {
    hide Le32, De32, Crc32;
    var b, body := Sealed(attempts, payload), Body(attempts, payload);
    assert b[..|b| - 4] == body;
    assert b[0..4] == Le32(ENVELOPE_MAGIC);
    assert b[6..10] == Le32(|payload|);
    assert b[|b| - 4..|b| - 4 + 4] == Le32(Crc32(body));
    assert b[10..|b| - 4] == payload;
    Field32(b, 0, ENVELOPE_MAGIC);
    Field32(b, 6, |payload|);
    Field32(b, |b| - 4, Crc32(body));
  }

  /** Changing any one byte of any envelope, header, payload or checksum, makes it undecodable. */
  lemma OneByteRejected(attempts: byte, payload: seq<byte>, i: nat, x: byte)
    requires Encodable(payload) && i < |Sealed(attempts, payload)| && x != Sealed(attempts, payload)[i]
    ensures Opened(Sealed(attempts, payload)[i := x]).None?
  {
    hide Le32, De32, Crc32, Body;
    var body := Body(attempts, payload);
    var b, c := Sealed(attempts, payload), Sealed(attempts, payload)[i := x];
    var n := |body|;
    assert b[..n] == body && b[n..n + 4] == Le32(Crc32(body));
    if i < n {
      assert c[..n] == body[i := x] && c[n..n + 4] == b[n..n + 4];
      DetectsOneByte(body, body[i := x], i);
      Field32(c, n, Crc32(body));
    } else {
      assert c[..n] == body;
      assert c[n..n + 4][i - n] == x && b[n..n + 4][i - n] == b[i];
      Field32(c, n, Crc32(body));
    }
  }
}
