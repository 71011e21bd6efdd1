/** The on-disk form of segment headers and log events (append_log_common). */
module Codec {
  import opened Bytes
  import opened Crc

  const SEGMENT_MAGIC: u32 := 0x4753_5150
  const ENQUEUE_MAGIC: u32 := 0x5145_5150
  const POP_MAGIC: u32 := 0x4550_5150
  const REWRITE_MAGIC: u32 := 0x4552_5150
  const FOOTER_MAGIC: u32 := 0x214B_4F50
  const FORMAT_VERSION: u16 := 1

  const SEGMENT_HEADER_BYTES := 20
  const ENQUEUE_HEADER_BYTES := 16
  const POP_EVENT_BYTES := 20
  const EVENT_TRAILER_BYTES := 8
  const ENQUEUE_OVERHEAD_BYTES := 24

  /** What one log event says. */
  datatype Event =
    | Enqueue(sequence: u32, payload: seq<byte>)
    | Rewrite(sequence: u32, payload: seq<byte>)
    | Pop(sequence: u32)

  /** The largest payload a store accepts, small enough that an event's size is a 32-bit number. */
  type RecordLimit = n: nat | n + ENQUEUE_OVERHEAD_BYTES < 0x1_0000_0000

  /** The payload is no longer than the limit. */
  predicate Within(e: Event, limit: RecordLimit) {
    e.Pop? || |e.payload| <= limit
  }

  /** Payload lengths are 32-bit fields. */
  predicate Encodable(e: Event) {
    e.Pop? || |e.payload| < 0x1_0000_0000
  }

  function SizeOf(e: Event): nat {
    if e.Pop? then POP_EVENT_BYTES else ENQUEUE_OVERHEAD_BYTES + |e.payload|
  }

  /** The 16 bytes shared by ENQUEUE and REWRITE events. */
  function RecordHeader(magic: u32, sequence: u32, payloadBytes: u32): (b: seq<byte>)
    ensures |b| == ENQUEUE_HEADER_BYTES
  {
    Le32(magic) + Le16(FORMAT_VERSION) + Le16(ENQUEUE_HEADER_BYTES) + Le32(sequence) + Le32(payloadBytes)
  }

  /** serializeEnqueueEvent and serializeRewriteEvent, which differ in the magic alone. */
  function RecordBytes(magic: u32, sequence: u32, payload: seq<byte>): (b: seq<byte>)
    requires |payload| < 0x1_0000_0000
    ensures |b| == ENQUEUE_OVERHEAD_BYTES + |payload|
  {
    var body := RecordHeader(magic, sequence, |payload|) + payload;
    body + Le32(Crc32(body)) + Le32(FOOTER_MAGIC)
  }

  function PopHeader(sequence: u32): (b: seq<byte>)
    ensures |b| == 12
  {
    Le32(POP_MAGIC) + Le16(FORMAT_VERSION) + Le16(POP_EVENT_BYTES) + Le32(sequence)
  }

  /** serializePopEvent. */
  function PopBytes(sequence: u32): (b: seq<byte>)
    ensures |b| == POP_EVENT_BYTES
  {
    PopHeader(sequence) + Le32(Crc32(PopHeader(sequence))) + Le32(FOOTER_MAGIC)
  }

  function Encode(e: Event): (b: seq<byte>)
    requires Encodable(e)
    ensures |b| == SizeOf(e)
  {
    match e
    case Enqueue(s, p) => RecordBytes(ENQUEUE_MAGIC, s, p)
    case Rewrite(s, p) => RecordBytes(REWRITE_MAGIC, s, p)
    case Pop(s) => PopBytes(s)
  }

  /** Field by field, what the bytes of an ENQUEUE or REWRITE event hold. */
  lemma RecordFields(magic: u32, sequence: u32, payload: seq<byte>)
    requires |payload| < 0x1_0000_0000
    ensures var b := RecordBytes(magic, sequence, payload);
            var n := |payload|;
            && De32(b, 0) == magic && De16(b, 4) == FORMAT_VERSION && De16(b, 6) == ENQUEUE_HEADER_BYTES
            && De32(b, 8) == sequence && De32(b, 12) == n
            && b[16..16 + n] == payload
            && De32(b, 16 + n) == Crc32(RecordHeader(magic, sequence, n) + payload) && De32(b, 20 + n) == FOOTER_MAGIC
  {
    hide Le16, Le32, De16, De32, Crc32;
    var n := |payload|;
    var body := RecordHeader(magic, sequence, n) + payload;
    var b := RecordBytes(magic, sequence, payload);
    assert b[0..4] == Le32(magic);
    assert b[4..6] == Le16(FORMAT_VERSION);
    assert b[6..8] == Le16(ENQUEUE_HEADER_BYTES);
    assert b[8..12] == Le32(sequence);
    assert b[12..16] == Le32(n);
    assert b[16 + n..20 + n] == Le32(Crc32(body));
    assert b[20 + n..24 + n] == Le32(FOOTER_MAGIC);
    Field32(b, 0, magic);
    Field16(b, 4, FORMAT_VERSION);
    Field16(b, 6, ENQUEUE_HEADER_BYTES);
    Field32(b, 8, sequence);
    Field32(b, 12, n);
    Field32(b, 16 + n, Crc32(body));
    Field32(b, 20 + n, FOOTER_MAGIC);
  }

  /** Field by field, what the bytes of a POP event hold. */
  lemma PopFields(sequence: u32)
    ensures var b := PopBytes(sequence);
            && De32(b, 0) == POP_MAGIC && De16(b, 4) == FORMAT_VERSION && De16(b, 6) == POP_EVENT_BYTES
            && De32(b, 8) == sequence && De32(b, 12) == Crc32(PopHeader(sequence)) && De32(b, 16) == FOOTER_MAGIC
  {
    hide Le16, Le32, De16, De32, Crc32;
    var b := PopBytes(sequence);
    assert b[0..4] == Le32(POP_MAGIC);
    assert b[4..6] == Le16(FORMAT_VERSION);
    assert b[6..8] == Le16(POP_EVENT_BYTES);
    assert b[8..12] == Le32(sequence);
    assert b[12..16] == Le32(Crc32(PopHeader(sequence)));
    assert b[16..20] == Le32(FOOTER_MAGIC);
    Field32(b, 0, POP_MAGIC);
    Field16(b, 4, FORMAT_VERSION);
    Field16(b, 6, POP_EVENT_BYTES);
    Field32(b, 8, sequence);
    Field32(b, 12, Crc32(PopHeader(sequence)));
    Field32(b, 16, FOOTER_MAGIC);
  }

  // Segment headers.

  function SegmentHeaderBody(generation: u32, startSeq: u32): (b: seq<byte>)
    ensures |b| == 16
  {
    Le32(SEGMENT_MAGIC) + Le16(FORMAT_VERSION) + Le16(SEGMENT_HEADER_BYTES) + Le32(generation) + Le32(startSeq)
  }

  /** serializeSegmentHeader. */
  function SegmentHeader(generation: u32, startSeq: u32): (b: seq<byte>)
    ensures |b| == SEGMENT_HEADER_BYTES
  {
    SegmentHeaderBody(generation, startSeq) + Le32(Crc32(SegmentHeaderBody(generation, startSeq)))
  }

  /** parseSegmentHeader accepts, and the header names this generation. The stored checksum covers the first 16 bytes. */
  predicate HeaderNames(b: seq<byte>, generation: u32) {
    && |b| >= SEGMENT_HEADER_BYTES
    && De32(b, 0) == SEGMENT_MAGIC && De16(b, 4) == FORMAT_VERSION && De16(b, 6) == SEGMENT_HEADER_BYTES
    && De32(b, 16) == Crc32(b[..16])
    && De32(b, 8) == generation
  }

  /** A segment that starts with the header written for a generation is accepted under that generation and no other. */
  lemma HeaderAccepted(generation: u32, startSeq: u32, rest: seq<byte>, g: u32)
    ensures HeaderNames(SegmentHeader(generation, startSeq) + rest, g) <==> g == generation
  {
    hide Le16, Le32, De16, De32, Crc32;
    var b := SegmentHeader(generation, startSeq) + rest;
    assert b[..16] == SegmentHeaderBody(generation, startSeq);
    assert b[0..4] == Le32(SEGMENT_MAGIC);
    assert b[4..6] == Le16(FORMAT_VERSION);
    assert b[6..8] == Le16(SEGMENT_HEADER_BYTES);
    assert b[8..12] == Le32(generation);
    assert b[16..20] == Le32(Crc32(SegmentHeaderBody(generation, startSeq)));
    Field32(b, 0, SEGMENT_MAGIC);
    Field16(b, 4, FORMAT_VERSION);
    Field16(b, 6, SEGMENT_HEADER_BYTES);
    Field32(b, 8, generation);
    Field32(b, 16, Crc32(SegmentHeaderBody(generation, startSeq)));
  }

  /** Only the first 20 bytes decide whether a header is accepted. */
  lemma HeaderPrefix(b: seq<byte>, x: seq<byte>, g: u32)
    requires |b| >= SEGMENT_HEADER_BYTES
    ensures HeaderNames(b + x, g) == HeaderNames(b, g)
  {
    assert (b + x)[..16] == b[..16];
  }
}
