/** Reading the events of one segment back, and what a scan recovers after an interrupted append. */
module Scan {
  import opened Bytes
  import opened Crc
  import opened Codec

  /** What the scanner finds at one offset: a whole valid event, too few bytes, or bytes that cannot be an event. */
  datatype Step = Got(event: Event, size: nat) | TooShort | Invalid

  /** An event together with where it lies. */
  datatype Logged = Logged(event: Event, gen: u32, offset: nat)

  /** How a scan ended: at the end of the file, before an incomplete event, or before an invalid one. */
  datatype Stop = Clean | Torn | Corrupt

  /** The events before the stopping point, and the offset where the last of them ends. */
  datatype Scanned = Scanned(events: seq<Logged>, end: nat, stop: Stop)

  /** One turn of the scan loop at offset off. */
  function NextEvent(b: seq<byte>, off: nat, limit: RecordLimit): Step
    requires off < |b|
  {
    var remaining := |b| - off;
    if remaining < 4 then TooShort
    else
      var magic := De32(b, off);
      if magic == ENQUEUE_MAGIC || magic == REWRITE_MAGIC then NextRecord(b, off, limit)
      else if magic == POP_MAGIC then NextPop(b, off)
      else Invalid
  }

  function NextRecord(b: seq<byte>, off: nat, limit: RecordLimit): Step
    requires off + 4 <= |b|
  {
    var remaining := |b| - off;
    if remaining < ENQUEUE_HEADER_BYTES then TooShort
    else if De16(b, off + 4) != FORMAT_VERSION || De16(b, off + 6) != ENQUEUE_HEADER_BYTES then Invalid
    else
      var magic, sequence, n := De32(b, off), De32(b, off + 8), De32(b, off + 12);
      if n > limit then Invalid
      else if ENQUEUE_OVERHEAD_BYTES + n > remaining then TooShort
      else
        var payload := b[off + 16..off + 16 + n];
        if De32(b, off + 16 + n) != Crc32(RecordHeader(magic, sequence, n) + payload)
           || De32(b, off + 20 + n) != FOOTER_MAGIC then Invalid
        else Got(if magic == ENQUEUE_MAGIC then Enqueue(sequence, payload) else Rewrite(sequence, payload),
                 ENQUEUE_OVERHEAD_BYTES + n)
  }

  function NextPop(b: seq<byte>, off: nat): Step
    requires off + 4 <= |b|
  {
    if |b| - off < POP_EVENT_BYTES then TooShort
    else if De16(b, off + 4) != FORMAT_VERSION || De16(b, off + 6) != POP_EVENT_BYTES
            || De32(b, off + 16) != FOOTER_MAGIC
            || De32(b, off + 12) != Crc32(PopHeader(De32(b, off + 8))) then Invalid
    else Got(Pop(De32(b, off + 8)), POP_EVENT_BYTES)
  }

  /** A recognised event is as long as its encoding, within the payload limit, and lies inside the file. */
  lemma GotSize(b: seq<byte>, off: nat, limit: RecordLimit)
    requires off < |b| && NextEvent(b, off, limit).Got?
    ensures var s := NextEvent(b, off, limit);
            s.size == SizeOf(s.event) && Within(s.event, limit) && 0 < s.size && off + s.size <= |b|
  {
    hide De16, De32, Crc32, PopHeader, RecordHeader;
  }

  /** The whole scan from offset off on. */
  function ScanFrom(b: seq<byte>, off: nat, gen: u32, limit: RecordLimit): Scanned
    requires off <= |b|
    decreases |b| - off
  {
    if off == |b| then Scanned([], off, Clean)
    else
      match NextEvent(b, off, limit)
      case TooShort => Scanned([], off, Torn)
      case Invalid => Scanned([], off, Corrupt)
      case Got(e, n) =>
        GotSize(b, off, limit);
        var rest := ScanFrom(b, off + n, gen, limit);
        Scanned([Logged(e, gen, off)] + rest.events, rest.end, rest.stop)
  }

  // Reading fields across a concatenation.

  lemma Shift(b: seq<byte>, y: seq<byte>, i: nat)
    ensures i + 4 <= |y| ==> De32(b + y, |b| + i) == De32(y, i)
    ensures i + 2 <= |y| ==> De16(b + y, |b| + i) == De16(y, i)
  {
  }

  lemma Keep(b: seq<byte>, y: seq<byte>, i: nat)
    ensures i + 4 <= |b| ==> De32(b + y, i) == De32(b, i)
    ensures i + 2 <= |b| ==> De16(b + y, i) == De16(b, i)
  {
  }

  /** Bytes added behind a recognised event do not change it. */
  lemma GotStable(b: seq<byte>, x: seq<byte>, off: nat, limit: RecordLimit)
    requires off < |b| && NextEvent(b, off, limit).Got?
    ensures NextEvent(b + x, off, limit) == NextEvent(b, off, limit)
  {
    hide De16, De32, Crc32, PopHeader, RecordHeader;
    Keep(b, x, off);
    Keep(b, x, off + 4);
    Keep(b, x, off + 6);
    Keep(b, x, off + 8);
    Keep(b, x, off + 12);
    Keep(b, x, off + 16);
    if De32(b, off) != POP_MAGIC {
      var n := De32(b, off + 12);
      Keep(b, x, off + 16 + n);
      Keep(b, x, off + 20 + n);
      assert (b + x)[off + 16..off + 16 + n] == b[off + 16..off + 16 + n];
    }
  }

  /** A clean scan of b is the start of every scan of b with more bytes behind it. */
  lemma {:induction false} ScanExtend(b: seq<byte>, x: seq<byte>, off: nat, gen: u32, limit: RecordLimit)
    requires off <= |b| && ScanFrom(b, off, gen, limit).stop == Clean
    ensures var rest := ScanFrom(b + x, |b|, gen, limit);
            ScanFrom(b + x, off, gen, limit)
            == Scanned(ScanFrom(b, off, gen, limit).events + rest.events, rest.end, rest.stop)
    decreases |b| - off
  {
    hide NextEvent;
    if off < |b| {
      GotSize(b, off, limit);
      GotStable(b, x, off, limit);
      ScanExtend(b, x, off + NextEvent(b, off, limit).size, gen, limit);
    }
  }

  /** A scan that ends cleanly ends at the end of the file. */
  lemma {:induction false} CleanEnd(b: seq<byte>, off: nat, gen: u32, limit: RecordLimit)
    requires off <= |b|
    ensures off <= ScanFrom(b, off, gen, limit).end <= |b|
    ensures ScanFrom(b, off, gen, limit).stop == Clean <==> ScanFrom(b, off, gen, limit).end == |b|
    decreases |b| - off
  {
    hide NextEvent;
    if off < |b| && NextEvent(b, off, limit).Got? {
      GotSize(b, off, limit);
      CleanEnd(b, off + NextEvent(b, off, limit).size, gen, limit);
    }
  }

  /** An encoded event is recognised wherever it stands and whatever follows it. */
  lemma NextEncoded(b: seq<byte>, e: Event, limit: RecordLimit)
    requires Within(e, limit)
    ensures NextEvent(b + Encode(e), |b|, limit) == Got(e, SizeOf(e))
  {
    hide De16, De32, Crc32, PopHeader, RecordHeader, RecordBytes, PopBytes;
    var y := Encode(e);
    Shift(b, y, 0);
    Shift(b, y, 4);
    Shift(b, y, 6);
    Shift(b, y, 8);
    Shift(b, y, 12);
    Shift(b, y, 16);
    match e
    case Pop(s) => PopFields(s);
    case Enqueue(s, p) =>
      RecordFields(ENQUEUE_MAGIC, s, p);
      NextRecordShifted(b, y, |p|);
    case Rewrite(s, p) =>
      RecordFields(REWRITE_MAGIC, s, p);
      NextRecordShifted(b, y, |p|);
  }

  lemma NextRecordShifted(b: seq<byte>, y: seq<byte>, n: nat)
    requires |y| == 24 + n
    ensures De32(b + y, |b| + 16 + n) == De32(y, 16 + n)
    ensures De32(b + y, |b| + 20 + n) == De32(y, 20 + n)
    ensures (b + y)[|b| + 16..|b| + 16 + n] == y[16..16 + n]
  {
  }

  /** A strict, non-empty prefix of an encoded event is too short to be one; no checksum is consulted. */
  lemma NextTorn(b: seq<byte>, e: Event, k: nat, limit: RecordLimit)
    requires Within(e, limit) && 0 < k < SizeOf(e)
    ensures NextEvent(b + Encode(e)[..k], |b|, limit) == TooShort
  {
    hide De16, De32, Crc32, PopHeader, RecordHeader, RecordBytes, PopBytes;
    var y := Encode(e)[..k];
    assert Encode(e) == y + Encode(e)[k..];
    if k >= 4 {
      Shift(b, y, 0);
      Keep(y, Encode(e)[k..], 0);
      match e {
        case Pop(s) => PopFields(s);
        case Enqueue(s, p) => RecordFields(ENQUEUE_MAGIC, s, p);
        case Rewrite(s, p) => RecordFields(REWRITE_MAGIC, s, p);
      }
      if k >= 16 && !e.Pop? {
        Shift(b, y, 4);
        Keep(y, Encode(e)[k..], 4);
        Shift(b, y, 6);
        Keep(y, Encode(e)[k..], 6);
        Shift(b, y, 12);
        Keep(y, Encode(e)[k..], 12);
      }
    }
  }

  /** Appending a whole event to a clean segment adds exactly that event, at the old end. */
  lemma AppendScan(b: seq<byte>, e: Event, off: nat, gen: u32, limit: RecordLimit)
    requires off <= |b| && ScanFrom(b, off, gen, limit).stop == Clean
    requires Within(e, limit)
    ensures ScanFrom(b + Encode(e), off, gen, limit)
            == Scanned(ScanFrom(b, off, gen, limit).events + [Logged(e, gen, |b|)], |b| + SizeOf(e), Clean)
  {
    hide NextEvent, Encode;
    ScanExtend(b, Encode(e), off, gen, limit);
    NextEncoded(b, e, limit);
    assert ScanFrom(b + Encode(e), |b| + SizeOf(e), gen, limit) == Scanned([], |b| + SizeOf(e), Clean);
  }

  /** An append interrupted after any strict prefix of the event loses nothing before it: the scan recovers exactly
      the events that were there and stops at the exact old end. */
  lemma InterruptedAppend(b: seq<byte>, e: Event, k: nat, off: nat, gen: u32, limit: RecordLimit)
    requires off <= |b| && ScanFrom(b, off, gen, limit).stop == Clean
    requires Within(e, limit) && k < SizeOf(e)
    ensures ScanFrom(b + Encode(e)[..k], off, gen, limit)
            == Scanned(ScanFrom(b, off, gen, limit).events, |b|, if k == 0 then Clean else Torn)
  {
    hide NextEvent, Encode;
    ScanExtend(b, Encode(e)[..k], off, gen, limit);
    if k > 0 {
      NextTorn(b, e, k, limit);
    }
  }

  /** Cutting a segment at the end of its last whole event leaves a clean segment with the same events. */
  lemma {:induction false} Truncated(b: seq<byte>, off: nat, gen: u32, limit: RecordLimit)
    requires off <= |b|
    ensures var s := ScanFrom(b, off, gen, limit);
            off <= s.end <= |b| && ScanFrom(b[..s.end], off, gen, limit) == Scanned(s.events, s.end, Clean)
    decreases |b| - off
  {
    hide NextEvent;
    var s := ScanFrom(b, off, gen, limit);
    if off < |b| && NextEvent(b, off, limit).Got? {
      var n := NextEvent(b, off, limit).size;
      GotSize(b, off, limit);
      Truncated(b, off + n, gen, limit);
      GotCut(b, off, s.end, limit);
    } else {
      assert b[..off][off..] == [];
    }
  }

  /** An event recognised in a file is recognised in the file cut anywhere behind it. */
  lemma GotCut(b: seq<byte>, off: nat, end: nat, limit: RecordLimit)
    requires off < |b| && NextEvent(b, off, limit).Got?
    requires off + NextEvent(b, off, limit).size <= end <= |b|
    ensures off < end && NextEvent(b[..end], off, limit) == NextEvent(b, off, limit)
  {
    hide De16, De32, Crc32, PopHeader, RecordHeader;
    GotSize(b, off, limit);
    var c := b[..end];
    assert b == c + b[end..];
    Keep(c, b[end..], off);
    Keep(c, b[end..], off + 4);
    Keep(c, b[end..], off + 6);
    Keep(c, b[end..], off + 8);
    Keep(c, b[end..], off + 12);
    Keep(c, b[end..], off + 16);
    if De32(b, off) != POP_MAGIC {
      var n := De32(b, off + 12);
      Keep(c, b[end..], off + 16 + n);
      Keep(c, b[end..], off + 20 + n);
      assert c[off + 16..off + 16 + n] == b[off + 16..off + 16 + n];
    }
  }
}
