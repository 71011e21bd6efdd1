/** Damaged files: what a changed byte does to an event, to a segment and to a manifest. */
module Damage {
  import opened Bytes
  import opened Crc
  import opened Codec
  import opened ManifestCodec
  import opened Scan
  import opened LogReplay
  import opened Layout
  import opened Disk
  import opened Slots
  import opened Coherence
  import opened Validation

  // Exactly the encoded events are recognised.

  lemma HeaderParts(b: seq<byte>, off: nat)
    requires off + 16 <= |b|
    ensures b[off..off + 16] == b[off..off + 4] + b[off + 4..off + 6] + b[off + 6..off + 8] + b[off + 8..off + 12] + b[off + 12..off + 16]
  {
    assert b[off..off + 8] == b[off..off + 4] + b[off + 4..off + 6] + b[off + 6..off + 8];
    assert b[off..off + 16] == b[off..off + 8] + b[off + 8..off + 12] + b[off + 12..off + 16];
  }

  lemma RecordExact(b: seq<byte>, off: nat, limit: RecordLimit)
    requires off < |b| && NextEvent(b, off, limit).Got? && !NextEvent(b, off, limit).event.Pop?
    ensures var s := NextEvent(b, off, limit);
            off + s.size <= |b| && Encodable(s.event) && b[off..off + s.size] == Encode(s.event)
  {
    hide De16, De32, Crc32, Le16, Le32;
    var magic, sequence, n: nat := De32(b, off), De32(b, off + 8), De32(b, off + 12);
    var payload := b[off + 16..off + 16 + n];
    var body := RecordHeader(magic, sequence, n) + payload;
    Field32(b, off, magic);
    Field16(b, off + 4, FORMAT_VERSION);
    Field16(b, off + 6, ENQUEUE_HEADER_BYTES);
    Field32(b, off + 8, sequence);
    Field32(b, off + 12, n);
    Field32(b, off + 16 + n, Crc32(body));
    Field32(b, off + 20 + n, FOOTER_MAGIC);
    HeaderParts(b, off);
    assert b[off..off + 24 + n] == b[off..off + 16] + payload + b[off + 16 + n..off + 20 + n] + b[off + 20 + n..off + 24 + n];
  }

  lemma PopExact(b: seq<byte>, off: nat, limit: RecordLimit)
    requires off < |b| && NextEvent(b, off, limit).Got? && NextEvent(b, off, limit).event.Pop?
    ensures var s := NextEvent(b, off, limit);
            off + s.size <= |b| && b[off..off + s.size] == Encode(s.event)
  {
    hide De16, De32, Crc32, Le16, Le32;
    var sequence := De32(b, off + 8);
    Field32(b, off, POP_MAGIC);
    Field16(b, off + 4, FORMAT_VERSION);
    Field16(b, off + 6, POP_EVENT_BYTES);
    Field32(b, off + 8, sequence);
    Field32(b, off + 12, Crc32(PopHeader(sequence)));
    Field32(b, off + 16, FOOTER_MAGIC);
    assert b[off..off + 12] == b[off..off + 4] + b[off + 4..off + 6] + b[off + 6..off + 8] + b[off + 8..off + 12];
    assert b[off..off + 20] == b[off..off + 12] + b[off + 12..off + 16] + b[off + 16..off + 20];
  }

  /** An event is recognised at an offset if and only if the bytes there are its encoding and it is within the limit. */
  lemma NextExact(b: seq<byte>, off: nat, e: Event, limit: RecordLimit)
    requires off < |b| && Encodable(e)
    ensures NextEvent(b, off, limit) == Got(e, SizeOf(e))
            <==> Within(e, limit) && off + SizeOf(e) <= |b| && b[off..off + SizeOf(e)] == Encode(e)
  {
    hide NextEvent, Encode;
    if NextEvent(b, off, limit) == Got(e, SizeOf(e)) {
      GotSize(b, off, limit);
      if e.Pop? { PopExact(b, off, limit); } else { RecordExact(b, off, limit); }
    }
    if Within(e, limit) && off + SizeOf(e) <= |b| && b[off..off + SizeOf(e)] == Encode(e) {
      var p := b[..off] + Encode(e);
      assert b[..off + SizeOf(e)] == p && b == p + b[off + SizeOf(e)..];
      NextEncoded(b[..off], e, limit);
      GotStable(p, b[off + SizeOf(e)..], off, limit);
    }
  }

  // One changed byte.

  /** The four bytes of an ENQUEUE or REWRITE that hold the payload's length. */
  predicate LengthByte(e: Event, k: nat) {
    !e.Pop? && 12 <= k < 16
  }

  /** Two encodings of one length that differ in at most the byte at k, which holds no payload length, are the same. */
  lemma RecordsAlike(magic: u32, s: u32, p: seq<byte>, magic': u32, s': u32, p': seq<byte>, k: nat)
    requires |p| == |p'| < 0x1_0000_0000
    requires forall j | 0 <= j < ENQUEUE_OVERHEAD_BYTES + |p| && j != k :: RecordBytes(magic, s, p)[j] == RecordBytes(magic', s', p')[j]
    ensures RecordBytes(magic, s, p) == RecordBytes(magic', s', p')
  {
    hide RecordHeader, Le32, Crc32;
    var n := |p|;
    var body, body' := RecordHeader(magic, s, n) + p, RecordHeader(magic', s', n) + p';
    var y, y' := RecordBytes(magic, s, p), RecordBytes(magic', s', p');
    SameButOne(body, body', Le32(Crc32(body)), Le32(Crc32(body')), Le32(FOOTER_MAGIC), k);
  }

  /** A checksummed message whose bytes are known but for one. */
  lemma SameButOne(body: seq<byte>, body': seq<byte>, crc: seq<byte>, crc': seq<byte>, foot: seq<byte>, k: nat)
    requires |body| == |body'| && crc == Le32(Crc32(body)) && crc' == Le32(Crc32(body')) && |foot| == 4
    requires forall j | 0 <= j < |body| + 8 && j != k :: (body + crc + foot)[j] == (body' + crc' + foot)[j]
    ensures body + crc + foot == body' + crc' + foot
  {
    hide Le32, Crc32, De32;
    var y, y' := body + crc + foot, body' + crc' + foot;
    assert forall j | 0 <= j < |body| :: y[j] == body[j] && y'[j] == body'[j];
    if k < |body| && body[k] != body'[k] {
      DetectsOneByte(body, body', k);
      assert y[|body|..|body| + 4] == crc && y'[|body|..|body| + 4] == crc';
      assert crc == crc';
      Field32(y, |body|, Crc32(body));
      Field32(y, |body|, Crc32(body'));
    } else {
      assert body == body';
    }
  }

  /** The kinds of events differ in more than one byte. */
  lemma KindsApart(s: u32, magic: u32, p: seq<byte>, s': u32)
    requires |p| < 0x1_0000_0000 && magic != POP_MAGIC
    ensures exists i, j :: 0 <= i < j < 16 && RecordBytes(magic, s, p)[i] != PopBytes(s')[i]
                           && RecordBytes(magic, s, p)[j] != PopBytes(s')[j]
  {
    hide RecordBytes, PopBytes;
    var y, z := RecordBytes(magic, s, p), PopBytes(s');
    RecordFields(magic, s, p);
    PopFields(s');
    var i := Differs32(y, z);
    var j := Differs16(y, z, 6);
  }

  lemma Differs16(y: seq<byte>, z: seq<byte>, at: nat) returns (i: nat)
    requires at + 2 <= |y| && at + 2 <= |z| && De16(y, at) != De16(z, at)
    ensures at <= i < at + 2 && y[i] != z[i]
  {
    i := if y[at] != z[at] then at else at + 1;
  }

  lemma Differs32(y: seq<byte>, z: seq<byte>) returns (i: nat)
    requires 4 <= |y| && 4 <= |z| && De32(y, 0) != De32(z, 0)
    ensures i < 4 && y[i] != z[i]
  {
    i := if y[0] != z[0] then 0 else if y[1] != z[1] then 1 else if y[2] != z[2] then 2 else 3;
  }

  lemma LengthsAlike(magic: u32, s: u32, p: seq<byte>, magic': u32, s': u32, p': seq<byte>)
    requires |p| < 0x1_0000_0000 && |p'| < 0x1_0000_0000
    requires forall j | 12 <= j < 16 :: RecordBytes(magic, s, p)[j] == RecordBytes(magic', s', p')[j]
    ensures |p| == |p'|
  {
    hide RecordBytes;
    RecordFields(magic, s, p);
    RecordFields(magic', s', p');
  }

  lemma PopsAlike(s: u32, s': u32, k: nat)
    requires forall j | 0 <= j < POP_EVENT_BYTES && j != k :: PopBytes(s)[j] == PopBytes(s')[j]
    ensures PopBytes(s) == PopBytes(s')
  {
    hide PopHeader, Le32, Crc32;
    assert PopBytes(s) == PopHeader(s) + Le32(Crc32(PopHeader(s))) + Le32(FOOTER_MAGIC);
    assert PopBytes(s') == PopHeader(s') + Le32(Crc32(PopHeader(s'))) + Le32(FOOTER_MAGIC);
    SameButOne(PopHeader(s), PopHeader(s'), Le32(Crc32(PopHeader(s))), Le32(Crc32(PopHeader(s'))), Le32(FOOTER_MAGIC), k);
  }

  function MagicOf(e: Event): u32
    requires !e.Pop?
  {
    if e.Enqueue? then ENQUEUE_MAGIC else REWRITE_MAGIC
  }

  /** Encodings that agree but for one byte, which holds no payload length, are the same. */
  lemma EncodingsAlike(e: Event, e': Event, k: nat)
    requires Encodable(e) && Encodable(e') && k < SizeOf(e) && !LengthByte(e, k)
    requires forall j | 0 <= j < SizeOf(e) && j < SizeOf(e') && j != k :: Encode(e)[j] == Encode(e')[j]
    ensures Encode(e) == Encode(e')
  {
    hide RecordBytes, PopBytes;
    if e.Pop? && e'.Pop? {
      assert Encode(e) == PopBytes(e.sequence) && Encode(e') == PopBytes(e'.sequence);
      PopsAlike(e.sequence, e'.sequence, k);
    } else if e.Pop? {
      KindsApart(e'.sequence, MagicOf(e'), e'.payload, e.sequence);
    } else if e'.Pop? {
      KindsApart(e.sequence, MagicOf(e), e.payload, e'.sequence);
    } else {
      assert Encode(e) == RecordBytes(MagicOf(e), e.sequence, e.payload);
      assert Encode(e') == RecordBytes(MagicOf(e'), e'.sequence, e'.payload);
      LengthsAlike(MagicOf(e), e.sequence, e.payload, MagicOf(e'), e'.sequence, e'.payload);
      RecordsAlike(MagicOf(e), e.sequence, e.payload, MagicOf(e'), e'.sequence, e'.payload, k);
    }
  }

  /** One changed byte anywhere in an event, outside the payload's length, and no event is recognised in its place. */
  lemma EventDamaged(b: seq<byte>, off: nat, e: Event, k: nat, x: byte, limit: RecordLimit)
    requires Encodable(e) && k < SizeOf(e) && !LengthByte(e, k) && x != Encode(e)[k]
    requires off + SizeOf(e) <= |b| && b[off..off + SizeOf(e)] == Encode(e)[k := x]
    ensures !NextEvent(b, off, limit).Got?
  {
    hide NextEvent, Encode;
    if NextEvent(b, off, limit).Got? {
      var e' := NextEvent(b, off, limit).event;
      GotSize(b, off, limit);
      NextExact(b, off, e', limit);
      forall j | 0 <= j < SizeOf(e) && j < SizeOf(e') ensures Encode(e')[j] == Encode(e)[k := x][j] {
        assert b[off..off + SizeOf(e)][j] == b[off + j] == b[off..off + SizeOf(e')][j];
      }
      assert Encode(e)[k := x][k] == x;
      EncodingsAlike(e, e', k);
    }
  }

  // What that means for a segment, and for the store.

  /** A segment of whole events, then an event with one changed byte, then anything: the scan finds the events before it and
      stops there. */
  lemma ScanDamaged(p: seq<byte>, e: Event, k: nat, x: byte, rest: seq<byte>, off: nat, gen: u32, limit: RecordLimit)
    requires off <= |p| && ScanFrom(p, off, gen, limit).stop == Clean
    requires Encodable(e) && k < SizeOf(e) && !LengthByte(e, k) && x != Encode(e)[k]
    ensures var s := ScanFrom(p + (Encode(e)[k := x] + rest), off, gen, limit);
            && s.events == ScanFrom(p, off, gen, limit).events && s.end == |p| && s.stop != Clean
  {
    hide NextEvent, Encode;
    var y := Encode(e)[k := x];
    var b := p + (y + rest);
    ScanExtend(p, y + rest, off, gen, limit);
    assert b[|p|..|p| + SizeOf(e)] == y;
    EventDamaged(b, |p|, e, k, x, limit);
  }

  /** One changed byte in a segment's header, and no generation accepts it. */
  lemma HeaderDamaged(b: seq<byte>, g: u32, k: nat, x: byte, g': u32)
    requires HeaderNames(b, g) && k < SEGMENT_HEADER_BYTES && x != b[k]
    ensures !HeaderNames(b[k := x], g')
  {
    hide De16, De32, Crc32;
    var c := b[k := x];
    Slice32(b, 16);
    Slice32(c, 16);
    if k < 16 {
      DetectsOneByte(b[..16], c[..16], k);
      assert b[16..20] == c[16..20];
    } else {
      assert b[..16] == c[..16] && b[16..20][k - 16] != c[16..20][k - 16];
      Field32(b, 16, Crc32(b[..16]));
      Field32(c, 16, Crc32(b[..16]));
    }
  }

  /** The two differ in the byte at k and nowhere else. */
  predicate OneByte(b: seq<byte>, c: seq<byte>, k: nat) {
    k < |b| && |c| == |b| && c[k] != b[k] && c == b[k := c[k]]
  }

  /** The segment's bytes with one byte changed: in its header, or in one of its events but not in a payload's length. p is what
      comes before that event. */
  ghost predicate Damaged(b: seq<byte>, c: seq<byte>, g: u32, limit: RecordLimit) {
    || (exists k: nat :: k < SEGMENT_HEADER_BYTES && OneByte(b, c, k))
    || exists p: seq<byte>, e: Event, rest: seq<byte>, k: nat, x: byte ::
         DamagedEvent(b, c, g, limit, p, e, rest, k, x)
  }

  predicate DamagedEvent(b: seq<byte>, c: seq<byte>, g: u32, limit: RecordLimit, p: seq<byte>, e: Event, rest: seq<byte>, k: nat, x: byte) {
    && |p| >= SEGMENT_HEADER_BYTES && ScanFrom(p, SEGMENT_HEADER_BYTES, g, limit).stop == Clean
    && Encodable(e) && b == p + (Encode(e) + rest)
    && k < SizeOf(e) && !LengthByte(e, k) && x != Encode(e)[k] && c == p + (Encode(e)[k := x] + rest)
  }

  /** A sealed segment damaged so is no longer sound. */
  lemma SealedDamaged(d: Files, g: u32, c: seq<byte>, limit: RecordLimit)
    requires SealedOk(d, g, limit) && Damaged(d[Segment(g)], c, g, limit)
    ensures !SealedOk(d[Segment(g) := c], g, limit)
  {
    hide HeaderNames, Encode, NextEvent, ScanFrom;
    var b := d[Segment(g)];
    if k: nat :| k < SEGMENT_HEADER_BYTES && OneByte(b, c, k) {
      HeaderDamaged(b, g, k, c[k], g);
    } else {
      var p, e, rest, k, x :| DamagedEvent(b, c, g, limit, p, e, rest, k, x);
      ScanDamaged(p, e, k, x, rest, SEGMENT_HEADER_BYTES, g, limit);
    }
  }

  /** A sealed segment that ends in the middle of an event is refused too; only one that ends between two events is accepted. */
  lemma SealedShortened(d: Files, g: u32, p: seq<byte>, e: Event, k: nat, limit: RecordLimit)
    requires HeaderNames(p, g) && ScanFrom(p, SEGMENT_HEADER_BYTES, g, limit).stop == Clean
    requires Within(e, limit) && k < SizeOf(e)
    ensures SealedOk(d[Segment(g) := p + Encode(e)[..k]], g, limit) <==> k == 0
  {
    hide HeaderNames, Encode, NextEvent, ScanFrom;
    HeaderLong(p, g);
    InterruptedAppend(p, e, k, SEGMENT_HEADER_BYTES, g, limit);
    HeaderKept(p, Encode(e)[..k], g);
  }

  lemma HeaderLong(p: seq<byte>, g: u32)
    requires HeaderNames(p, g)
    ensures |p| >= SEGMENT_HEADER_BYTES
  {
    hide Crc32;
  }

  lemma HeaderKept(p: seq<byte>, rest: seq<byte>, g: u32)
    requires HeaderNames(p, g)
    ensures HeaderNames(p + rest, g)
  {
    hide Crc32;
    assert (p + rest)[..16] == p[..16];
  }

  /** Damage to a listed sealed segment is never replayed: the store no longer mounts, and the validator reports it. */
  lemma DamageDetected(d: Files, g: u32, c: seq<byte>, limit: RecordLimit)
    requires Winner(d).Some? && g in Flatten(Winner(d).value.ranges) && Winner(d).value.tailGeneration != 0
    requires SealedOk(d, g, limit) && Damaged(d[Segment(g)], c, g, limit)
    ensures !Mountable(d[Segment(g) := c], limit) && !Validates(d[Segment(g) := c], limit)
  {
    hide HeaderNames, Encode, SegmentScan, Winner, Flatten, Damaged;
    var m, d' := Winner(d).value, d[Segment(g) := c];
    WinnerDepends(d, d');
    SealedDamaged(d, g, c, limit);
    var i :| 0 <= i < |Flatten(m.ranges)| && Flatten(m.ranges)[i] == g;
    assert ActiveOf(m) == Flatten(m.ranges) + [m.tailGeneration] && ActiveOf(m)[i] == g && i + 1 < |ActiveOf(m)|;
  }

  /** In the tail, a mount keeps the events before the damaged one, and its records are theirs. */
  lemma TailDamaged(d: Files, g: u32, p: seq<byte>, e: Event, rest: seq<byte>, k: nat, x: byte, limit: RecordLimit)
    requires |p| >= SEGMENT_HEADER_BYTES && ScanFrom(p, SEGMENT_HEADER_BYTES, g, limit).stop == Clean
    requires Encodable(e) && k < SizeOf(e) && !LengthByte(e, k) && x != Encode(e)[k]
    ensures var s := SegmentScan(d[Segment(g) := p + (Encode(e)[k := x] + rest)], g, limit);
            && s.events == ScanFrom(p, SEGMENT_HEADER_BYTES, g, limit).events && s.end == |p|
  {
    hide Encode, NextEvent, ScanFrom;
    ScanDamaged(p, e, k, x, rest, SEGMENT_HEADER_BYTES, g, limit);
  }

  /** One changed byte anywhere in a manifest, and it does not parse. */
  lemma ManifestDamaged(m: Manifest, k: nat, x: byte)
    requires Formed(m) && |m.ranges| <= MANIFEST_MAX_RANGES && k < |Serialise(m)| && x != Serialise(m)[k]
    ensures Parse(Serialise(m)[k := x]).None?
  {
    hide Parse, Formed, ManifestBody, Le32, Crc32;
    var y, c := Serialise(m), Serialise(m)[k := x];
    if Parse(c).Some? {
      var m' := Parse(c).value;
      ParseExact(c, m');
      FormedSize(m);
      FormedSize(m');
      assert c == Serialise(m');
      assert c[k] == x;
      SameButOne(ManifestBody(m), ManifestBody(m'), Le32(Crc32(ManifestBody(m))), Le32(Crc32(ManifestBody(m'))), Le32(FOOTER_MAGIC), k);
    }
  }
}
