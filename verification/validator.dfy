/** The validator: an independent pass over the files, and what its verdict means for a mount. */
module Validation {
  import opened Bytes
  import opened Crc
  import opened Codec
  import opened ManifestCodec
  import opened Scan
  import opened LogReplay
  import opened Layout
  import opened Disk
  import opened Slots
  import opened Coherence
  import opened Session
  import opened SessionCompaction
  import opened CompactionStep
  import opened Mounting

  datatype Report = Report(ok: bool, errors: nat, stoppedEarly: bool, checkedRecords: nat)

  const CLEAN := Report(true, 0, false, 0)

  /** addErr: count the error, or stop when enough have been counted. */
  function AddErr(r: Report, maxErrors: nat): (r': Report)
    ensures !r'.ok
  {
    if r.errors < maxErrors then r.(ok := false, errors := r.errors + 1) else r.(ok := false, stoppedEarly := true)
  }

  predicate Overlap(a: Range, b: Range) {
    (if a.startGen > b.startGen then a.startGen else b.startGen) <= (if a.endGen < b.endGen then a.endGen else b.endGen)
  }

  /** What the validator demands of the manifest itself. */
  predicate StructureOk(m: Manifest) {
    && (forall i | 0 <= i < |m.ranges| :: 0 < m.ranges[i].startGen <= m.ranges[i].endGen < 0xFFFF_FFFF)
    && (forall i, j | 0 <= i < j < |m.ranges| :: !Overlap(m.ranges[i], m.ranges[j]))
    && (m.tailGeneration != 0 ==> forall i | 0 <= i < |m.ranges| :: !InRange(m.tailGeneration, m.ranges[i]))
    && (forall i | 0 <= i < |m.ranges| :: m.ranges[i].endGen < m.nextGeneration)
    && (m.tailGeneration != 0 ==> m.tailGeneration < m.nextGeneration)
  }

  predicate TailValid(d: Files, g: u32, limit: RecordLimit) {
    HeaderOk(d, g) && SegmentScan(d, g, limit).stop != Corrupt
  }

  /** A clean report. */
  ghost predicate Validates(d: Files, limit: RecordLimit) {
    if Winner(d).None? then SlotA !in d && SlotB !in d && NoSegments(d)
    else
      var m := Winner(d).value;
      && StructureOk(m)
      && (forall g | g in Flatten(m.ranges) :: SealedOk(d, g, limit))
      && (m.tailGeneration != 0 ==> TailValid(d, m.tailGeneration, limit))
  }

  // The passes.

  /** The checks on ranges, tail and next generation. */
  method CheckStructure(m: Manifest) returns (ok: bool)
    ensures ok <==> StructureOk(m)
  {
    var maxSealedGen: u32 := 0;
    var i := 0;
    while i < |m.ranges|
      invariant 0 <= i <= |m.ranges|
      invariant forall k | 0 <= k < i :: 0 < m.ranges[k].startGen <= m.ranges[k].endGen < 0xFFFF_FFFF
      invariant forall k | 0 <= k < i :: m.ranges[k].endGen <= maxSealedGen
      invariant maxSealedGen == 0 || exists k :: 0 <= k < i && m.ranges[k].endGen == maxSealedGen
    {
      var r := m.ranges[i];
      if r.startGen == 0 || r.endGen == 0 || r.startGen > r.endGen || r.endGen == 0xFFFF_FFFF { return false; }
      if r.endGen > maxSealedGen {
        maxSealedGen := r.endGen;
      }
      i := i + 1;
    }
    var apart := CheckOverlap(m.ranges);
    if !apart { return false; }
    if m.tailGeneration != 0 {
      i := 0;
      while i < |m.ranges|
        invariant 0 <= i <= |m.ranges|
        invariant forall k | 0 <= k < i :: !InRange(m.tailGeneration, m.ranges[k])
      {
        if m.ranges[i].startGen <= m.tailGeneration <= m.ranges[i].endGen { return false; }
        i := i + 1;
      }
    }
    var maxRefGen := if m.tailGeneration > maxSealedGen then m.tailGeneration else maxSealedGen;
    ok := !(maxRefGen > 0 && maxRefGen >= m.nextGeneration);
  }

  method CheckOverlap(ranges: seq<Range>) returns (apart: bool)
    ensures apart <==> forall i, j | 0 <= i < j < |ranges| :: !Overlap(ranges[i], ranges[j])
  {
    var i := 0;
    while i < |ranges|
      invariant 0 <= i <= |ranges|
      invariant forall k, j | 0 <= k < i && k < j < |ranges| :: !Overlap(ranges[k], ranges[j])
    {
      var j := i + 1;
      while j < |ranges|
        invariant i < j <= |ranges|
        invariant forall l | i < l < j :: !Overlap(ranges[i], ranges[l])
      {
        if Overlap(ranges[i], ranges[j]) { return false; }
        j := j + 1;
      }
      i := i + 1;
    }
    apart := true;
  }

  /** A field of a range that was read is the field of the file. */
  lemma FieldsRead(b: seq<byte>, off: nat, size: nat, at: nat)
    requires off + size <= |b|
    ensures at + 4 <= size ==> De32(b[off..off + size], at) == De32(b, off + at)
    ensures at + 2 <= size ==> De16(b[off..off + size], at) == De16(b, off + at)
  {
  }

  /** A record event: its header has been read; payload and trailer are read in one more piece. */
  method ReadRecordEvent(fs: FileSystem, name: Name, offset: nat, remaining: nat, headerBuf: seq<byte>, limit: RecordLimit)
    returns (step: Step)
    requires name in fs.files && offset + remaining == |fs.files[name]| && 4 <= |headerBuf|
    requires |headerBuf| == (if remaining < ENQUEUE_HEADER_BYTES then remaining else ENQUEUE_HEADER_BYTES)
    requires headerBuf == fs.files[name][offset..offset + |headerBuf|]
    ensures step == NextRecord(fs.files[name], offset, limit)
  {
    hide Crc32, RecordHeader, De32, De16;
    ghost var b := fs.files[name];
    FieldsRead(b, offset, |headerBuf|, 0);
    FieldsRead(b, offset, |headerBuf|, 4);
    FieldsRead(b, offset, |headerBuf|, 6);
    FieldsRead(b, offset, |headerBuf|, 8);
    FieldsRead(b, offset, |headerBuf|, 12);
    if |headerBuf| < ENQUEUE_HEADER_BYTES { return TooShort; }
    var magic, sequence, payloadBytes := De32(headerBuf, 0), De32(headerBuf, 8), De32(headerBuf, 12);
    if De16(headerBuf, 4) != FORMAT_VERSION || De16(headerBuf, 6) != ENQUEUE_HEADER_BYTES { return Invalid; }
    if payloadBytes > limit { return Invalid; }
    var totalEventBytes := ENQUEUE_OVERHEAD_BYTES + payloadBytes;
    if totalEventBytes > remaining { return TooShort; }
    var payloadAndTrailer := fs.ReadAt(name, offset + ENQUEUE_HEADER_BYTES, payloadBytes + EVENT_TRAILER_BYTES);
    var payload := payloadAndTrailer[..payloadBytes];
    FieldsRead(b, offset + ENQUEUE_HEADER_BYTES, payloadBytes + EVENT_TRAILER_BYTES, payloadBytes);
    FieldsRead(b, offset + ENQUEUE_HEADER_BYTES, payloadBytes + EVENT_TRAILER_BYTES, payloadBytes + 4);
    assert payload == b[offset + 16..offset + 16 + payloadBytes];
    var expectedCrc := TableCrc32(RecordHeader(magic, sequence, payloadBytes) + payload);
    if De32(payloadAndTrailer, payloadBytes) != expectedCrc || De32(payloadAndTrailer, payloadBytes + 4) != FOOTER_MAGIC {
      return Invalid;
    }
    step := Got(if magic == ENQUEUE_MAGIC then Enqueue(sequence, payload) else Rewrite(sequence, payload), totalEventBytes);
  }

  /** A POP event, read in one piece. */
  method ReadPopEvent(fs: FileSystem, name: Name, offset: nat, remaining: nat) returns (step: Step)
    requires name in fs.files && offset + remaining == |fs.files[name]| && 4 <= remaining
    ensures step == NextPop(fs.files[name], offset)
  {
    hide Crc32, PopHeader, De32, De16;
    if remaining < POP_EVENT_BYTES { return TooShort; }
    ghost var b := fs.files[name];
    var popBuf := fs.ReadAt(name, offset, POP_EVENT_BYTES);
    FieldsRead(b, offset, POP_EVENT_BYTES, 4);
    FieldsRead(b, offset, POP_EVENT_BYTES, 6);
    FieldsRead(b, offset, POP_EVENT_BYTES, 8);
    FieldsRead(b, offset, POP_EVENT_BYTES, 12);
    FieldsRead(b, offset, POP_EVENT_BYTES, 16);
    var sequence := De32(popBuf, 8);
    var eventCrc := TableCrc32(PopHeader(sequence));
    if De16(popBuf, 4) != FORMAT_VERSION || De16(popBuf, 6) != POP_EVENT_BYTES || De32(popBuf, 16) != FOOTER_MAGIC
       || De32(popBuf, 12) != eventCrc {
      return Invalid;
    }
    step := Got(Pop(sequence), POP_EVENT_BYTES);
  }

  /** The validator's own reader, which reads an event in pieces, sees the same event as the scan of a mount, and the same
      reason to stop. */
  method ReadEvent(fs: FileSystem, name: Name, offset: nat, limit: RecordLimit) returns (step: Step)
    requires name in fs.files && offset < |fs.files[name]|
    ensures step == NextEvent(fs.files[name], offset, limit)
  {
    hide NextRecord, NextPop, De32;
    var remaining := |fs.files[name]| - offset;
    if remaining < 4 { return TooShort; }
    var toRead := if remaining < ENQUEUE_HEADER_BYTES then remaining else ENQUEUE_HEADER_BYTES;
    var headerBuf := fs.ReadAt(name, offset, toRead);
    FieldsRead(fs.files[name], offset, toRead, 0);
    var magic := De32(headerBuf, 0);
    if magic == ENQUEUE_MAGIC || magic == REWRITE_MAGIC {
      step := ReadRecordEvent(fs, name, offset, remaining, headerBuf, limit);
    } else if magic == POP_MAGIC {
      step := ReadPopEvent(fs, name, offset, remaining);
    } else {
      step := Invalid;
    }
  }

  /** How one segment's events end, and how many there are. */
  method ScanStop(fs: FileSystem, name: Name, gen: u32, limit: RecordLimit) returns (stop: Stop, checked: nat)
    requires name in fs.files && |fs.files[name]| >= SEGMENT_HEADER_BYTES
    ensures stop == ScanFrom(fs.files[name], SEGMENT_HEADER_BYTES, gen, limit).stop
    ensures checked == |ScanFrom(fs.files[name], SEGMENT_HEADER_BYTES, gen, limit).events|
  {
    hide NextEvent;
    ghost var b := fs.files[name];
    ghost var all := ScanFrom(b, SEGMENT_HEADER_BYTES, gen, limit);
    stop, checked := Clean, 0;
    var offset := SEGMENT_HEADER_BYTES;
    while offset < |fs.files[name]|
      invariant SEGMENT_HEADER_BYTES <= offset <= |b| && stop == Clean
      invariant all.stop == ScanFrom(b, offset, gen, limit).stop
      invariant |all.events| == checked + |ScanFrom(b, offset, gen, limit).events|
    {
      var step := ReadEvent(fs, name, offset, limit);
      if step.TooShort? { stop := Torn; break; }
      if step.Invalid? { stop := Corrupt; break; }
      GotSize(b, offset, limit);
      checked := checked + 1;
      offset := offset + step.size;
    }
  }

  /** scanSegment for one generation that is known to be there. */
  method ScanSegment(fs: FileSystem, gen: u32, isTail: bool, maxErrors: nat, limit: RecordLimit, r: Report) returns (r': Report)
    requires Present(fs.files, gen)
    ensures r'.ok <==> r.ok && (if isTail then TailValid(fs.files, gen, limit) else SealedOk(fs.files, gen, limit))
    ensures r'.stoppedEarly ==> r.stoppedEarly || !r'.ok
    ensures r'.ok ==> r'.errors == r.errors
  {
    hide ScanFrom, HeaderNames;
    var b := fs.files[Segment(gen)];
    if !HeaderNames(b, gen) { return AddErr(r, maxErrors); }
    var stop, checked := ScanStop(fs, Segment(gen), gen, limit);
    r' := r.(checkedRecords := r.checkedRecords + checked);
    if stop == Corrupt {
      r' := AddErr(r', maxErrors);
    } else if stop == Torn && !isTail {
      r' := AddErr(r', maxErrors);
    }
  }

  /** Every listed segment is there and has room for a header. */
  method CheckPresent(fs: FileSystem, gens: seq<u32>, maxErrors: nat, r: Report) returns (r': Report)
    requires r == CLEAN
    ensures r'.ok <==> forall g | g in gens :: Present(fs.files, g)
    ensures r'.ok ==> r' == CLEAN
  {
    r' := r;
    var i := 0;
    while i < |gens|
      invariant 0 <= i <= |gens|
      invariant r'.ok <==> forall k | 0 <= k < i :: Present(fs.files, gens[k])
      invariant r'.ok ==> r' == CLEAN
    {
      if !r'.stoppedEarly && (Segment(gens[i]) !in fs.files || |fs.files[Segment(gens[i])]| < SEGMENT_HEADER_BYTES) {
        r' := AddErr(r', maxErrors);
      }
      i := i + 1;
    }
  }

  /** The scan pass over the sealed segments. */
  method ScanSealed(fs: FileSystem, gens: seq<u32>, maxErrors: nat, limit: RecordLimit, r: Report) returns (r': Report)
    requires r == CLEAN && forall g | g in gens :: Present(fs.files, g)
    ensures r'.ok <==> forall g | g in gens :: SealedOk(fs.files, g, limit)
    ensures r'.stoppedEarly ==> !r'.ok
    ensures r'.ok ==> r'.errors == 0
  {
    hide SealedOk, TailValid;
    r' := r;
    var i := 0;
    while i < |gens| && !r'.stoppedEarly
      invariant 0 <= i <= |gens|
      invariant r'.ok <==> forall k | 0 <= k < i :: SealedOk(fs.files, gens[k], limit)
      invariant r'.stoppedEarly ==> !r'.ok
      invariant r'.ok ==> r'.errors == 0
    {
      r' := ScanSegment(fs, gens[i], false, maxErrors, limit, r');
      i := i + 1;
    }
  }

  // The guard on the number of segments.

  lemma {:induction false} FlattenHas(rs: seq<Range>, g: u32)
    ensures g in Flatten(rs) <==> exists i :: 0 <= i < |rs| && InRange(g, rs[i])
  {
    hide Gens;
    if rs != [] {
      GensMembers(rs[0]);
      FlattenHas(rs[1..], g);
      if i :| 0 <= i < |rs| && InRange(g, rs[i]) {
        if i > 0 {
          assert InRange(g, rs[1..][i - 1]);
        }
      }
      if i :| 0 <= i < |rs[1..]| && InRange(g, rs[1..][i]) {
        assert InRange(g, rs[i + 1]);
      }
    }
  }

  /** Ranges that do not overlap list every generation once. */
  lemma {:induction false} ApartDistinct(rs: seq<Range>)
    requires forall i, j | 0 <= i < j < |rs| :: !Overlap(rs[i], rs[j])
    ensures Distinct(Flatten(rs))
  {
    hide Gens;
    if rs != [] {
      var rest := rs[1..];
      forall i, j | 0 <= i < j < |rest| ensures !Overlap(rest[i], rest[j]) {
        assert rest[i] == rs[i + 1] && rest[j] == rs[j + 1];
      }
      ApartDistinct(rest);
      GensDistinct(rs[0]);
      GensMembers(rs[0]);
      forall g | g in Gens(rs[0]) ensures g !in Flatten(rest) {
        FlattenHas(rest, g);
        assert forall k | 0 <= k < |rest| :: !Overlap(rs[0], rest[k]) by {
          assert forall k | 0 <= k < |rest| :: rest[k] == rs[k + 1];
        }
      }
      DistinctParts(Gens(rs[0]), Flatten(rest));
    }
  }

  lemma GenSetPush(gens: seq<u32>, g: u32)
    requires g !in gens
    ensures |GenSet(gens + [g])| == |GenSet(gens)| + 1
  {
    assert GenSet(gens + [g]) == GenSet(gens) + {g};
  }

  lemma {:induction false} DistinctSize(gens: seq<u32>)
    requires Distinct(gens)
    ensures |GenSet(gens)| == |gens|
  {
    hide Distinct;
    if gens != [] {
      var init, last := gens[..|gens| - 1], gens[|gens| - 1];
      assert gens == init + [last];
      DistinctParts(init, [last]);
      DistinctSize(init);
      GenSetPush(init, last);
    }
  }

  /** Distinct generations whose segments are all there are no more than the segment files. */
  lemma ListedFit(d: Files, gens: seq<u32>, files: seq<u32>)
    requires Distinct(gens) && Distinct(files)
    requires forall g | g in gens :: g in files
    ensures |gens| <= |files|
  {
    DistinctSize(gens);
    DistinctSize(files);
    var a, b := GenSet(gens), GenSet(files);
    assert a <= b;
    assert b == a + (b - a);
  }

  lemma StructureDistinct(m: Manifest)
    requires StructureOk(m)
    ensures AllFormed(m.ranges) && Distinct(ActiveOf(m)) && SpanTotal(m.ranges) == |Flatten(m.ranges)|
  {
    hide Flatten;
    ApartDistinct(m.ranges);
    assert AllFormed(m.ranges) by {
      forall r | r in m.ranges ensures RangeFormed(r) {
        var i :| 0 <= i < |m.ranges| && m.ranges[i] == r;
      }
    }
    SpanTotalIsLength(m.ranges);
    if m.tailGeneration != 0 {
      FlattenHas(m.ranges, m.tailGeneration);
      DistinctParts(Flatten(m.ranges), [m.tailGeneration]);
    }
  }

  /** The guard against manifests that name more segments than there are never turns down a store that would pass. */
  lemma GuardPasses(d: Files, m: Manifest, files: seq<u32>)
    requires StructureOk(m) && Listing(d, files)
    requires forall g | g in ActiveOf(m) :: Present(d, g)
    ensures (if m.tailGeneration != 0 then 1 else 0) + SpanTotal(m.ranges) <= |files|
  {
    hide Flatten, Distinct;
    StructureDistinct(m);
    assert forall g | g in ActiveOf(m) :: g in files;
    ListedFit(d, ActiveOf(m), files);
  }

  method CheckCount(m: Manifest, segmentFileCount: nat) returns (ok: bool)
    requires StructureOk(m)
    ensures ok <==> m.ranges == [] || (if m.tailGeneration != 0 then 1 else 0) + SpanTotal(m.ranges) <= segmentFileCount
  {
    var tail := if m.tailGeneration != 0 then 1 else 0;
    var referenced: int := tail;
    var i := 0;
    while i < |m.ranges|
      invariant 0 <= i <= |m.ranges|
      invariant referenced + SpanTotal(m.ranges[i..]) == tail + SpanTotal(m.ranges)
      invariant i > 0 ==> referenced <= segmentFileCount
    {
      referenced := referenced + (m.ranges[i].endGen - m.ranges[i].startGen + 1);
      assert m.ranges[i..][1..] == m.ranges[i + 1..];
      SpanPositive(m.ranges[i + 1..], m);
      if referenced > segmentFileCount { return false; }
      i := i + 1;
    }
    ok := true;
  }

  lemma {:induction false} SpanPositive(rs: seq<Range>, m: Manifest)
    requires StructureOk(m) && |rs| <= |m.ranges| && rs == m.ranges[|m.ranges| - |rs|..]
    ensures SpanTotal(rs) >= 0
  {
    if rs != [] {
      assert rs[0] == m.ranges[|m.ranges| - |rs|];
      SpanPositive(rs[1..], m);
    }
  }

  /** validateUnlocked: the whole pass. It reports a clean store exactly when each of its parts is sound. */
  method ValidateUnlocked(fs: FileSystem, maxErrors: nat, limit: RecordLimit) returns (r: Report)
    ensures r.ok <==> Validates(fs.files, limit)
    ensures r.ok ==> r.errors == 0 && !r.stoppedEarly
  {
    hide HeaderNames, ScanFrom, StructureOk, Parse, Listing, Flatten, SpanTotal, Distinct;
    r := CLEAN;
    var a := if SlotA in fs.files then Parse(fs.files[SlotA]) else None;
    var b := if SlotB in fs.files then Parse(fs.files[SlotB]) else None;
    var segments := ListSegments(fs);
    ListingNone(fs.files, segments);
    if a.None? && b.None? {
      if SlotA in fs.files || SlotB in fs.files || segments != [] { r := AddErr(r, maxErrors); }
      return;
    }
    var winning := if a.Some? && b.Some? then (if b.value.epoch > a.value.epoch then b.value else a.value)
                   else if a.Some? then a.value else b.value;
    assert Winner(fs.files) == Some(winning);
    r := ValidateManifest(fs, winning, segments, maxErrors, limit);
  }

  /** The pass over the winning manifest and its segments. */
  method ValidateManifest(fs: FileSystem, m: Manifest, segments: seq<u32>, maxErrors: nat, limit: RecordLimit) returns (r: Report)
    requires Winner(fs.files) == Some(m) && Listing(fs.files, segments)
    ensures r.ok <==> Validates(fs.files, limit)
    ensures r.ok ==> r.errors == 0 && !r.stoppedEarly
  {
    hide HeaderNames, ScanFrom, StructureOk, Winner, Listing, Flatten, SpanTotal;
    r := CLEAN;
    var structured := CheckStructure(m);
    if !structured { return AddErr(r, maxErrors); }
    var counted := CheckCount(m, |segments|);
    var sealedGens := Flatten(m.ranges);
    var listed := if m.tailGeneration != 0 then sealedGens + [m.tailGeneration] else sealedGens;
    PresentOrNot(fs.files, m, limit);
    if !counted {
      if forall g | g in listed :: Present(fs.files, g) {
        GuardPasses(fs.files, m, segments);
      }
      return AddErr(r, maxErrors);
    }
    r := CheckPresent(fs, listed, maxErrors, r);
    if !r.ok { return; }
    r := ScanSealed(fs, sealedGens, maxErrors, limit, r);
    if m.tailGeneration != 0 && !r.stoppedEarly {
      r := ScanSegment(fs, m.tailGeneration, true, maxErrors, limit, r);
    }
  }

  /** A store that validates has all its segments. */
  lemma PresentOrNot(d: Files, m: Manifest, limit: RecordLimit)
    ensures (&& (forall g | g in Flatten(m.ranges) :: SealedOk(d, g, limit))
             && (m.tailGeneration != 0 ==> TailValid(d, m.tailGeneration, limit)))
            ==> forall g | g in ActiveOf(m) :: Present(d, g)
  {
    hide Flatten, SegmentScan;
    forall g | g in ActiveOf(m) && HeaderOk(d, g) ensures Present(d, g) {
      HeaderLength(d, g);
    }
  }

  /** A clean report within the mount limits means that a mount succeeds: the validator accepts only what the scanner does. */
  lemma ValidMounts(d: Files, limit: RecordLimit)
    requires Validates(d, limit)
    ensures Mountable(d, limit) <==> WithinMountLimits(d)
  {
    hide HeaderNames, SegmentScan, Winner, Flatten, SpanTotal, Distinct;
    if Winner(d).Some? {
      var m := Winner(d).value;
      var gens := ActiveOf(m);
      StructureDistinct(m);
      WinnerFormed(d);
      TailLast(m);
      if WithinMountLimits(d) {
        forall i | 0 <= i < |gens| ensures SegmentAccepted(d, gens[i], i + 1 == |gens|, limit) {
          assert gens[i] in gens;
          if gens[i] != m.tailGeneration {
            assert gens[i] in Flatten(m.ranges);
          }
          HeaderLength(d, gens[i]);
        }
      }
      if Mountable(d, limit) {
        forall g | g in gens ensures |Content(d, g)| <= MAX_REPLAY_SEGMENT_BYTES {
          var i :| 0 <= i < |gens| && gens[i] == g;
          assert SegmentAccepted(d, gens[i], i + 1 == |gens|, limit);
        }
      }
    }
  }

  /** Every state a crash can leave of an initialised store is reported clean, unless its tail ends in bytes that cannot even
      begin an event. */
  lemma CoherentValidates(d: Files, limit: RecordLimit)
    requires Coherent(d, limit)
    ensures Validates(d, limit) <==> (Winner(d).Some? ==> SegmentScan(d, Winner(d).value.tailGeneration, limit).stop != Corrupt)
  {
    hide HeaderNames, SegmentScan, Winner, Flatten, Records, Good;
    if Winner(d).Some? {
      var m := Winner(d).value;
      ShapeStructure(m);
    }
  }

  lemma ShapeStructure(m: Manifest)
    requires Shape(m.ranges, m.tailGeneration, m.nextGeneration)
    ensures StructureOk(m)
  {
    hide Flatten, Distinct;
    TailActive(m);
    DistinctParts(Flatten(m.ranges), [m.tailGeneration]);
    forall i | 0 <= i < |m.ranges|
      ensures 0 < m.ranges[i].startGen <= m.ranges[i].endGen < m.nextGeneration && !InRange(m.tailGeneration, m.ranges[i])
    {
      assert m.ranges[i] in m.ranges;
      FlattenMember(m.ranges, i, m.ranges[i].endGen);
      assert m.ranges[i].endGen in ActiveOf(m) && m.tailGeneration in ActiveOf(m);
      if InRange(m.tailGeneration, m.ranges[i]) {
        FlattenMember(m.ranges, i, m.tailGeneration);
      }
    }
    forall i, j | 0 <= i < j < |m.ranges| ensures !Overlap(m.ranges[i], m.ranges[j]) {
      var g := if m.ranges[i].startGen > m.ranges[j].startGen then m.ranges[i].startGen else m.ranges[j].startGen;
      if Overlap(m.ranges[i], m.ranges[j]) {
        RangesApart(m.ranges, i, j, g);
      }
    }
  }

  /** What the validator demands of a manifest is exactly what the store keeps: every generation is listed once, and the next one is
      unused. */
  lemma StructureExact(m: Manifest)
    requires Formed(m)
    ensures StructureOk(m) <==> m.tailGeneration == 0 || Shape(m.ranges, m.tailGeneration, m.nextGeneration)
  {
    hide Flatten, Distinct;
    if m.tailGeneration != 0 && StructureOk(m) {
      StructureDistinct(m);
      forall g | g in ActiveOf(m) ensures g < m.nextGeneration {
        FlattenHas(m.ranges, g);
      }
    }
    if m.tailGeneration != 0 && Shape(m.ranges, m.tailGeneration, m.nextGeneration) {
      ShapeStructure(m);
    }
  }

  /** A durable session always validates, unless something is left over behind its tail's last event. */
  lemma DurableValidates(d: Files, r: Ram, limit: RecordLimit)
    requires LayoutOk(d, r) && DurableOk(d, r, limit) && Tidy(d, r)
    ensures Validates(d, limit)
  {
    hide HeaderNames, Winner, Flatten, Records, Good, ScanFrom;
    DurableView(d, r, limit);
    CoherentValidates(d, limit);
    if Winner(d).Some? {
      TailPresent(d, r);
      WinnerManifest(d, r);
      TidyClean(d, r, Winner(d).value, limit);
    }
  }
}