/** The segments a compaction writes: their bytes, and the log they hold. */
module CompactionOutput {
  import opened Bytes
  import opened Codec
  import opened ManifestCodec
  import opened Scan
  import opened LogReplay
  import opened LogCompaction
  import opened Layout
  import opened Disk
  import opened Slots
  import opened Coherence
  import opened Session
  import opened SessionCompaction
  import opened Packing

  /** Every index names one of n records. */
  predicate InBounds(indices: seq<nat>, n: nat) {
    forall j | 0 <= j < |indices| :: indices[j] < n
  }

  predicate AllWithin(items: seq<Item>, limit: RecordLimit) {
    forall i | 0 <= i < |items| :: |items[i].payload| <= limit
  }

  function EnqueueOf(x: Item): Event {
    Enqueue(x.sequence, x.payload)
  }

  /** An ENQUEUE for each item, one behind the other. */
  function EncodeAll(items: seq<Item>, limit: RecordLimit): seq<byte>
    requires AllWithin(items, limit)
  {
    if items == [] then []
    else EncodeAll(items[..|items| - 1], limit) + Encode(EnqueueOf(items[|items| - 1]))
  }

  function SegmentBytes(gen: u32, startSeq: u32, items: seq<Item>, limit: RecordLimit): seq<byte>
    requires AllWithin(items, limit)
  {
    SegmentHeader(gen, startSeq) + EncodeAll(items, limit)
  }

  /** The events of a segment that holds these items. */
  function EventsOf(gen: u32, items: seq<Item>, limit: RecordLimit): (log: seq<Logged>)
    requires AllWithin(items, limit)
    ensures |log| == |items|
  {
    if items == [] then []
    else
      var init := items[..|items| - 1];
      EventsOf(gen, init, limit) + [Logged(EnqueueOf(items[|items| - 1]), gen, SEGMENT_HEADER_BYTES + |EncodeAll(init, limit)|)]
  }

  lemma {:induction false} EventsAreItems(gen: u32, items: seq<Item>, limit: RecordLimit)
    requires AllWithin(items, limit)
    ensures forall i | 0 <= i < |items| :: EventsOf(gen, items, limit)[i].event == EnqueueOf(items[i])
  {
    hide EncodeAll;
    if items != [] {
      EventsAreItems(gen, items[..|items| - 1], limit);
    }
  }

  /** What one more item adds. */
  lemma BuildStep(g: u32, startSeq: u32, items: seq<Item>, limit: RecordLimit)
    requires items != [] && AllWithin(items, limit)
    ensures var init, e := items[..|items| - 1], EnqueueOf(items[|items| - 1]);
            && AllWithin(init, limit) && Within(e, limit)
            && SegmentBytes(g, startSeq, items, limit) == SegmentBytes(g, startSeq, init, limit) + Encode(e)
            && |EncodeAll(items, limit)| == |EncodeAll(init, limit)| + SizeOf(e)
            && EventsOf(g, items, limit) == EventsOf(g, init, limit) + [Logged(e, g, SEGMENT_HEADER_BYTES + |EncodeAll(init, limit)|)]
  {
    hide SegmentHeader, Encode;
    var init, e := items[..|items| - 1], EnqueueOf(items[|items| - 1]);
    assert SegmentHeader(g, startSeq) + (EncodeAll(init, limit) + Encode(e)) == SegmentHeader(g, startSeq) + EncodeAll(init, limit) + Encode(e);
  }

  lemma BuildNone(g: u32, startSeq: u32, limit: RecordLimit)
    ensures SegmentBytes(g, startSeq, [], limit) == SegmentHeader(g, startSeq)
    ensures EventsOf(g, [], limit) == [] && EncodeAll([], limit) == []
    ensures ScanFrom(SegmentHeader(g, startSeq), SEGMENT_HEADER_BYTES, g, limit) == Scanned([], SEGMENT_HEADER_BYTES, Clean)
  {
    hide SegmentHeader;
    assert SegmentHeader(g, startSeq) + [] == SegmentHeader(g, startSeq);
  }

  /** Scanning the written bytes gives the items back, every byte accounted for. */
  lemma {:induction false} WrittenScan(gen: u32, startSeq: u32, items: seq<Item>, limit: RecordLimit)
    requires AllWithin(items, limit)
    ensures var b := SegmentBytes(gen, startSeq, items, limit);
            && |b| == SEGMENT_HEADER_BYTES + |EncodeAll(items, limit)|
            && ScanFrom(b, SEGMENT_HEADER_BYTES, gen, limit) == Scanned(EventsOf(gen, items, limit), |b|, Clean)
  {
    hide SegmentHeader, Encode, ScanFrom, EncodeAll, EventsOf, SegmentBytes, AllWithin;
    if items == [] {
      BuildNone(gen, startSeq, limit);
    } else {
      BuildStep(gen, startSeq, items, limit);
      WrittenScan(gen, startSeq, items[..|items| - 1], limit);
      AppendScan(SegmentBytes(gen, startSeq, items[..|items| - 1], limit), EnqueueOf(items[|items| - 1]),
                 SEGMENT_HEADER_BYTES, gen, limit);
    }
  }

  lemma WrittenSealed(d: Files, gen: u32, startSeq: u32, items: seq<Item>, limit: RecordLimit)
    requires AllWithin(items, limit)
    requires Segment(gen) in d && d[Segment(gen)] == SegmentBytes(gen, startSeq, items, limit)
    ensures SealedOk(d, gen, limit) && SegmentScan(d, gen, limit).events == EventsOf(gen, items, limit)
  {
    hide HeaderNames, ScanFrom, EncodeAll, EventsOf;
    WrittenScan(gen, startSeq, items, limit);
    HeaderAccepted(gen, startSeq, EncodeAll(items, limit), gen);
  }

  /** One more output segment. */
  lemma OutputAdded(d: Files, bytes: map<u32, nat>, gens: seq<u32>, items: seq<Item>, g: u32, startSeq: u32,
                    more: seq<Item>, limit: RecordLimit)
    requires OutputOk(d, bytes, gens, items, limit) && g !in gens && AllWithin(more, limit)
    ensures var b := SegmentBytes(g, startSeq, more, limit);
            var d' := d[Segment(g) := b];
            && OutputOk(d', bytes[g := |b|], gens + [g], items + more, limit)
            && LogOf(d', gens + [g], limit) == LogOf(d, gens, limit) + EventsOf(g, more, limit)
  {
    hide HeaderNames, SegmentScan, EncodeAll, EventsOf, SegmentBytes, LogOf;
    var b := SegmentBytes(g, startSeq, more, limit);
    var d' := d[Segment(g) := b];
    WrittenSealed(d', g, startSeq, more, limit);
    LogLast(d', gens, g, limit);
    EventsAreItems(g, more, limit);
    LogAgrees(d, d', gens, limit);
    forall x | x in gens ensures SealedOk(d', x, limit) {
      assert SealedOk(d, x, limit);
      SegmentUnchanged(d, d', x, limit);
    }
  }

  /** The live records that the indices name. */
  function Pick(live: seq<Item>, indices: seq<nat>): (items: seq<Item>)
    requires InBounds(indices, |live|)
    ensures |items| == |indices|
  {
    seq(|indices|, j requires 0 <= j < |indices| => live[indices[j]])
  }

  lemma PickAll(live: seq<Item>)
    ensures Pick(live, UpTo(|live|)) == live
  {
  }

  lemma PickConcat(live: seq<Item>, a: seq<nat>, b: seq<nat>)
    requires InBounds(a, |live|) && InBounds(b, |live|)
    ensures InBounds(a + b, |live|)
    ensures Pick(live, a + b) == Pick(live, a) + Pick(live, b)
  {
  }

  function PayloadSizes(live: seq<Item>): (ps: seq<nat>)
    ensures |ps| == |live|
  {
    seq(|live|, i requires 0 <= i < |live| => |live[i].payload|)
  }

  lemma PickWithin(live: seq<Item>, indices: seq<nat>, limit: RecordLimit)
    requires AllWithin(live, limit) && InBounds(indices, |live|)
    ensures AllWithin(Pick(live, indices), limit)
  {
  }

  lemma RepsConcat(a: seq<Logged>, b: seq<Logged>)
    requires EnqueuesOnly(a)
    requires EnqueuesOnly(b)
    ensures Reps(a + b) == Reps(a) + Reps(b)
  {
  }

  lemma PickStep(live: seq<Item>, indices: seq<nat>, i: nat)
    requires InBounds(indices, |live|) && i < |indices|
    ensures Pick(live, indices)[..i + 1][..i] == Pick(live, indices)[..i]
    ensures Pick(live, indices)[i] == live[indices[i]]
  {
  }

  /** The bytes of an output are as many as the packing reckoned. */
  lemma {:induction false} WrittenSize(gen: u32, startSeq: u32, live: seq<Item>, indices: seq<nat>, limit: RecordLimit)
    requires InBounds(indices, |live|) && AllWithin(Pick(live, indices), limit)
    ensures |SegmentBytes(gen, startSeq, Pick(live, indices), limit)| == SegmentSize(PayloadSizes(live), indices)
  {
    hide SegmentHeader, Encode, SegmentBytes, EncodeAll, EventsOf;
    BuildNone(gen, startSeq, limit);
    if indices == [] {
      assert Pick(live, indices) == [];
    } else {
      var init := indices[..|indices| - 1];
      assert Pick(live, indices)[..|indices| - 1] == Pick(live, init);
      BuildStep(gen, startSeq, Pick(live, indices), limit);
      WrittenSize(gen, startSeq, live, init, limit);
    }
  }

  /** The bytes of one output segment and the new index entries of its records, built event by event. */
  method BuildSegment(live: seq<Item>, seg: OutputSeg, limit: RecordLimit) returns (data: seq<byte>, reps: seq<Rec>)
    requires seg.indices != [] && InBounds(seg.indices, |live|) && AllWithin(Pick(live, seg.indices), limit)
    requires 0 <= seg.gen < 0x1_0000_0000
    ensures data == SegmentBytes(seg.gen, live[seg.indices[0]].sequence, Pick(live, seg.indices), limit)
    ensures Events(seg.gen, Pick(live, seg.indices), limit, reps)
  {
    hide SegmentHeader, Encode, Pick, SegmentBytes, EncodeAll, EventsOf, Events;
    var g: u32 := seg.gen;
    ghost var all := Pick(live, seg.indices);
    var startSeq := live[seg.indices[0]].sequence;
    var writeOffset := SEGMENT_HEADER_BYTES;
    data := SegmentHeader(g, startSeq);
    reps := [];
    BuildNone(g, startSeq, limit);
    EventsNone(g, limit);
    var i := 0;
    while i < |seg.indices|
      invariant 0 <= i <= |seg.indices|
      invariant data == SegmentBytes(g, startSeq, all[..i], limit)
      invariant writeOffset == SEGMENT_HEADER_BYTES + |EncodeAll(all[..i], limit)|
      invariant Events(g, all[..i], limit, reps)
    {
      var lr := live[seg.indices[i]];
      PickStep(live, seg.indices, i);
      BuildStep(g, startSeq, all[..i + 1], limit);
      EventsStep(g, all[..i + 1], limit, reps);
      reps := reps + [Rec(lr.sequence, g, writeOffset + ENQUEUE_HEADER_BYTES, |lr.payload|)];
      data := data + Encode(Enqueue(lr.sequence, lr.payload));
      writeOffset := writeOffset + ENQUEUE_OVERHEAD_BYTES + |lr.payload|;
      i := i + 1;
    }
    assert all[..i] == all;
  }

  /** These are the index entries of the segment's events. */
  predicate Events(g: u32, items: seq<Item>, limit: RecordLimit, reps: seq<Rec>)
    requires AllWithin(items, limit)
  {
    var C := EventsOf(g, items, limit);
    && EnqueuesOnly(C)
    && reps == Reps(C)
  }

  lemma EventsNone(g: u32, limit: RecordLimit)
    ensures Events(g, [], limit, [])
  {
  }

  lemma EventsStep(g: u32, items: seq<Item>, limit: RecordLimit, reps: seq<Rec>)
    requires items != [] && AllWithin(items, limit)
    requires Events(g, items[..|items| - 1], limit, reps)
    ensures var x := items[|items| - 1];
            var off := SEGMENT_HEADER_BYTES + |EncodeAll(items[..|items| - 1], limit)|;
            Events(g, items, limit, reps + [Rec(x.sequence, g, off + ENQUEUE_HEADER_BYTES, |x.payload|)])
  {
    hide EncodeAll, Reps;
    var init, x := items[..|items| - 1], items[|items| - 1];
    var l := Logged(EnqueueOf(x), g, SEGMENT_HEADER_BYTES + |EncodeAll(init, limit)|);
    RepsConcat(EventsOf(g, init, limit), [l]);
    RepsOne(l.event, g, l.offset);
  }

  lemma RepsOne(e: Event, g: u32, off: nat)
    requires e.Enqueue?
    ensures Reps([Logged(e, g, off)]) == [Rec(e.sequence, g, off + ENQUEUE_HEADER_BYTES, |e.payload|)]
  {
  }

  // Writing the outputs one after the other.

  function SumBytes(bytes: map<u32, nat>, gens: seq<u32>): nat {
    if gens == [] then 0
    else
      var g := gens[|gens| - 1];
      SumBytes(bytes, gens[..|gens| - 1]) + (if g in bytes then bytes[g] else 0)
  }

  lemma {:induction false} SumBytesSame(a: map<u32, nat>, b: map<u32, nat>, gens: seq<u32>)
    requires forall g | g in gens :: g in a && g in b && a[g] == b[g]
    ensures SumBytes(a, gens) == SumBytes(b, gens)
  {
    if gens != [] {
      assert forall g | g in gens[..|gens| - 1] :: g in gens;
      SumBytesSame(a, b, gens[..|gens| - 1]);
    }
  }

  lemma {:induction false} SumBytesConcat(bytes: map<u32, nat>, a: seq<u32>, b: seq<u32>)
    ensures SumBytes(bytes, a + b) == SumBytes(bytes, a) + SumBytes(bytes, b)
  {
    if b == [] {
      assert a + b == a;
    } else {
      assert (a + b)[..|a + b| - 1] == a + b[..|b| - 1];
      SumBytesConcat(bytes, a, b[..|b| - 1]);
    }
  }

  /** k generations from next on. */
  function NewGens(next: u32, k: nat): (gens: seq<u32>)
    requires next + k <= 0x1_0000_0000
    ensures |gens| == k
  {
    seq(k, i requires 0 <= i < k => next + i)
  }

  lemma NewGensRange(next: u32, k: nat)
    requires 0 < k && next + k <= 0x1_0000_0000
    ensures Gens(Range(next, next + k - 1)) == NewGens(next, k) && Distinct(NewGens(next, k))
    ensures Flatten([Range(next, next + k - 1)]) == NewGens(next, k)
    ensures forall g | g in NewGens(next, k) :: next <= g < next + k
  {
    FlattenOne(Range(next, next + k - 1));
  }

  /** Writing a segment outside the replay order, as a whole. */
  lemma StrayState(d: Files, r: Ram, g: u32, b: seq<byte>, limit: RecordLimit, durable: bool)
    requires Sound(d, r, limit, durable, false) && r.tailGen != 0 && g !in r.gens
    ensures var d', r' := d[Segment(g) := b], StrayRam(r, g, |b|);
            && Sound(d', r', limit, durable, false)
            && Items(d', r.records) == Items(d, r.records)
            && Inactive(d') == Inactive(d) && WinningEpoch(d') == WinningEpoch(d)
            && (Segment(g) !in d ==> r'.total - Total(d') == r.total - Total(d))
            && (durable ==> CrashSafe([Write(d, WriteFile(Segment(g), b))], limit, Items(d, r.records), Items(d, r.records)))
  {
    hide SlotsOk, LayoutOk, RecordsOk, BytesOk, Items, DurableOk, CrashSafe, Total, Inactive, WinningEpoch;
    StraySession(d, r, g, b);
    if durable {
      SessionLayout(d, r);
      StrayDurable(d, r, g, b, limit);
      DurableView(d, r, limit);
    }
  }

  predicate SegsOk(segs: seq<OutputSeg>, live: seq<Item>, next: u32, limit: RecordLimit) {
    && AllWithin(live, limit)
    && next + |segs| < 0x1_0000_0000
    && forall k | 0 <= k < |segs| :: segs[k].gen == next + k && segs[k].indices != [] && InBounds(segs[k].indices, |live|)
  }

  /** The noted sizes of all generations in use are kept. */
  predicate SizesKept(r0: Ram, r: Ram) {
    forall g: u32 | g < r0.nextGen :: KeptSize(r0.sealedBytes, r.sealedBytes, g)
  }

  /** The first k outputs are written. */
  ghost predicate Written(d0: Files, r0: Ram, d: Files, r: Ram, live: seq<Item>, segs: seq<OutputSeg>, k: nat,
                          limit: RecordLimit, durable: bool, exact: bool) {
    && k <= |segs| && SegsOk(segs, live, r0.nextGen, limit) && InBounds(Joined(segs[..k]), |live|)
    && Sound(d, r, limit, durable, false) && r.tailGen != 0
    && r == r0.(total := r.total, sealedBytes := r.sealedBytes)
    && Items(d, r.records) == Items(d0, r0.records)
    && Agree(d0, d, r0.gens) && SizesKept(r0, r)
    && Inactive(d) == Inactive(d0) && WinningEpoch(d) == WinningEpoch(d0)
    && OutputOk(d, r.sealedBytes, NewGens(r0.nextGen, k), Pick(live, Joined(segs[..k])), limit)
    && (exact ==> ExactBelow(d, r, r0.nextGen + k))
    && (forall j | 0 <= j < k :: |Content(d, r0.nextGen + j)| == SegmentSize(PayloadSizes(live), segs[j].indices))
    && SumBytes(r.sealedBytes, NewGens(r0.nextGen, k)) == SizeOfAll(PayloadSizes(live), segs[..k])
  }

  lemma WrittenNone(d: Files, r: Ram, live: seq<Item>, segs: seq<OutputSeg>, limit: RecordLimit, durable: bool, exact: bool)
    requires Sound(d, r, limit, durable, exact) && r.tailGen != 0 && SegsOk(segs, live, r.nextGen, limit)
    ensures Written(d, r, d, r, live, segs, 0, limit, durable, exact)
    ensures EnqueuesOnly(LogOf(d, NewGens(r.nextGen, 0), limit)) && Reps(LogOf(d, NewGens(r.nextGen, 0), limit)) == []
  {
    hide Winner, RecordsOk, BytesOk, SlotsOk, DurableOk, Items, Total;
    assert segs[..0] == [];
    assert NewGens(r.nextGen, 0) == [];
    SumNone(r.sealedBytes);
    JoinedNone();
    SizeOfNone(PayloadSizes(live));
    assert Pick(live, []) == [];
  }

  lemma SumNone(bytes: map<u32, nat>)
    ensures SumBytes(bytes, []) == 0
  {
  }

  lemma OutputCounted(d: Files, bytes: map<u32, nat>, gens: seq<u32>, items: seq<Item>, limit: RecordLimit)
    requires OutputOk(d, bytes, gens, items, limit)
    ensures forall g | g in gens :: g in bytes
  {
  }

  /** The log and the sizes of the outputs, with one more. */
  lemma OutputStep(d: Files, bytes: map<u32, nat>, next: u32, live: seq<Item>, segs: seq<OutputSeg>, k: nat,
                   limit: RecordLimit, startSeq: u32)
    requires SegsOk(segs, live, next, limit) && k < |segs| && InBounds(Joined(segs[..k]), |live|)
    requires OutputOk(d, bytes, NewGens(next, k), Pick(live, Joined(segs[..k])), limit)
    requires SumBytes(bytes, NewGens(next, k)) == SizeOfAll(PayloadSizes(live), segs[..k])
    ensures InBounds(segs[k].indices, |live|) && AllWithin(Pick(live, segs[k].indices), limit)
    ensures InBounds(Joined(segs[..k + 1]), |live|)
    ensures var g := segs[k].gen;
            var items := Pick(live, segs[k].indices);
            var b := SegmentBytes(g, startSeq, items, limit);
            && OutputOk(d[Segment(g) := b], bytes[g := |b|], NewGens(next, k + 1), Pick(live, Joined(segs[..k + 1])), limit)
            && SumBytes(bytes[g := |b|], NewGens(next, k + 1)) == SizeOfAll(PayloadSizes(live), segs[..k + 1])
            && LogOf(d[Segment(g) := b], NewGens(next, k + 1), limit)
               == LogOf(d, NewGens(next, k), limit) + EventsOf(g, items, limit)
  {
    hide EncodeAll, EventsOf, SegmentBytes, LogOf, OutputOk, Pick, AllWithin, SegmentSize, SumBytes, SizeOfAll, Joined, InBounds,
      PayloadSizes, NewGens;
    var g: u32 := segs[k].gen;
    PickWithin(live, segs[k].indices, limit);
    var items := Pick(live, segs[k].indices);
    var gens := NewGens(next, k);
    NewGensPush(next, k);
    OutputAdded(d, bytes, gens, Pick(live, Joined(segs[..k])), g, startSeq, items, limit);
    OutputCounted(d, bytes, gens, Pick(live, Joined(segs[..k])), limit);
    assert segs[..k + 1] == segs[..k] + [segs[k]];
    JoinedPush(segs[..k], segs[k]);
    PickConcat(live, Joined(segs[..k]), segs[k].indices);
    WrittenSize(g, startSeq, live, segs[k].indices, limit);
    SizeOfAllPush(PayloadSizes(live), segs[..k], segs[k]);
    SumBytesAdd(bytes, gens, g, |SegmentBytes(g, startSeq, items, limit)|);
  }

  lemma NewGensPush(next: u32, k: nat)
    requires next + k < 0x1_0000_0000
    ensures NewGens(next, k + 1) == NewGens(next, k) + [next + k] && (next + k) !in NewGens(next, k)
  {
  }

  lemma AgreeStep(d0: Files, d: Files, gens: seq<u32>, g: u32, b: seq<byte>)
    requires Agree(d0, d, gens) && g !in gens
    ensures Agree(d0, d[Segment(g) := b], gens)
  {
  }

  /** The bookkeeping of one more output. */
  lemma WrittenStep(d0: Files, r0: Ram, d: Files, r: Ram, live: seq<Item>, segs: seq<OutputSeg>, k: nat,
                    limit: RecordLimit, durable: bool, exact: bool, startSeq: u32)
    requires Written(d0, r0, d, r, live, segs, k, limit, durable, exact) && k < |segs|
    ensures InBounds(segs[k].indices, |live|) && AllWithin(Pick(live, segs[k].indices), limit)
    ensures var g := segs[k].gen;
            var items := Pick(live, segs[k].indices);
            var b := SegmentBytes(g, startSeq, items, limit);
            && Written(d0, r0, d[Segment(g) := b], StrayRam(r, g, |b|), live, segs, k + 1, limit, durable, exact)
            && LogOf(d[Segment(g) := b], NewGens(r0.nextGen, k + 1), limit)
               == LogOf(d, NewGens(r0.nextGen, k), limit) + EventsOf(g, items, limit)
            && (durable ==> CrashSafe([Write(d, WriteFile(Segment(g), b))], limit, Items(d0, r0.records), Items(d0, r0.records)))
  {
    hide Sound, Items, EncodeAll, EventsOf, SegmentBytes, LogOf, OutputOk, CrashSafe, Pick, AllWithin, Agree, SumBytes, SizeOfAll,
      Joined, InBounds, PayloadSizes, NewGens, ExactBelow, Inactive, WinningEpoch, SizesKept;
    var g: u32 := segs[k].gen;
    OutputStep(d, r.sealedBytes, r0.nextGen, live, segs, k, limit, startSeq);
    var b := SegmentBytes(g, startSeq, Pick(live, segs[k].indices), limit);
    SoundUnused(d, r, limit, durable, g);
    StrayState(d, r, g, b, limit, durable);
    AgreeStep(d0, d, r0.gens, g, b);
    WrittenBelow(d, r, g, b, exact, r0.nextGen + k);
    WrittenSize(g, startSeq, live, segs[k].indices, limit);
    OtherContent(d, g, b);
    SizesStep(r0, r, g, |b|);
  }

  lemma SizesStep(r0: Ram, r: Ram, g: u32, n: nat)
    requires SizesKept(r0, r) && g >= r0.nextGen
    ensures SizesKept(r0, StrayRam(r, g, n))
  {
    forall h: u32 | h < r0.nextGen ensures KeptSize(r0.sealedBytes, StrayRam(r, g, n).sealedBytes, h) {
      assert KeptSize(r0.sealedBytes, r.sealedBytes, h);
    }
  }

  lemma OtherContent(d: Files, g: u32, b: seq<byte>)
    ensures Content(d[Segment(g) := b], g) == b
    ensures forall h: u32 | h != g :: Content(d[Segment(g) := b], h) == Content(d, h)
  {
  }

  /** When every record fits a segment of its own, so does every output written. */
  lemma OutputsFit(d0: Files, r0: Ram, d: Files, r: Ram, live: seq<Item>, segs: seq<OutputSeg>, max: nat, limit: RecordLimit,
                   durable: bool, exact: bool, k: nat)
    requires Written(d0, r0, d, r, live, segs, |segs|, limit, durable, exact) && k < |segs|
    requires segs == Packed(PayloadSizes(live), |live|, max, r0.nextGen) && EachFits(PayloadSizes(live), max)
    ensures |Content(d, r0.nextGen + k)| <= max
  {
    hide Sound, Items, Packed, OutputOk, ExactBelow, Joined, Agree, SumBytes, SizeOfAll, SegmentSize, PayloadSizes, NewGens, Pick,
      EachFits, Inactive, WinningEpoch;
    PackedFits(PayloadSizes(live), |live|, max, r0.nextGen);
    assert segs[k] in segs;
  }

  lemma SoundUnused(d: Files, r: Ram, limit: RecordLimit, durable: bool, g: u32)
    requires Sound(d, r, limit, durable, false) && r.nextGen <= g
    ensures g !in r.gens
  {
  }

  lemma SumBytesAdd(bytes: map<u32, nat>, gens: seq<u32>, g: u32, n: nat)
    requires g !in gens && forall x | x in gens :: x in bytes
    ensures SumBytes(bytes[g := n], gens + [g]) == SumBytes(bytes, gens) + n
  {
    SumBytesSame(bytes, bytes[g := n], gens);
    assert (gens + [g])[..|gens|] == gens;
  }

  lemma WrittenBelow(d: Files, r: Ram, g: u32, b: seq<byte>, exact: bool, next: int)
    requires g == next && (exact ==> ExactBelow(d, r, next))
    ensures exact ==> ExactBelow(d[Segment(g) := b], StrayRam(r, g, |b|), next + 1)
  {
    hide Total;
    TotalWrite(d, Segment(g), b);
  }

  /** All outputs written: the plan's output is ready. */
  lemma WrittenAll(d0: Files, r0: Ram, d: Files, r: Ram, live: seq<Item>, segs: seq<OutputSeg>,
                   limit: RecordLimit, durable: bool, exact: bool)
    requires Written(d0, r0, d, r, live, segs, |segs|, limit, durable, exact)
    requires InSequence(segs, |live|, r0.nextGen)
    ensures OutputOk(d, r.sealedBytes, NewGens(r0.nextGen, |segs|), live, limit)
  {
    hide Sound, Items, OutputOk, Pick;
    assert segs[..|segs|] == segs;
    PickAll(live);
  }

  lemma WrittenSound(d0: Files, r0: Ram, d: Files, r: Ram, live: seq<Item>, segs: seq<OutputSeg>, k: nat,
                     limit: RecordLimit, durable: bool, exact: bool)
    requires Written(d0, r0, d, r, live, segs, k, limit, durable, exact)
    ensures Sound(d, r, limit, durable, false) && Items(d, r.records) == Items(d0, r0.records) && r.nextGen == r0.nextGen
    ensures k < |segs| ==>
              && 0 <= segs[k].gen < 0x1_0000_0000 && segs[k].indices != [] && InBounds(segs[k].indices, |live|)
              && segs[k].indices[0] < |live| && AllWithin(live, limit)
    ensures Tidy(d, r) <==> Tidy(d0, r0)
  {
    hide Items, Winner, RecordsOk, BytesOk, SlotsOk, DurableOk, OutputOk, SumBytes, SizeOfAll, Inactive, ExactBelow, Flatten,
      ExactOk, LengthsOk, Shape;
    FlattenInGens(d, r);
  }

  lemma AddedReps(C: seq<Logged>, g: u32, items: seq<Item>, limit: RecordLimit, reps: seq<Rec>)
    requires AllWithin(items, limit) && EnqueuesOnly(C) && Events(g, items, limit, reps)
    ensures EnqueuesOnly(C + EventsOf(g, items, limit))
    ensures Reps(C + EventsOf(g, items, limit)) == Reps(C) + reps
  {
    hide EventsOf;
    RepsConcat(C, EventsOf(g, items, limit));
  }
}
