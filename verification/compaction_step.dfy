/** What one compaction step decides: its effective input, whether it is worth doing, and the measure it lowers. */
module CompactionStep {
  import opened Bytes
  import opened Codec
  import opened ManifestCodec
  import opened Scan
  import opened LogReplay
  import opened LogCompaction
  import opened Layout
  import opened Disk
  import opened Slots
  import opened Coherence
  import opened Session
  import opened SessionCompaction
  import opened Packing
  import opened CompactionOutput

  /** Whether any live record is stored in the range. */
  predicate HasLive(rs: seq<Rec>, input: Range) {
    exists i :: 0 <= i < |rs| && InRange(rs[i].gen, input)
  }

  lemma HasLiveIsLive(rs: seq<Rec>, input: Range)
    ensures HasLive(rs, input) <==> LiveRecs(rs, input) != []
  {
    LiveRecsMembers(rs, input);
    if HasLive(rs, input) {
      var i :| 0 <= i < |rs| && InRange(rs[i].gen, input);
      assert rs[i] in LiveRecs(rs, input);
    }
    if LiveRecs(rs, input) != [] {
      assert LiveRecs(rs, input)[0] in rs;
    }
  }

  /** The payload lengths of the live records, in index order. */
  function LiveSizes(rs: seq<Rec>, input: Range): (ps: seq<nat>)
    ensures |ps| == |LiveRecs(rs, input)|
  {
    var live := LiveRecs(rs, input);
    seq(|live|, i requires 0 <= i < |live| => live[i].length)
  }

  /** The input as it is once the tail has been sealed into it. */
  function Effective(r: Ram, input: Range, rotate: bool): Range {
    if rotate then Range(input.startGen, r.tailGen) else input
  }

  /** The range that holds the input. */
  function Parent(r: Ram, input: Range): nat {
    ParentIndex(r.ranges, input.startGen, input.endGen)
  }

  /** With outs output ranges there is room for the split. */
  predicate Room(rs: seq<Range>, i: nat, input: Range, outs: nat)
    requires i < |rs|
  {
    |rs| - 1 + outs + (if rs[i].startGen < input.startGen then 1 else 0) + (if input.endGen < rs[i].endGen then 1 else 0)
    <= MANIFEST_MAX_RANGES
  }

  /** The tail can be sealed into the input: it has events, it follows the last range, the input reaches its end, and no
      event of the tail affects a generation before the input. */
  predicate Sealable(r: Ram, input: Range) {
    && r.tailBytes > SEGMENT_HEADER_BYTES
    && r.ranges != []
    && input.endGen == r.ranges[|r.ranges| - 1].endGen
    && r.ranges[|r.ranges| - 1].endGen + 1 == r.tailGen
    && forall g | g in r.affected :: input.startGen <= g <= r.tailGen
  }

  /** Writing the live records anew takes fewer segments than there are, or as many but fewer bytes. */
  predicate Worthwhile(ps: seq<nat>, max: nat, segs: nat, bytes: nat) {
    var n := Preflight(ps, max).0;
    n <= segs && (n == segs ==> n * SEGMENT_HEADER_BYTES + EventTotal(ps) < bytes)
  }

  /** What the checks before a compaction establish of its input. */
  predicate InputOk(cfg: Config, r: Ram, input: Range, rotate: bool) {
    && input.startGen <= input.endGen
    && var i := Parent(r, input);
    && i < |r.ranges|
    && (rotate ==> Sealable(r, input) && HasLive(r.records, Effective(r, input, rotate)))
    && Room(r.ranges, i, input, if HasLive(r.records, Effective(r, input, rotate)) then 1 else 0)
    && (!rotate && HasLive(r.records, input) ==>
          Worthwhile(LiveSizes(r.records, input), cfg.maxSegmentBytes, input.endGen - input.startGen + 1,
                     SumBytes(r.sealedBytes, Gens(input))))
    && NotMore(cfg, r, Effective(r, input, rotate))
  }

  /** The live records of the input are counted into no more segments than it has. */
  predicate NotMore(cfg: Config, r: Ram, input: Range) {
    HasLive(r.records, input) ==>
      Preflight(LiveSizes(r.records, input), cfg.maxSegmentBytes).0 <= input.endGen - input.startGen + 1
  }

  // The plan of a compaction.

  function DeadPlan(r: Ram, i: nat, input: Range): Plan
    requires i < |r.ranges| && input.endGen <= r.ranges[i].endGen
  {
    Plan(i, input, [], |Spliced(r.ranges, i, input, [])| + 1, r.nextGen)
  }

  function LivePlan(r: Ram, i: nat, input: Range, n: nat): Plan
    requires i < |r.ranges| && 0 < n && r.nextGen + n < 0x1_0000_0000
  {
    Plan(i, input, [Range(r.nextGen, r.nextGen + n - 1)], i + |LeftOf(r.ranges[i], input)|, r.nextGen + n)
  }

  lemma MergedNothing(rs: seq<Range>, k: nat)
    requires k > |rs|
    ensures Merged(rs, k) == rs
  {
  }

  lemma DeadPlanOk(d: Files, r: Ram, i: nat, input: Range, limit: RecordLimit)
    requires LayoutOk(d, r) && r.tailGen != 0 && i < |r.ranges|
    requires r.ranges[i].startGen <= input.startGen <= input.endGen <= r.ranges[i].endGen
    requires Room(r.ranges, i, input, 0) && !HasLive(r.records, input)
    ensures PlanOk(r, DeadPlan(r, i, input)) && OutputReady(d, r, DeadPlan(r, i, input), limit)
    ensures Merged(Spliced(r.ranges, i, input, []), |Spliced(r.ranges, i, input, [])| + 1) == Spliced(r.ranges, i, input, [])
  {
    MergedNothing(Spliced(r.ranges, i, input, []), |Spliced(r.ranges, i, input, [])| + 1);
    SplicedCount(r.ranges, i, input, []);
    FlattenNothing();
    HasLiveIsLive(r.records, input);
  }

  lemma LivePlanOk(d: Files, r: Ram, i: nat, input: Range, n: nat, limit: RecordLimit)
    requires LayoutOk(d, r) && r.tailGen != 0 && i < |r.ranges| && 0 < n && r.nextGen + n < 0x1_0000_0000
    requires r.ranges[i].startGen <= input.startGen <= input.endGen <= r.ranges[i].endGen
    requires Room(r.ranges, i, input, 1)
    ensures PlanOk(r, LivePlan(r, i, input, n))
    ensures Flatten(LivePlan(r, i, input, n).out) == NewGens(r.nextGen, n)
  {
    hide Gens, Flatten, Merged, Distinct, NewGens, Winner;
    var p := LivePlan(r, i, input, n);
    TailActive(Winner(d).value);
    NewGensRange(r.nextGen, n);
    SplicedCount(r.ranges, i, input, p.out);
  }

  // Progress.

  /** Whether the tail holds events, the number of sealed segments, and their bytes: each successful step lowers the first
      of them that changes. */
  function TailRank(r: Ram): nat { if r.tailBytes > SEGMENT_HEADER_BYTES then 1 else 0 }

  function SealedCount(r: Ram): nat { |Flatten(r.ranges)| }

  function SealedTotal(r: Ram): nat { SumBytes(r.sealedBytes, Flatten(r.ranges)) }

  predicate Lower(r': Ram, r: Ram) {
    || TailRank(r') < TailRank(r)
    || (TailRank(r') == TailRank(r) && SealedCount(r') < SealedCount(r))
    || (TailRank(r') == TailRank(r) && SealedCount(r') == SealedCount(r) && SealedTotal(r') < SealedTotal(r))
  }

  /** The sealed segments before and after: the input's go, the outputs come. */
  lemma PlanCount(d: Files, r: Ram, p: Plan, r': Ram)
    requires LayoutOk(d, r) && PlanOk(r, p) && r'.ranges == PlanManifest(r, p).ranges
    ensures SealedCount(r') + (p.input.endGen - p.input.startGen + 1) == SealedCount(r) + |Flatten(p.out)|
  {
    hide Flatten, Gens, Before, After, Merged, Spliced, Winner, Distinct;
    PlanCut(d, r, p);
    GensLength(p.input);
  }

  lemma RotatedCount(d: Files, r: Ram, startSeq: u32)
    requires LayoutOk(d, r) && SlotsOk(d, r) && Headroom(d, r) && RangeRoom(r) && r.tailGen != 0
    ensures SealedCount(NewTail(d, r, startSeq)) == SealedCount(r) + 1
  {
    hide Winner, Serialise, SegmentHeader, Flatten, Distinct, Shape, Inactive;
    NewTailIs(d, r, startSeq);
    NewTailShape(d, r);
  }

  /** Replacing the input by outputs lowers the measure if and only if they are fewer, or as many but smaller. */
  lemma StepLowers(d: Files, r: Ram, p: Plan, r': Ram)
    requires LayoutOk(d, r) && PlanOk(r, p)
    requires r'.ranges == PlanManifest(r, p).ranges && r'.tailBytes == r.tailBytes
    requires forall g | g in Before(r.ranges, p.i, p.input) || g in After(r.ranges, p.i, p.input) ::
               g in r.sealedBytes && g in r'.sealedBytes && r'.sealedBytes[g] == r.sealedBytes[g]
    ensures Lower(r', r) <==>
              || |Flatten(p.out)| < p.input.endGen - p.input.startGen + 1
              || (|Flatten(p.out)| == p.input.endGen - p.input.startGen + 1
                  && SumBytes(r'.sealedBytes, Flatten(p.out)) < SumBytes(r.sealedBytes, Gens(p.input)))
  {
    hide Flatten, Gens, Before, After, Merged, Spliced, Winner, SumBytes, Distinct;
    var a, b := Before(r.ranges, p.i, p.input), After(r.ranges, p.i, p.input);
    PlanCut(d, r, p);
    GensLength(p.input);
    SumBytesConcat(r.sealedBytes, a + Gens(p.input), b);
    SumBytesConcat(r.sealedBytes, a, Gens(p.input));
    SumBytesConcat(r'.sealedBytes, a + Flatten(p.out), b);
    SumBytesConcat(r'.sealedBytes, a, Flatten(p.out));
    SumBytesSame(r.sealedBytes, r'.sealedBytes, a);
    SumBytesSame(r.sealedBytes, r'.sealedBytes, b);
  }

  lemma GensLength(r: Range)
    requires r.startGen <= r.endGen
    ensures |Gens(r)| == r.endGen - r.startGen + 1
  {
  }

  /** The step is worth doing, or there is nothing to rewrite. */
  predicate InputWorthwhile(cfg: Config, r: Ram, input: Range)
    requires input.startGen <= input.endGen
  {
    HasLive(r.records, input) ==>
      Worthwhile(LiveSizes(r.records, input), cfg.maxSegmentBytes, input.endGen - input.startGen + 1,
                 SumBytes(r.sealedBytes, Gens(input)))
  }

  lemma LiveSizesAre(d: Files, r: Ram, input: Range)
    requires RecordsOk(d, r)
    ensures PayloadSizes(Items(d, LiveRecs(r.records, input))) == LiveSizes(r.records, input)
  {
    hide ItemOf, LiveRecs, AllApart, InOrder;
    var live := LiveRecs(r.records, input);
    LiveRecsMembers(r.records, input);
    forall i | 0 <= i < |live| ensures |Items(d, live)[i].payload| == live[i].length {
      assert live[i] in r.records;
      ItemLength(d, r.gens, live[i]);
    }
  }

  lemma LiveWithin(d: Files, r: Ram, input: Range, limit: RecordLimit)
    requires RecordsOk(d, r) && LengthsOk(r.records, limit)
    ensures AllWithin(Items(d, LiveRecs(r.records, input)), limit)
  {
    hide ItemOf, LiveRecs, AllApart, InOrder;
    LiveSizesAre(d, r, input);
    var live := LiveRecs(r.records, input);
    LiveRecsMembers(r.records, input);
    forall i | 0 <= i < |live| ensures |Items(d, live)[i].payload| <= limit {
      assert live[i] in r.records;
      assert PayloadSizes(Items(d, live))[i] == |Items(d, live)[i].payload| && LiveSizes(r.records, input)[i] == live[i].length;
    }
  }

  /** The packing is fit to be written. */
  lemma PackedOk(live: seq<Item>, max: nat, next: u32, limit: RecordLimit)
    requires live != [] && AllWithin(live, limit)
    ensures var segs := Packed(PayloadSizes(live), |live|, max, next);
            && InSequence(segs, |live|, next)
            && (next + |segs| < 0x1_0000_0000 ==> SegsOk(segs, live, next, limit))
  {
    hide Packed, Joined;
    var segs := Packed(PayloadSizes(live), |live|, max, next);
    PackedInSequence(PayloadSizes(live), |live|, max, next);
    forall k | 0 <= k < |segs| ensures InBounds(segs[k].indices, |live|) {
      forall j | 0 <= j < |segs[k].indices| ensures segs[k].indices[j] < |live| {
        JoinedHas(segs, k, j);
        assert segs[k].indices[j] in UpTo(|live|);
      }
    }
  }

  lemma {:induction false} JoinedHas(segs: seq<OutputSeg>, k: nat, j: nat)
    requires k < |segs| && j < |segs[k].indices|
    ensures segs[k].indices[j] in Joined(segs)
  {
    if k < |segs| - 1 {
      JoinedHas(segs[..|segs| - 1], k, j);
    }
  }

  /** What the safety of an input says does not depend on files outside the replay order. */
  lemma SafeAgrees(d: Files, d': Files, r: Ram, i: nat, input: Range, limit: RecordLimit)
    requires LayoutOk(d, r) && Agree(d, d', r.gens) && i < |r.ranges|
    requires r.ranges[i].startGen <= input.startGen <= input.endGen <= r.ranges[i].endGen
    ensures SafeInput(d', Before(r.ranges, i, input), Gens(input), limit) == SafeInput(d, Before(r.ranges, i, input), Gens(input), limit)
  {
    hide Flatten, Gens, Winner, Before, After;
    InputSlice(r.ranges, i, input);
    FlattenInGens(d, r);
    LogAgrees(d, d', Before(r.ranges, i, input), limit);
    LogAgrees(d, d', Gens(input), limit);
  }

  /** The state once the live records of the input are written anew: the packed outputs in place of the input, and everything else
      as it was. */
  predicate Anew(r: Ram, i: nat, input: Range, ps: seq<nat>, segs: seq<OutputSeg>, r': Ram)
    requires i < |r.ranges| && input.startGen <= input.endGen <= r.ranges[i].endGen
  {
    && 0 < |segs| && r.nextGen + |segs| < 0x1_0000_0000
    && r'.ranges == PlanManifest(r, LivePlan(r, i, input, |segs|)).ranges && r'.tailBytes == r.tailBytes
    && (forall g | g in Flatten(r.ranges) && !InRange(g, input) :: KeptSize(r.sealedBytes, r'.sealedBytes, g))
    && SumBytes(r'.sealedBytes, NewGens(r.nextGen, |segs|)) == SizeOfAll(ps, segs)
  }

  /** Whether the preflight calls the rewrite worth doing, said by the packing itself: fewer segments, or as many but fewer bytes,
      where a first record too large for any segment counts as one more segment. */
  lemma WorthByPacking(ps: seq<nat>, max: nat, first: int, segs: nat, bytes: nat)
    requires ps != []
    ensures var packed := Packed(ps, |ps|, max, first);
            var over := if FirstOversized(ps, max) then 1 else 0;
            Worthwhile(ps, max, segs, bytes) <==>
              || |packed| + over < segs
              || (|packed| + over == segs && SizeOfAll(ps, packed) + over * SEGMENT_HEADER_BYTES < bytes)
  {
    hide Packed, Preflight, EventTotal, SizeOfAll, SegmentSize;
    assert ps[..|ps|] == ps;
    PackedCount(ps, |ps|, max, first);
    PackedTotal(ps, |ps|, max, first);
  }

  /** A rewrite is declined for lack of worth if and only if writing the live records anew would not lower the measure. The one
      exception is a first record that fits no segment: then the rewrite may be declined although it would. */
  lemma RewriteLowers(cfg: Config, d: Files, r: Ram, i: nat, input: Range, segs: seq<OutputSeg>, r': Ram)
    requires LayoutOk(d, r) && BytesOk(d, r) && r.tailGen != 0 && HasLive(r.records, input)
    requires i < |r.ranges| && r.ranges[i].startGen <= input.startGen <= input.endGen <= r.ranges[i].endGen
    requires Room(r.ranges, i, input, 1)
    requires segs == Packed(LiveSizes(r.records, input), |LiveSizes(r.records, input)|, cfg.maxSegmentBytes, r.nextGen)
    requires Anew(r, i, input, LiveSizes(r.records, input), segs, r')
    ensures InputWorthwhile(cfg, r, input) ==> Lower(r', r)
    ensures Lower(r', r) && !FirstOversized(LiveSizes(r.records, input), cfg.maxSegmentBytes) ==> InputWorthwhile(cfg, r, input)
  {
    hide Flatten, Gens, Winner, Before, After, Packed, LiveRecs, Worthwhile, SizeOfAll, SumBytes, Merged, Spliced, Lower, NewGens,
      LiveSizes, FirstOversized, Total;
    var ps, p := LiveSizes(r.records, input), LivePlan(r, i, input, |segs|);
    HasLiveIsLive(r.records, input);
    WorthByPacking(ps, cfg.maxSegmentBytes, r.nextGen, input.endGen - input.startGen + 1, SumBytes(r.sealedBytes, Gens(input)));
    LivePlanOk(d, r, i, input, |segs|, cfg.limit);
    InputSlice(r.ranges, i, input);
    OutsideInput(d, r, i, input);
    assert forall g | g in Before(r.ranges, i, input) || g in After(r.ranges, i, input) ::
      g in Flatten(r.ranges) && KeptSize(r.sealedBytes, r'.sealedBytes, g);
    StepLowers(d, r, p, r');
  }

  /** That exception: one live record too large for a segment. The preflight counts two segments and declines, although writing the
      record anew would take one segment and fewer bytes. */
  lemma OversizedDeclined(p: nat, max: nat, first: int, bytes: nat)
    requires SEGMENT_HEADER_BYTES + ENQUEUE_OVERHEAD_BYTES + p > max && SEGMENT_HEADER_BYTES + ENQUEUE_OVERHEAD_BYTES + p < bytes
    ensures !Worthwhile([p], max, 1, bytes)
    ensures |Packed([p], 1, max, first)| == 1 && SizeOfAll([p], Packed([p], 1, max, first)) < bytes
  {
    hide Packed, SizeOfAll;
    WorthByPacking([p], max, first, 1, bytes);
    PackedCount([p], 1, max, first);
    PackedTotal([p], 1, max, first);
    assert [p][..1] == [p] && [p][..0] == [];
    assert Preflight([p], max).0 == 2 by { assert Preflight([], max) == (1, SEGMENT_HEADER_BYTES); }
    assert EventTotal([p]) == ENQUEUE_OVERHEAD_BYTES + p by { assert EventTotal([]) == 0; }
  }

  /** A step that rewrites live records lowers the measure. */
  lemma LiveLowers(cfg: Config, d0: Files, r0: Ram, d2: Files, r2: Ram, live: seq<Item>, segs: seq<OutputSeg>,
                   i: nat, input: Range, r3: Ram, durable: bool, exact: bool)
    requires LayoutOk(d0, r0) && BytesOk(d0, r0) && RecordsOk(d0, r0) && r0.tailGen != 0
    requires live == Items(d0, LiveRecs(r0.records, input)) && live != []
    requires segs == Packed(PayloadSizes(live), |live|, cfg.maxSegmentBytes, r0.nextGen) && r0.nextGen + |segs| < 0x1_0000_0000
    requires Written(d0, r0, d2, r2, live, segs, |segs|, cfg.limit, durable, exact)
    requires i < |r0.ranges| && r0.ranges[i].startGen <= input.startGen <= input.endGen <= r0.ranges[i].endGen
    requires Room(r0.ranges, i, input, 1)
    requires r3.ranges == PlanManifest(r0, LivePlan(r0, i, input, |segs|)).ranges && r3.tailBytes == r0.tailBytes
    requires forall g: u32 | !InRange(g, input) :: KeptSize(r2.sealedBytes, r3.sealedBytes, g)
    ensures Anew(r0, i, input, LiveSizes(r0.records, input), segs, r3)
    ensures InputWorthwhile(cfg, r0, input) ==> Lower(r3, r0)
    ensures SealedCount(r3) + (input.endGen - input.startGen + 1) == SealedCount(r0) + |segs|
  {
    hide SealedCount, PlanOk, Flatten, Gens, Winner, Before, After, Packed, Items, LiveRecs, OutputOk, Joined, SizeOfAll, SumBytes,
      SegmentSize, RecordsOk, Preflight, EventTotal, Total, Merged, Spliced, Lower, DurableOk, NewGens, Pick, SlotsOk, PayloadSizes,
      LiveSizes, Agree, InBounds, AllWithin, Sound, ExactBelow, InputWorthwhile;
    LiveSizesAre(d0, r0, input);
    HasLiveIsLive(r0.records, input);
    assert segs[..|segs|] == segs;
    FlattenInGens(d0, r0);
    OutsideInput(d0, r0, i, input);
    NewGensRange(r0.nextGen, |segs|);
    forall g | g in Flatten(r0.ranges) && !InRange(g, input) ensures KeptSize(r0.sealedBytes, r3.sealedBytes, g) {
      assert g in r0.gens;
      assert KeptSize(r0.sealedBytes, r2.sealedBytes, g);
      assert KeptSize(r2.sealedBytes, r3.sealedBytes, g);
    }
    forall g | g in NewGens(r0.nextGen, |segs|) ensures g in r2.sealedBytes && g in r3.sealedBytes && r3.sealedBytes[g] == r2.sealedBytes[g] {
      OutputCounted(d2, r2.sealedBytes, NewGens(r0.nextGen, |segs|), Pick(live, Joined(segs)), cfg.limit);
      assert !InRange(g, input);
      assert KeptSize(r2.sealedBytes, r3.sealedBytes, g);
    }
    SumBytesSame(r2.sealedBytes, r3.sealedBytes, NewGens(r0.nextGen, |segs|));
    RewriteLowers(cfg, d0, r0, i, input, segs, r3);
    LivePlanOk(d0, r0, i, input, |segs|, cfg.limit);
    PlanCount(d0, r0, LivePlan(r0, i, input, |segs|), r3);
  }

  /** The generations before and after the input are outside it, and all input generations are in use. */
  lemma OutsideInput(d: Files, r: Ram, i: nat, input: Range)
    requires LayoutOk(d, r) && r.tailGen != 0 && i < |r.ranges|
    requires r.ranges[i].startGen <= input.startGen <= input.endGen <= r.ranges[i].endGen
    ensures forall g | g in Before(r.ranges, i, input) || g in After(r.ranges, i, input) :: !InRange(g, input)
    ensures forall g: u32 | InRange(g, input) :: g < r.nextGen
  {
    hide Flatten, Gens, Winner, Before, After, Distinct;
    var a, b := Before(r.ranges, i, input), After(r.ranges, i, input);
    TailActive(Winner(d).value);
    InputSlice(r.ranges, i, input);
    GensMembers(input);
    DistinctParts(Flatten(r.ranges), [r.tailGen]);
    DistinctParts(a + Gens(input), b);
    DistinctParts(a, Gens(input));
    forall g: u32 | InRange(g, input) ensures g < r.nextGen {
      assert g in Gens(input) && g in a + Gens(input) && g in Flatten(r.ranges) && g in r.gens;
    }
    assert forall g | g in Gens(input) :: g in a + Gens(input);
  }

  lemma DeadLowers(d0: Files, r0: Ram, i: nat, input: Range, r3: Ram, limit: RecordLimit)
    requires LayoutOk(d0, r0) && BytesOk(d0, r0) && r0.tailGen != 0
    requires i < |r0.ranges| && r0.ranges[i].startGen <= input.startGen <= input.endGen <= r0.ranges[i].endGen
    requires Room(r0.ranges, i, input, 0) && !HasLive(r0.records, input)
    requires r3.ranges == PlanManifest(r0, DeadPlan(r0, i, input)).ranges && r3.tailBytes == r0.tailBytes
    requires forall g: u32 | !InRange(g, input) :: KeptSize(r0.sealedBytes, r3.sealedBytes, g)
    ensures Lower(r3, r0)
  {
    hide Flatten, Gens, Winner, Before, After, Total, Merged, Spliced, Lower, Shape, SumBytes;
    DeadPlanOk(d0, r0, i, input, limit);
    InputSlice(r0.ranges, i, input);
    OutsideInput(d0, r0, i, input);
    FlattenNothing();
    assert forall g | g in Before(r0.ranges, i, input) || g in After(r0.ranges, i, input) ::
      g in Flatten(r0.ranges) && KeptSize(r0.sealedBytes, r3.sealedBytes, g);
    StepLowers(d0, r0, DeadPlan(r0, i, input), r3);
  }

  lemma StepStart(d: Files, r: Ram, limit: RecordLimit, durable: bool, exact: bool)
    requires Sound(d, r, limit, durable, exact)
    ensures SlotsOk(d, r) && LayoutOk(d, r) && RecordsOk(d, r) && BytesOk(d, r) && LengthsOk(r.records, limit)
    ensures exact ==> ExactBelow(d, r, r.nextGen)
    ensures r.tailGen != 0 ==> Inactive(d).Some?
  {
    hide Winner, RecordsOk, BytesOk, DurableOk, Inactive, Total, Shape;
    InactiveIsOther(d);
  }

  lemma DeadOutput(d: Files, limit: RecordLimit)
    ensures EnqueuesOnly(LogOf(d, Flatten([]), limit)) && Reps(LogOf(d, Flatten([]), limit)) == []
  {
  }

  /** The input's items are read alike in both. */
  lemma SameItems(d: Files, d': Files, r: Ram, input: Range)
    requires RecordsOk(d, r) && Items(d', r.records) == Items(d, r.records)
    ensures Items(d', LiveRecs(r.records, input)) == Items(d, LiveRecs(r.records, input))
  {
    hide ItemOf, LiveRecs, AllApart, InOrder, RecLocated;
    var live := LiveRecs(r.records, input);
    LiveRecsMembers(r.records, input);
    forall k | 0 <= k < |live| ensures ItemOf(d', live[k]) == ItemOf(d, live[k]) {
      assert live[k] in r.records;
      var j :| 0 <= j < |r.records| && r.records[j] == live[k];
      assert Items(d', r.records)[j] == Items(d, r.records)[j];
    }
  }

  /** Once the outputs are written, the plan that names them is ready to be published. */
  lemma LiveReady(d0: Files, r0: Ram, d2: Files, r2: Ram, live: seq<Item>, segs: seq<OutputSeg>, i: nat, input: Range,
                  limit: RecordLimit, durable: bool, exact: bool)
    requires LayoutOk(d0, r0) && live == Items(d0, LiveRecs(r0.records, input)) && RecordsOk(d0, r0)
    requires Written(d0, r0, d2, r2, live, segs, |segs|, limit, durable, exact) && InSequence(segs, |live|, r0.nextGen)
    requires i < |r0.ranges| && r0.ranges[i].startGen <= input.startGen <= input.endGen <= r0.ranges[i].endGen
    requires Room(r0.ranges, i, input, 1) && segs != []
    ensures r2.ranges == r0.ranges && r2.nextGen == r0.nextGen && r2.tailGen == r0.tailGen && r2.tailBytes == r0.tailBytes
    ensures r2.records == r0.records && r0.nextGen + |segs| < 0x1_0000_0000
    ensures SlotsOk(d2, r2) && Inactive(d2) == Inactive(d0) && WinningEpoch(d2) == WinningEpoch(d0)
    ensures var p := LivePlan(r2, i, input, |segs|);
            && PlanOk(r2, p) && OutputReady(d2, r2, p, limit) && Flatten(p.out) == NewGens(r2.nextGen, |segs|)
            && p.next == r0.nextGen + |segs| && p.k == i + |LeftOf(r0.ranges[i], input)|
            && (exact ==> ExactBelow(d2, r2, p.next))
            && PlanSafe(d2, r2, p, limit) == SafeInput(d0, Before(r0.ranges, i, input), Gens(input), limit)
  {
    hide Winner, BytesOk, DurableOk, Total, Items, Flatten, Gens, OutputOk, SafeInput, LiveRecs, Room, LengthsOk, NewGens, PlanOk,
      ExactBelow, InSequence, Before, RecordsOk, LayoutOk, Inactive, WinningEpoch;
    WrittenAll(d0, r0, d2, r2, live, segs, limit, durable, exact);
    SafeAgrees(d0, d2, r0, i, input, limit);
    LivePlanOk(d2, r2, i, input, |segs|, limit);
    SameItems(d0, d2, r0, input);
  }

  // Choosing the input.

  /** The bytes of the input, the tail counted by its own size. */
  function InputBytes(r: Ram, input: Range): nat {
    SumBytes(r.sealedBytes[r.tailGen := r.tailBytes], Gens(input))
  }

  /** A range's own parent is the range that holds it. */
  lemma {:induction false} ParentOfParent(rs: seq<Range>, startGen: u32, endGen: u32)
    requires startGen <= endGen && ParentIndex(rs, startGen, endGen) < |rs|
    ensures var i := ParentIndex(rs, startGen, endGen);
            ParentIndex(rs, rs[i].startGen, rs[i].endGen) == i
  {
    var i := ParentIndex(rs, startGen, endGen);
    if i > 0 {
      ParentOfParent(rs[1..], startGen, endGen);
    }
  }

  /** Two ranges with a generation in common are the same range. */
  lemma OneParent(rs: seq<Range>, i: nat, j: nat, g: u32)
    requires Distinct(Flatten(rs)) && i < |rs| && j < |rs|
    requires InRange(g, rs[i]) && InRange(g, rs[j])
    ensures i == j
  {
    hide Flatten, Gens, Distinct;
    if i < j {
      RangesApart(rs, i, j, g);
    } else if j < i {
      RangesApart(rs, j, i, g);
    }
  }

  lemma RangesApart(rs: seq<Range>, i: nat, j: nat, g: u32)
    requires Distinct(Flatten(rs)) && i < j < |rs|
    requires InRange(g, rs[i])
    ensures !InRange(g, rs[j])
  {
    hide Flatten, Gens, Distinct;
    assert rs == rs[..j] + rs[j..];
    FlattenConcat(rs[..j], rs[j..]);
    FlattenMember(rs[..j], i, g);
    DistinctParts(Flatten(rs[..j]), Flatten(rs[j..]));
    if InRange(g, rs[j]) {
      FlattenMember(rs[j..], 0, g);
    }
  }

  /** Sealing a tail that can be sealed into the input: the input's parent, the last range, grows by the tail. */
  lemma SealedParent(d: Files, r: Ram, input: Range)
    requires LayoutOk(d, r) && Sealable(r, input) && input.startGen <= input.endGen && Parent(r, input) < |r.ranges|
    ensures var i, rs, eff := Parent(r, input), Sealed(r.ranges, r.tailGen), Range(input.startGen, r.tailGen);
            && i == |r.ranges| - 1 && |rs| == |r.ranges| && RangeRoom(r)
            && r.ranges[i].endGen == input.endGen < r.tailGen
            && rs[i] == Range(r.ranges[i].startGen, r.tailGen)
            && ParentIndex(rs, input.startGen, input.endGen) == i && ParentIndex(rs, input.startGen, r.tailGen) == i
            && Before(rs, i, eff) == Before(r.ranges, i, input)
            && (Room(r.ranges, i, input, 1) ==> Room(rs, i, eff, 1))
  {
    hide Flatten, Winner, Distinct;
    var last := |r.ranges| - 1;
    var i, rs := Parent(r, input), Sealed(r.ranges, r.tailGen);
    assert r.tailGen != 0;
    TailActive(Winner(d).value);
    DistinctParts(Flatten(r.ranges), [r.tailGen]);
    assert r.ranges[last] in r.ranges;
    OneParent(r.ranges, i, last, input.endGen);
    assert rs[..last] == r.ranges[..last];
    ParentKept(r.ranges, rs, input.startGen, input.endGen, input.endGen);
    ParentKept(r.ranges, rs, input.startGen, input.endGen, r.tailGen);
  }

  /** Growing the last range to the right keeps it the first that holds the input. */
  lemma {:induction false} ParentKept(rs: seq<Range>, rs': seq<Range>, startGen: u32, endGen: u32, endGen': u32)
    requires ParentIndex(rs, startGen, endGen) == |rs| - 1 && |rs'| == |rs| && rs'[..|rs| - 1] == rs[..|rs| - 1]
    requires rs'[|rs| - 1].startGen == rs[|rs| - 1].startGen && endGen <= endGen' <= rs'[|rs| - 1].endGen
    ensures ParentIndex(rs', startGen, endGen') == |rs| - 1
  {
    if |rs| > 1 {
      assert rs'[..|rs| - 1][0] == rs'[0] && rs[..|rs| - 1][0] == rs[0];
      assert rs'[1..][..|rs| - 2] == rs'[..|rs| - 1][1..] == rs[..|rs| - 1][1..] == rs[1..][..|rs| - 2];
      ParentKept(rs[1..], rs'[1..], startGen, endGen, endGen');
    }
  }

  /** Before and input are the first part of the replay order. */
  predicate Cuts(gens: seq<u32>, before: seq<u32>, input: Range) {
    before + Gens(input) <= gens
  }

  lemma CutsAt(d: Files, r: Ram, i: nat, input: Range)
    requires LayoutOk(d, r) && r.tailGen != 0 && i < |r.ranges|
    requires r.ranges[i].startGen <= input.startGen <= input.endGen <= r.ranges[i].endGen
    ensures Cuts(r.gens, Before(r.ranges, i, input), input)
  {
    hide Flatten, Gens, Winner, Before, After, Shape;
    InputSlice(r.ranges, i, input);
    ActiveSame(Winner(d).value);
    var a, b, c := Before(r.ranges, i, input), Gens(input), After(r.ranges, i, input) + [r.tailGen];
    assert r.gens == a + b + c;
  }

  /** The sealed tail goes on where the last range ends. */
  lemma CutsSealed(d: Files, r: Ram, input: Range)
    requires LayoutOk(d, r) && Sealable(r, input) && input.startGen <= input.endGen && Parent(r, input) < |r.ranges|
    ensures Cuts(r.gens, Before(r.ranges, Parent(r, input), input), Range(input.startGen, r.tailGen))
  {
    hide Flatten, Gens, Winner, Before, Shape;
    SealedParent(d, r, input);
    var i := Parent(r, input);
    InputSlice(r.ranges, i, input);
    ActiveSame(Winner(d).value);
    GensJoin(input, Range(r.tailGen, r.tailGen));
    GensSingle(r.tailGen);
    var a, b, c := Before(r.ranges, i, input), Gens(input), After(r.ranges, i, input);
    AfterLast(r.ranges, i, input);
    assert r.gens == a + b + c + [r.tailGen] == a + (b + [r.tailGen]);
  }

  lemma AfterLast(rs: seq<Range>, i: nat, input: Range)
    requires i == |rs| - 1 && input.endGen == rs[i].endGen
    ensures After(rs, i, input) == []
  {
  }

  lemma SafeAgreesCut(d: Files, d': Files, gens: seq<u32>, before: seq<u32>, input: Range, limit: RecordLimit)
    requires Agree(d, d', gens) && Cuts(gens, before, input)
    ensures SafeInput(d', before, Gens(input), limit) == SafeInput(d, before, Gens(input), limit)
  {
    hide Gens;
    assert forall g | g in before + Gens(input) :: g in gens;
    assert forall g | g in before || g in Gens(input) :: g in before + Gens(input);
    LogAgrees(d, d', before, limit);
    LogAgrees(d, d', Gens(input), limit);
  }

  /** An input at the front has nothing before it. */
  lemma CutsFront(d: Files, r: Ram, before: seq<u32>, input: Range)
    requires LayoutOk(d, r) && Cuts(r.gens, before, input) && input.startGen <= input.endGen
    requires r.gens != [] && input.startGen == r.gens[0]
    ensures before == []
  {
    hide Flatten, Winner;
    assert Gens(input)[0] == input.startGen;
    var k := |before|;
    assert (before + Gens(input))[k] == input.startGen;
    assert r.gens[k] == r.gens[0];
    if r.tailGen != 0 {
      TailActive(Winner(d).value);
    }
  }

  lemma SizesNone(input: Range)
    ensures LiveSizes([], input) == []
  {
  }

  lemma {:induction false} LivePush(rs: seq<Rec>, x: Rec, input: Range)
    ensures LiveRecs(rs + [x], input) == LiveRecs(rs, input) + (if InRange(x.gen, input) then [x] else [])
  {
    if rs == [] {
      assert [] + [x] == [x] && [x][1..] == [];
    } else {
      assert (rs + [x])[1..] == rs[1..] + [x];
      LivePush(rs[1..], x, input);
    }
  }

  lemma SizesPush(rs: seq<Rec>, x: Rec, input: Range)
    ensures LiveSizes(rs + [x], input) == LiveSizes(rs, input) + (if InRange(x.gen, input) then [x.length] else [])
  {
    LivePush(rs, x, input);
  }

  lemma HasLiveWithin(rs: seq<Rec>, inner: Range, outer: Range)
    requires outer.startGen <= inner.startGen && inner.endGen <= outer.endGen
    ensures HasLive(rs, inner) ==> HasLive(rs, outer)
  {
  }

  lemma SealableWider(r: Ram, input: Range, parent: Range)
    requires Sealable(r, input) && parent.startGen <= input.startGen && parent.endGen == input.endGen
    ensures Sealable(r, parent)
  {
  }

  /** Sealed segments are counted as noted. */
  lemma InputBytesSealed(d: Files, r: Ram, i: nat, input: Range)
    requires LayoutOk(d, r) && BytesOk(d, r) && i < |r.ranges|
    requires r.ranges[i].startGen <= input.startGen <= input.endGen <= r.ranges[i].endGen
    ensures r.tailGen != 0 && InputBytes(r, input) == SumBytes(r.sealedBytes, Gens(input))
  {
    hide Flatten, Gens, Winner, Before, After, Shape, Total;
    InputSlice(r.ranges, i, input);
    FlattenInGens(d, r);
    SumBytesSame(r.sealedBytes, r.sealedBytes[r.tailGen := r.tailBytes], Gens(input));
  }

  /** The input is the range asked for or, where falling back is allowed, its whole parent. */
  predicate Chosen(r: Ram, range: Range, allowFallback: bool, input: Range) {
    && input.startGen <= input.endGen
    && (input == range
        || (allowFallback && range.startGen <= range.endGen && Parent(r, range) < |r.ranges| && input == r.ranges[Parent(r, range)]))
  }

  lemma RangesBound(d: Files, r: Ram)
    requires LayoutOk(d, r)
    ensures |r.ranges| <= MANIFEST_MAX_RANGES && (r.ranges != [] ==> r.tailGen != 0)
  {
    hide Winner, Flatten, Distinct;
  }

  lemma RoomLess(rs: seq<Range>, i: nat, input: Range)
    requires i < |rs|
    ensures Room(rs, i, input, 1) ==> Room(rs, i, input, 0)
  {
  }

  lemma WorthwhileCount(cfg: Config, r: Ram, eff: Range, hasLive: bool)
    requires eff.startGen <= eff.endGen && hasLive == HasLive(r.records, eff)
    requires hasLive ==> Worthwhile(LiveSizes(r.records, eff), cfg.maxSegmentBytes, eff.endGen - eff.startGen + 1, InputBytes(r, eff))
    ensures NotMore(cfg, r, eff)
  {
  }

  /** The checks before a compaction, taken together. */
  lemma InputReady(cfg: Config, d: Files, r: Ram, input: Range, would: bool, hasLive: bool)
    requires LayoutOk(d, r) && BytesOk(d, r)
    requires input.startGen <= input.endGen && Parent(r, input) < |r.ranges|
    requires would ==> Sealable(r, input)
    requires var eff := Effective(r, input, would);
             && input.endGen <= eff.endGen
             && hasLive == HasLive(r.records, eff)
             && Room(r.ranges, Parent(r, input), input, if hasLive then 1 else 0)
             && (hasLive ==> Worthwhile(LiveSizes(r.records, eff), cfg.maxSegmentBytes, eff.endGen - eff.startGen + 1, InputBytes(r, eff)))
    ensures InputOk(cfg, r, input, would && hasLive)
  {
    hide HasLive, Sealable, LayoutOk, BytesOk, Worthwhile, LiveSizes, InputBytes, NotMore;
    HasLiveWithin(r.records, input, Effective(r, input, would));
    WorthwhileCount(cfg, r, Effective(r, input, would), hasLive);
    InputBytesSealed(d, r, Parent(r, input), input);
    RoomLess(r.ranges, Parent(r, input), input);
    assert !HasLive(r.records, input) ==> NotMore(cfg, r, input) by { NotMoreDead(cfg, r, input); }
  }

  lemma NotMoreDead(cfg: Config, r: Ram, input: Range)
    ensures !HasLive(r.records, input) ==> NotMore(cfg, r, input)
  {
  }

  lemma ChosenOrder(r: Ram, range: Range, allowFallback: bool, input: Range)
    requires Chosen(r, range, allowFallback, input)
    ensures input.startGen <= input.endGen
  {
  }

  /** The input starts where the range asked for does, or where its parent does. */
  predicate StartsAt(r: Ram, range: Range, input: Range) {
    && range.startGen <= range.endGen && Parent(r, range) < |r.ranges|
    && (input.startGen == range.startGen || input.startGen == r.ranges[Parent(r, range)].startGen)
    && input.startGen <= input.endGen
  }

  lemma TailOutside(d: Files, r: Ram, i: nat, input: Range)
    requires LayoutOk(d, r) && r.tailGen != 0 && i < |r.ranges|
    requires r.ranges[i].startGen <= input.startGen <= input.endGen <= r.ranges[i].endGen
    ensures !InRange(r.tailGen, input)
  {
    hide Flatten, Winner, Distinct;
    FlattenInGens(d, r);
    if InRange(r.tailGen, input) {
      FlattenMember(r.ranges, i, r.tailGen);
    }
  }

  lemma InputParts(cfg: Config, r: Ram, input: Range, rotate: bool)
    requires InputOk(cfg, r, input, rotate)
    ensures input.startGen <= input.endGen && Parent(r, input) < |r.ranges|
    ensures NotMore(cfg, r, Effective(r, input, rotate)) && (rotate ==> Sealable(r, input))
    ensures !rotate ==> Room(r.ranges, Parent(r, input), input, if HasLive(r.records, input) then 1 else 0)
                        && InputWorthwhile(cfg, r, input)
  {
    hide Sealable, HasLive, Worthwhile, LiveSizes, Room, Gens, Preflight, ParentIndex;
  }

  /** What the chosen input means for the replay order. */
  lemma StepChosen(cfg: Config, d: Files, r: Ram, range: Range, allowFallback: bool, input: Range, rotate: bool)
    requires LayoutOk(d, r) && r.tailGen != 0
    requires range.startGen <= range.endGen && Parent(r, range) < |r.ranges|
    requires Chosen(r, range, allowFallback, input) && InputOk(cfg, r, input, rotate)
    ensures Parent(r, input) < |r.ranges| && input.startGen <= input.endGen
    ensures Cuts(r.gens, Before(r.ranges, Parent(r, input), input), Effective(r, input, rotate))
    ensures StartsAt(r, range, Effective(r, input, rotate))
    ensures !rotate ==> Room(r.ranges, Parent(r, input), input, if HasLive(r.records, input) then 1 else 0)
                        && InputWorthwhile(cfg, r, input)
    ensures rotate ==> RangeRoom(r) && input.endGen <= r.tailGen
    ensures NotMore(cfg, r, Effective(r, input, rotate))
    ensures InRange(r.tailGen, Effective(r, input, rotate)) <==> rotate
  {
    hide LayoutOk, Cuts, Before, Sealable, HasLive, InputOk, InputWorthwhile, NotMore, Room, RangeRoom, Flatten;
    InputParts(cfg, r, input, rotate);
    if rotate {
      SealedParent(d, r, input);
      CutsSealed(d, r, input);
    } else {
      TailOutside(d, r, Parent(r, input), input);
      CutsAt(d, r, Parent(r, input), input);
    }
  }

  /** The state a compaction goes on from once the tail is sealed into its input. */
  lemma StepRotated(cfg: Config, d: Files, r: Ram, input: Range, startSeq: u32)
    requires SlotsOk(d, r) && LayoutOk(d, r) && r.tailGen != 0 && RangeRoom(r) && Headroom(d, r)
    requires InputOk(cfg, r, input, true)
    ensures var r1, eff := NewTail(d, r, startSeq), Effective(r, input, true);
            && r1.tailGen != 0 && r1.tailBytes == SEGMENT_HEADER_BYTES && r.tailBytes > SEGMENT_HEADER_BYTES
            && ParentIndex(r1.ranges, input.startGen, input.endGen) < |r1.ranges|
            && ParentIndex(r1.ranges, input.startGen, input.endGen) == Parent(r1, eff)
            && r1.ranges[Parent(r1, eff)].endGen == eff.endGen
            && Room(r1.ranges, Parent(r1, eff), eff, 1)
            && Room(r1.ranges, Parent(r1, eff), eff, 0)
            && Before(r1.ranges, Parent(r1, eff), eff) == Before(r.ranges, Parent(r, input), input)
  {
    hide LayoutOk, SlotsOk, Before, HasLive, Room, Winner, Inactive, Sealed, Serialise, SegmentHeader;
    SealedParent(d, r, input);
    NewTailShape(d, r);
    RoomLess(Sealed(r.ranges, r.tailGen), Parent(r, input), Effective(r, input, true));
  }

  lemma RankLowers(r: Ram, r1: Ram, r2: Ram)
    requires TailRank(r1) < TailRank(r) && r2.tailBytes == r1.tailBytes
    ensures Lower(r2, r)
  {
  }

  /** The outputs are no more than were counted. */
  lemma OutputsCounted(cfg: Config, d: Files, r: Ram, input: Range, live: seq<Item>, segs: seq<OutputSeg>)
    requires RecordsOk(d, r) && live == Items(d, LiveRecs(r.records, input)) && live != []
    requires segs == Packed(PayloadSizes(live), |live|, cfg.maxSegmentBytes, r.nextGen)
    ensures |segs| <= Preflight(LiveSizes(r.records, input), cfg.maxSegmentBytes).0
  {
    hide Packed, PayloadSizes, LiveSizes, Items, LiveRecs, RecordsOk, Preflight;
    LiveSizesAre(d, r, input);
    var ps := PayloadSizes(live);
    assert ps[..|live|] == ps;
    PackedCount(ps, |live|, cfg.maxSegmentBytes, r.nextGen);
  }

  lemma NotMoreSame(cfg: Config, r: Ram, r': Ram, input: Range)
    requires r'.records == r.records
    ensures NotMore(cfg, r', input) == NotMore(cfg, r, input)
  {
  }

  /** Room for a sealed tail: when the input starts with its parent, or a range is to spare. The whole parent always fits. */
  lemma RoomSealed(r: Ram, range: Range, input: Range, i: nat)
    requires range.startGen <= range.endGen && i == Parent(r, range) < |r.ranges| && |r.ranges| <= MANIFEST_MAX_RANGES
    requires r.ranges[i].startGen <= input.startGen <= input.endGen == r.ranges[i].endGen
    ensures r.ranges[i].startGen == input.startGen || |r.ranges| + 1 <= MANIFEST_MAX_RANGES ==> Room(r.ranges, i, input, 1)
    ensures Room(r.ranges, i, r.ranges[i], 1) && Chosen(r, range, true, r.ranges[i]) && Parent(r, r.ranges[i]) == i
  {
    ParentOfParent(r.ranges, range.startGen, range.endGen);
  }

  lemma LowerJoin(r: Ram, r1: Ram, r2: Ram)
    requires Lower(r2, r1) && (r1 == r || Lower(r1, r))
    ensures Lower(r2, r)
  {
    hide Flatten, SumBytes;
  }

  /** A range that starts where the first range does has nothing before it. */
  lemma FrontStep(d: Files, r: Ram, range: Range, before: seq<u32>, input: Range)
    requires LayoutOk(d, r) && r.ranges != [] && Cuts(r.gens, before, input)
    requires range.startGen == r.ranges[0].startGen && StartsAt(r, range, input)
    ensures before == []
  {
    hide Winner, Distinct, Cuts, Flatten;
    var first, i := r.ranges[0], Parent(r, range);
    assert first in r.ranges;
    TailActive(Winner(d).value);
    DistinctParts(Flatten(r.ranges), [r.tailGen]);
    OneParent(r.ranges, 0, i, first.startGen);
    FirstGen(r.ranges);
    assert r.gens[0] == first.startGen;
    CutsFront(d, r, before, input);
  }

  lemma FirstGen(rs: seq<Range>)
    requires rs != [] && rs[0].startGen <= rs[0].endGen
    ensures Flatten(rs) != [] && Flatten(rs)[0] == rs[0].startGen
  {
  }

  lemma ExactSizes(d: Files, r: Ram, next: int)
    requires ExactBelow(d, r, next)
    ensures SizesExact(d, r)
  {
    hide Total;
  }

  lemma {:induction false} LiveFewer(rs: seq<Rec>, input: Range)
    ensures |LiveRecs(rs, input)| <= |rs|
  {
    if rs != [] {
      LiveFewer(rs[1..], input);
    }
  }

  lemma {:induction false} JoinedSize(segs: seq<OutputSeg>)
    requires forall k | 0 <= k < |segs| :: segs[k].indices != []
    ensures |segs| <= |Joined(segs)|
  {
    if segs != [] {
      JoinedSize(segs[..|segs| - 1]);
    }
  }

  /** When every record has room in a segment of its own, no output exceeds the configured size. */
  lemma OutputsWithin(cfg: Config, d: Files, r: Ram, input: Range, live: seq<Item>, segs: seq<OutputSeg>)
    requires live == Items(d, LiveRecs(r.records, input)) && live != [] && AllFitting(cfg, Items(d, r.records))
    requires segs == Packed(PayloadSizes(live), |live|, cfg.maxSegmentBytes, r.nextGen)
    ensures forall k | 0 <= k < |segs| :: SegmentSize(PayloadSizes(live), segs[k].indices) <= cfg.maxSegmentBytes <= SegmentBound(cfg)
  {
    hide Packed, SegmentSize, LiveRecs, ItemOf;
    LiveRecsMembers(r.records, input);
    forall p | p in PayloadSizes(live) ensures SEGMENT_HEADER_BYTES + ENQUEUE_OVERHEAD_BYTES + p <= cfg.maxSegmentBytes {
      var k :| 0 <= k < |live| && p == |live[k].payload|;
      var x := LiveRecs(r.records, input)[k];
      assert x in LiveRecs(r.records, input);
      var j :| 0 <= j < |r.records| && r.records[j] == x;
      assert Items(d, r.records)[j] == live[k];
    }
    PackedFits(PayloadSizes(live), |live|, cfg.maxSegmentBytes, r.nextGen);
    PackedInSequence(PayloadSizes(live), |live|, cfg.maxSegmentBytes, r.nextGen);
    forall k | 0 <= k < |segs| ensures SegmentSize(PayloadSizes(live), segs[k].indices) <= cfg.maxSegmentBytes {
      assert segs[k] in segs && segs[k].indices != [];
    }
  }

  /** No segment is empty, so there are no more outputs than records. */
  lemma OutputsFew(r: Ram, input: Range, ps: seq<nat>, max: nat, first: int)
    requires |ps| == |LiveRecs(r.records, input)| > 0
    ensures |Packed(ps, |ps|, max, first)| <= |r.records|
  {
    hide Packed, LiveRecs, Joined;
    LiveFewer(r.records, input);
    PackedInSequence(ps, |ps|, max, first);
    JoinedSize(Packed(ps, |ps|, max, first));
  }

  /** The counters have room for n more generations and one more publish. */
  ghost predicate CountersLast(d: Files, r: Ram, n: nat) {
    r.nextGen + n < 0x1_0000_0000 && WinningEpoch(d) + 1 < 0x1_0000_0000
  }

  /** The counters have room for whatever one step may take: a rotation, an output for each record, and two publishes. */
  ghost predicate StepCounters(d: Files, r: Ram) {
    r.nextGen + 1 + |r.records| < 0x1_0000_0000 && WinningEpoch(d) + 2 < 0x1_0000_0000
  }

  lemma CountersBefore(d: Files, r: Ram)
    ensures StepCounters(d, r) ==> CountersLast(d, r, |r.records|)
    ensures StepCounters(d, r) && Inactive(d).Some? ==> Headroom(d, r)
  {
    hide Winner, Inactive;
  }

  /** The counters once the tail has been sealed. */
  lemma CountersRotated(d: Files, r: Ram, d': Files, startSeq: u32)
    requires SlotsOk(d, r) && RangeRoom(r) && Headroom(d, r) && SlotsOk(d', NewTail(d, r, startSeq))
    ensures NewTail(d, r, startSeq).nextGen == r.nextGen + 1 && WinningEpoch(d') == WinningEpoch(d) + 1
    ensures NewTail(d, r, startSeq).records == r.records
  {
    hide Winner, Inactive, Sealed, Serialise, SegmentHeader, ActiveOf;
    NewTailIs(d, r, startSeq);
  }

  // Which input a compaction of a range takes.

  /** Sealing the tail into the input would leave one range too many. */
  predicate Crowded(r: Ram, i: nat, input: Range)
    requires i < |r.ranges|
  {
    && Sealable(r, input) && HasLive(r.records, Effective(r, input, true))
    && r.ranges[i].startGen < input.startGen && |r.ranges| + 1 > MANIFEST_MAX_RANGES
  }

  /** The input with the tail where that is sealed into it. */
  function Reached(r: Ram, input: Range): Range {
    Effective(r, input, Sealable(r, input) && HasLive(r.records, Effective(r, input, true)))
  }

  /** Nothing of the input is live, or rewriting it, with the tail where that can be sealed into it, gains something. */
  predicate Worth(cfg: Config, r: Ram, input: Range) {
    var eff := Effective(r, input, Sealable(r, input));
    && eff.startGen <= eff.endGen
    && (HasLive(r.records, eff) ==>
          Worthwhile(LiveSizes(r.records, eff), cfg.maxSegmentBytes, eff.endGen - eff.startGen + 1, InputBytes(r, eff)))
  }

  /** The range asked for or, where splitting its parent would exceed the limit on ranges, the whole parent if allowed. */
  function SplitInput(r: Ram, i: nat, range: Range, allowFallback: bool): Option<Range>
    requires i < |r.ranges|
  {
    if Room(r.ranges, i, range, if HasLive(r.records, range) then 1 else 0) then Some(range)
    else if allowFallback then Some(r.ranges[i])
    else None
  }

  /** The same for the sealing of the tail. */
  function SealInput(r: Ram, i: nat, first: Range, allowFallback: bool): Option<Range>
    requires i < |r.ranges|
  {
    if !Crowded(r, i, first) then Some(first) else if allowFallback then Some(r.ranges[i]) else None
  }

  /** The input that a compaction of the range goes on with, if any: the range, or its whole parent where splitting the parent
      would exceed the limit on ranges. None when no range holds it, when there is no room and no falling back, or when it is
      not worth doing. */
  function PlannedInput(cfg: Config, r: Ram, range: Range, allowFallback: bool): Option<Range> {
    if range.startGen > range.endGen || Parent(r, range) >= |r.ranges| then None
    else
      var i := Parent(r, range);
      var first := SplitInput(r, i, range, allowFallback);
      var second := if first.None? then None else SealInput(r, i, first.value, allowFallback);
      if second.Some? && Worth(cfg, r, second.value) then second else None
  }

  /** The first limit check is exact: there is room if and only if the spliced list of ranges keeps within the limit. */
  lemma RoomExact(rs: seq<Range>, i: nat, input: Range, out: seq<Range>)
    requires i < |rs| && input.endGen <= rs[i].endGen
    ensures Room(rs, i, input, |out|) <==> |Spliced(rs, i, input, out)| <= MANIFEST_MAX_RANGES
  {
  }

  /** So is the second: it turns the input down if and only if something in it or in the tail is live and, with the tail sealed
      into the parent, the spliced list with one output would exceed the limit. */
  lemma CrowdedExact(d: Files, r: Ram, i: nat, input: Range, out: Range)
    requires LayoutOk(d, r) && Sealable(r, input) && input.startGen <= input.endGen && i == Parent(r, input) < |r.ranges|
    ensures var rs := Sealed(r.ranges, r.tailGen); |rs| == |r.ranges| && rs[i] == Range(r.ranges[i].startGen, r.tailGen)
    ensures var rs, eff := Sealed(r.ranges, r.tailGen), Range(input.startGen, r.tailGen);
            Crowded(r, i, input) <==> HasLive(r.records, eff) && |Spliced(rs, i, eff, [out])| > MANIFEST_MAX_RANGES
  {
    hide Winner, Flatten, Distinct, Sealed, HasLive, Spliced, Sealable;
    SealedParent(d, r, input);
    RangesBound(d, r);
    SplicedCount(Sealed(r.ranges, r.tailGen), i, Range(input.startGen, r.tailGen), [out]);
  }

  /** A whole range of the manifest, with falling back allowed, is declined exactly when it is not worth doing. */
  lemma WholeRangePlanned(cfg: Config, r: Ram, range: Range)
    requires range.startGen <= range.endGen && Parent(r, range) < |r.ranges| && r.ranges[Parent(r, range)] == range
    ensures PlannedInput(cfg, r, range, true) == if Worth(cfg, r, range) then Some(range) else None
  {
    hide HasLive, Sealable, Worth;
  }

  /** The oldest sealed segment holds nothing live and can be dropped. */
  predicate Reclaimable(cfg: Config, r: Ram) {
    && r.ranges != []
    && var front := Range(r.ranges[0].startGen, r.ranges[0].startGen);
    && !HasLive(r.records, front) && Worth(cfg, r, front)
  }

  /** A dead segment at the front is reclaimed, unless the tail would be sealed along with it and that gains nothing. */
  lemma DeadFrontPlanned(d: Files, cfg: Config, r: Ram)
    requires LayoutOk(d, r) && r.ranges != []
    requires !HasLive(r.records, Range(r.ranges[0].startGen, r.ranges[0].startGen))
    ensures var front := Range(r.ranges[0].startGen, r.ranges[0].startGen);
            PlannedInput(cfg, r, front, false) == if Worth(cfg, r, front) then Some(front) else None
    ensures var front := Range(r.ranges[0].startGen, r.ranges[0].startGen);
            !Worth(cfg, r, front) ==> Sealable(r, front) && HasLive(r.records, Effective(r, front, true))
  {
    hide HasLive, Worthwhile, Winner, Flatten, Distinct;
    RangesBound(d, r);
    assert r.ranges[0] in r.ranges;
    var front := Range(r.ranges[0].startGen, r.ranges[0].startGen);
    assert Sealable(r, front) ==> front.startGen < r.tailGen;
  }

  /** The state from which the input is written anew: with the tail sealed, where that can be sealed into the input. */
  function Before1(d: Files, r: Ram, input: Range, startSeq: u32): Ram
    requires SlotsOk(d, r) && (Sealable(r, input) ==> RangeRoom(r) && Headroom(d, r))
  {
    if Sealable(r, input) then NewTail(d, r, startSeq) else r
  }

  /** The bytes reckoned before the tail is sealed are those of the sealed segments afterwards. */
  lemma SealedBytes(d: Files, r: Ram, input: Range, startSeq: u32)
    requires SessionOk(d, r) && r.tailGen != 0 && Sealable(r, input) && RangeRoom(r) && Headroom(d, r)
    requires input.startGen <= input.endGen && Parent(r, input) < |r.ranges|
    ensures var r1, eff := NewTail(d, r, startSeq), Effective(r, input, true);
            && InputBytes(r, eff) == SumBytes(r1.sealedBytes, Gens(eff)) && r1.records == r.records
  {
    hide Flatten, Winner, Serialise, SegmentHeader, Inactive, RecordsOk, Total, Sealed, Shape, SlotsOk;
    var r1, eff := NewTail(d, r, startSeq), Effective(r, input, true);
    NewTailIs(d, r, startSeq);
    CutsSealed(d, r, input);
    GensMembers(eff);
    NextUnused(d, r);
    FlattenInGens(d, r);
    var noted, b := r.sealedBytes[r.tailGen := r.tailBytes], Before(r.ranges, Parent(r, input), input);
    forall g | g in Gens(eff) ensures g in noted && g in r1.sealedBytes && r1.sealedBytes[g] == noted[g] {
      assert g in b + Gens(eff);
      assert g in r.gens;
    }
    SumBytesSame(noted, r1.sealedBytes, Gens(eff));
  }

  /** The last check before a compaction, exactly: for any state r' that the rewrite could leave, the input with live records is
      worth doing if and only if r' is lower than the state the rewrite starts from. */
  lemma WorthExact(cfg: Config, d: Files, r: Ram, input: Range, startSeq: u32, segs: seq<OutputSeg>, r': Ram)
    requires SessionOk(d, r) && r.tailGen != 0 && input.startGen <= input.endGen && Parent(r, input) < |r.ranges|
    requires Sealable(r, input) ==> RangeRoom(r) && Headroom(d, r)
    requires var eff, r1 := Effective(r, input, Sealable(r, input)), Before1(d, r, input, startSeq);
             && HasLive(r.records, eff) && Parent(r1, eff) < |r1.ranges| && Room(r1.ranges, Parent(r1, eff), eff, 1)
             && eff.startGen <= eff.endGen
             && segs == Packed(LiveSizes(r.records, eff), |LiveSizes(r.records, eff)|, cfg.maxSegmentBytes, r1.nextGen)
             && Anew(r1, Parent(r1, eff), eff, LiveSizes(r.records, eff), segs, r')
    ensures var eff, r1 := Effective(r, input, Sealable(r, input)), Before1(d, r, input, startSeq);
            && (Worth(cfg, r, input) ==> Lower(r', r1))
            && (Lower(r', r1) && !FirstOversized(LiveSizes(r.records, eff), cfg.maxSegmentBytes) ==> Worth(cfg, r, input))
  {
    hide Flatten, Gens, Winner, Before, After, Packed, LiveRecs, Worthwhile, SizeOfAll, SumBytes, Merged, Spliced, Lower, NewGens,
      LiveSizes, FirstOversized, Total, NewTail, NewTailFiles, HasLive, Anew, Shape, Inactive, RecordsOk, SlotsOk, BytesOk,
      LayoutOk, RangeRoom, Headroom, Room;
    var eff := Effective(r, input, Sealable(r, input));
    if Sealable(r, input) {
      NewTailSession(d, r, startSeq);
      SealedBytes(d, r, input, startSeq);
      var d1, r1 := NewTailFiles(d, r, startSeq), NewTail(d, r, startSeq);
      SessionLayout(d1, r1);
      NewTailNamed(d, r, startSeq) by { SessionLayout(d, r); }
      RewriteLowers(cfg, d1, r1, Parent(r1, eff), eff, segs, r');
    } else {
      InputBytesSealed(d, r, Parent(r, input), input) by { SessionLayout(d, r); }
      RewriteLowers(cfg, d, r, Parent(r, input), input, segs, r');
    }
  }

  // The stretches that compactions take.

  /** A stretch that a compaction took: the files it found, the generations replayed before it, and its own generations. */
  datatype Stretch = Stretch(files: Files, before: seq<u32>, input: Range)

  /** It is a stretch of the replay order of the store it was taken in. */
  ghost predicate Genuine(s: Stretch) {
    Winner(s.files).Some? && Cuts(ActiveOf(Winner(s.files).value), s.before, s.input)
  }

  /** No event of the stretch changes a record stored before it. */
  ghost predicate StretchSafe(s: Stretch, limit: RecordLimit) {
    SafeInput(s.files, s.before, Gens(s.input), limit)
  }

  ghost predicate AllSafe(taken: seq<Stretch>, limit: RecordLimit) {
    forall s | s in taken :: StretchSafe(s, limit)
  }

  ghost predicate AllGenuine(taken: seq<Stretch>) {
    forall s | s in taken :: Genuine(s)
  }

  lemma StretchTaken(d: Files, r: Ram, before: seq<u32>, input: Range, limit: RecordLimit)
    requires LayoutOk(d, r) && r.tailGen != 0 && Cuts(r.gens, before, input)
    ensures AllGenuine([Stretch(d, before, input)])
    ensures AllSafe([Stretch(d, before, input)], limit) <==> SafeInput(d, before, Gens(input), limit)
  {
    hide Winner, Gens, SafeInput, Shape, Cuts, Flatten;
    assert Stretch(d, before, input) in [Stretch(d, before, input)];
  }

  lemma StretchesNone(limit: RecordLimit)
    ensures AllSafe([], limit) && AllGenuine([])
  {
  }

  lemma StretchesJoin(a: seq<Stretch>, b: seq<Stretch>, limit: RecordLimit)
    ensures AllSafe(a + b, limit) <==> AllSafe(a, limit) && AllSafe(b, limit)
    ensures AllGenuine(a + b) <==> AllGenuine(a) && AllGenuine(b)
  {
    hide StretchSafe, Genuine;
    assert forall s | s in a :: s in a + b;
    assert forall s | s in b :: s in a + b;
  }
}
