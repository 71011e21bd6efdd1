/** Which range is compacted next: segment statistics, the choice of a range, and narrowing it to a budget of outputs. */
module Selection {
  import opened Bytes
  import opened Codec
  import opened ManifestCodec
  import opened Layout
  import opened Disk
  import opened Sorting
  import opened Slots
  import opened Coherence
  import opened Session
  import opened SessionCompaction
  import opened Packing
  import opened CompactionOutput
  import opened CompactionStep

  datatype SegmentStat = SegmentStat(generation: u32, liveBytes: nat, totalBytes: nat)

  function DeadBytes(s: SegmentStat): nat {
    if s.totalBytes > s.liveBytes then s.totalBytes - s.liveBytes else 0
  }

  /** The event bytes of the live records stored in generation g. */
  function LiveIn(rs: seq<Rec>, g: u32): nat {
    if rs == [] then 0
    else
      var x := rs[|rs| - 1];
      LiveIn(rs[..|rs| - 1], g) + (if x.gen == g then ENQUEUE_OVERHEAD_BYTES + x.length else 0)
  }

  function StatOf(rs: seq<Rec>, sealedBytes: map<u32, nat>, g: u32): SegmentStat {
    SegmentStat(g, SEGMENT_HEADER_BYTES + LiveIn(rs, g), if g in sealedBytes then sealedBytes[g] else 0)
  }

  function Stats(rs: seq<Rec>, sealedBytes: map<u32, nat>, gens: seq<u32>): (s: seq<SegmentStat>)
    ensures |s| == |gens|
  {
    seq(|gens|, i requires 0 <= i < |gens| => StatOf(rs, sealedBytes, gens[i]))
  }

  /** The live bytes of each generation, in one pass over the index. */
  method SumLive(rs: seq<Rec>) returns (liveByGen: map<u32, nat>)
    ensures forall g: u32 :: (if g in liveByGen then liveByGen[g] else 0) == LiveIn(rs, g)
  {
    liveByGen := map[];
    var i := 0;
    while i < |rs|
      invariant 0 <= i <= |rs|
      invariant forall g: u32 :: (if g in liveByGen then liveByGen[g] else 0) == LiveIn(rs[..i], g)
    {
      assert rs[..i + 1][..i] == rs[..i];
      var g := rs[i].gen;
      liveByGen := liveByGen[g := (if g in liveByGen then liveByGen[g] else 0) + ENQUEUE_OVERHEAD_BYTES + rs[i].length];
      i := i + 1;
    }
    assert rs[..i] == rs;
  }

  /** segmentStats: one entry for each sealed generation, in replay order. */
  method SegmentStats(rs: seq<Rec>, ranges: seq<Range>, sealedBytes: map<u32, nat>) returns (result: seq<SegmentStat>)
    ensures result == Stats(rs, sealedBytes, Flatten(ranges))
  {
    hide Flatten, Gens, LiveIn;
    var liveByGen := SumLive(rs);
    result := [];
    FlattenNothing();
    assert ranges[..0] == [];
    var i := 0;
    while i < |ranges|
      invariant 0 <= i <= |ranges|
      invariant result == Stats(rs, sealedBytes, Flatten(ranges[..i]))
    {
      FlattenConcat(ranges[..i], [ranges[i]]);
      FlattenOne(ranges[i]);
      assert ranges[..i + 1] == ranges[..i] + [ranges[i]];
      ghost var done, here := Flatten(ranges[..i]), Gens(ranges[i]);
      GensLengthAny(ranges[i]);
      var g: int := ranges[i].startGen;
      assert done + here[..0] == done;
      while g <= ranges[i].endGen
        invariant ranges[i].startGen <= g && g - ranges[i].startGen <= |here|
        invariant result == Stats(rs, sealedBytes, done + here[..g - ranges[i].startGen])
      {
        ghost var k := g - ranges[i].startGen;
        GensAt(ranges[i], k);
        assert here[..k + 1] == here[..k] + [g];
        var live := if g in liveByGen then liveByGen[g] else 0;
        assert live == LiveIn(rs, g);
        StatsPush(rs, sealedBytes, done + here[..k], g);
        assert done + here[..k] + [g] == done + here[..k + 1];
        result := result + [SegmentStat(g, SEGMENT_HEADER_BYTES + live, if g in sealedBytes then sealedBytes[g] else 0)];
        g := g + 1;
      }
      assert here[..g - ranges[i].startGen] == here;
      i := i + 1;
    }
    assert ranges[..i] == ranges;
  }

  lemma GensLengthAny(r: Range)
    ensures |Gens(r)| == if r.startGen > r.endGen then 0 else r.endGen - r.startGen + 1
  {
  }

  lemma GensAt(r: Range, k: nat)
    requires k < |Gens(r)|
    ensures Gens(r)[k] == r.startGen + k
  {
  }

  lemma StatsPush(rs: seq<Rec>, sealedBytes: map<u32, nat>, gens: seq<u32>, g: u32)
    ensures Stats(rs, sealedBytes, gens + [g]) == Stats(rs, sealedBytes, gens) + [StatOf(rs, sealedBytes, g)]
  {
    hide LiveIn;
  }

  // Choosing a range.

  /** The live bytes, total bytes and dead bytes of the statistics in a range of generations. */
  function TotalWithin(stats: seq<SegmentStat>, r: Range): nat {
    if stats == [] then 0
    else
      var s := stats[|stats| - 1];
      TotalWithin(stats[..|stats| - 1], r) + (if InRange(s.generation, r) then s.totalBytes else 0)
  }

  function DeadWithin(stats: seq<SegmentStat>, r: Range): nat {
    if stats == [] then 0
    else
      var s := stats[|stats| - 1];
      DeadWithin(stats[..|stats| - 1], r) + (if InRange(s.generation, r) then DeadBytes(s) else 0)
  }

  /** The share of dead bytes in a range, or -1 when it has no bytes at all. */
  function Share(stats: seq<SegmentStat>, r: Range): real {
    var total := TotalWithin(stats, r);
    if total == 0 then -1.0 else DeadWithin(stats, r) as real / total as real
  }

  /** The share of dead bytes in r is no larger than in c, or smaller, compared without dividing. */
  predicate NoMoreDead(stats: seq<SegmentStat>, r: Range, c: Range) {
    DeadWithin(stats, r) * TotalWithin(stats, c) <= DeadWithin(stats, c) * TotalWithin(stats, r)
  }

  predicate LessDead(stats: seq<SegmentStat>, r: Range, c: Range) {
    TotalWithin(stats, r) == 0 || DeadWithin(stats, r) * TotalWithin(stats, c) < DeadWithin(stats, c) * TotalWithin(stats, r)
  }

  /** What is chosen: the first range without live records or, when each has some, the first of those with the largest share of
      dead bytes, compared without dividing; nothing when there are no dead bytes. */
  predicate Choice(rs: seq<Rec>, ranges: seq<Range>, stats: seq<SegmentStat>, c: Option<Range>) {
    match c
    case None =>
      forall k | 0 <= k < |ranges| :: HasLive(rs, ranges[k]) && DeadWithin(stats, ranges[k]) == 0
    case Some(r) =>
      || (exists i :: 0 <= i < |ranges| && ranges[i] == r && !HasLive(rs, r) && forall k | 0 <= k < i :: HasLive(rs, ranges[k]))
      || ((forall k | 0 <= k < |ranges| :: HasLive(rs, ranges[k]))
          && exists i :: 0 <= i < |ranges| && ranges[i] == r && DeadWithin(stats, r) > 0
                         && (forall k | 0 <= k < |ranges| :: NoMoreDead(stats, ranges[k], r))
                         && (forall k | 0 <= k < i :: LessDead(stats, ranges[k], r)))
  }

  lemma {:induction false} DeadBelow(stats: seq<SegmentStat>, r: Range)
    ensures DeadWithin(stats, r) <= TotalWithin(stats, r)
  {
    if stats != [] {
      DeadBelow(stats[..|stats| - 1], r);
    }
  }

  /** Two quotients are ordered as their cross products. */
  lemma RatioOrder(a: nat, b: nat, c: nat, d: nat)
    requires b > 0 && d > 0
    ensures a as real / b as real <= c as real / d as real <==> a * d <= c * b
  {
    var x, y := a as real / b as real, c as real / d as real;
    var p := b as real * d as real;
    assert p > 0.0;
    assert x * p == a as real * d as real by { assert x * b as real == a as real; }
    assert y * p == c as real * b as real by { assert y * d as real == c as real; }
    assert x <= y <==> x * p <= y * p;
    assert a as real * d as real == (a * d) as real && c as real * b as real == (c * b) as real;
  }

  /** The order of shares by the bytes themselves. */
  lemma ShareOrder(stats: seq<SegmentStat>, r: Range, c: Range)
    ensures Share(stats, r) <= 0.0 <==> DeadWithin(stats, r) == 0
    ensures Share(stats, c) > 0.0 && Share(stats, r) <= Share(stats, c) ==> NoMoreDead(stats, r, c)
    ensures Share(stats, c) > 0.0 && Share(stats, r) < Share(stats, c) ==> LessDead(stats, r, c)
  {
    hide DeadWithin, TotalWithin;
    DeadBelow(stats, r);
    DeadBelow(stats, c);
    if TotalWithin(stats, r) > 0 {
      RatioOrder(DeadWithin(stats, r), TotalWithin(stats, r), 0, 1);
      assert DeadWithin(stats, r) * 1 <= 0 * TotalWithin(stats, r) <==> DeadWithin(stats, r) == 0;
      if TotalWithin(stats, c) > 0 {
        RatioOrder(DeadWithin(stats, r), TotalWithin(stats, r), DeadWithin(stats, c), TotalWithin(stats, c));
        RatioOrder(DeadWithin(stats, c), TotalWithin(stats, c), DeadWithin(stats, r), TotalWithin(stats, r));
      }
    }
  }

  /** chooseCompactionRange. */
  method Choose(rs: seq<Rec>, ranges: seq<Range>, sealedBytes: map<u32, nat>) returns (c: Option<Range>)
    ensures Choice(rs, ranges, Stats(rs, sealedBytes, Flatten(ranges)), c)
    ensures c.Some? ==> c.value in ranges
  {
    hide Stats, Flatten, HasLive, Share, NoMoreDead, LessDead, DeadWithin;
    if ranges == [] { return None; }
    var stats := SegmentStats(rs, ranges, sealedBytes);
    var bestIdx: nat := |ranges|;
    var bestRatio: real := -1.0;
    var i := 0;
    while i < |ranges|
      invariant 0 <= i <= |ranges|
      invariant forall k | 0 <= k < i :: HasLive(rs, ranges[k]) && Share(stats, ranges[k]) <= bestRatio
      invariant bestIdx == |ranges| ==> bestRatio == -1.0
      invariant bestIdx < |ranges| ==> bestIdx < i && Share(stats, ranges[bestIdx]) == bestRatio
      invariant bestIdx <= |ranges|
      invariant bestIdx < |ranges| ==> forall k | 0 <= k < bestIdx :: Share(stats, ranges[k]) < bestRatio
    {
      var r := ranges[i];
      var hasLive := RangeHasLive(rs, r);
      if !hasLive { return Some(r); }
      var ratio := MeasureShare(stats, r);
      if ratio > bestRatio {
        bestRatio := ratio;
        bestIdx := i;
      }
      i := i + 1;
    }
    if bestRatio <= 0.0 || bestIdx >= |ranges| {
      forall k | 0 <= k < |ranges| ensures DeadWithin(stats, ranges[k]) == 0 { ShareOrder(stats, ranges[k], ranges[k]); }
      return None;
    }
    forall k | 0 <= k < |ranges|
      ensures NoMoreDead(stats, ranges[k], ranges[bestIdx]) && (k < bestIdx ==> LessDead(stats, ranges[k], ranges[bestIdx]))
    {
      ShareOrder(stats, ranges[k], ranges[bestIdx]);
    }
    ShareOrder(stats, ranges[bestIdx], ranges[bestIdx]);
    c := Some(ranges[bestIdx]);
  }

  method RangeHasLive(rs: seq<Rec>, r: Range) returns (has: bool)
    ensures has == HasLive(rs, r)
  {
    var i := 0;
    while i < |rs|
      invariant 0 <= i <= |rs|
      invariant forall k | 0 <= k < i :: !InRange(rs[k].gen, r)
    {
      if r.startGen <= rs[i].gen <= r.endGen { return true; }
      i := i + 1;
    }
    has := false;
  }

  method MeasureShare(stats: seq<SegmentStat>, r: Range) returns (ratio: real)
    ensures ratio == Share(stats, r)
  {
    var total, dead := 0, 0;
    var i := 0;
    while i < |stats|
      invariant 0 <= i <= |stats|
      invariant total == TotalWithin(stats[..i], r) && dead == DeadWithin(stats[..i], r)
    {
      assert stats[..i + 1][..i] == stats[..i];
      var s := stats[i];
      if r.startGen <= s.generation <= r.endGen {
        total := total + s.totalBytes;
        dead := dead + DeadBytes(s);
      }
      i := i + 1;
    }
    assert stats[..i] == stats;
    ratio := if total == 0 then -1.0 else dead as real / total as real;
  }

  // Narrowing a range to a budget of output segments.

  /** The live and total bytes of the window from i up to, not including, j. */
  function LiveSum(segs: seq<SegmentStat>, i: nat, j: nat): nat
    requires i <= j <= |segs|
  {
    if i == j then 0 else LiveSum(segs, i, j - 1) + segs[j - 1].liveBytes
  }

  function TotalSum(segs: seq<SegmentStat>, i: nat, j: nat): nat
    requires i <= j <= |segs|
  {
    if i == j then 0 else TotalSum(segs, i, j - 1) + segs[j - 1].totalBytes
  }

  /** The number of segments that so many live bytes are expected to fill. */
  function Predict(liveBytes: nat, max: nat): nat
    requires max > 0
  {
    if liveBytes == 0 then 0 else (liveBytes + max - 1) / max
  }

  /** So many segments of full size can hold the window's live bytes. */
  predicate Affordable(segs: seq<SegmentStat>, i: nat, j: nat, max: nat, budget: nat)
    requires i <= j <= |segs| && max > 0
  {
    LiveSum(segs, i, j) <= budget * max
  }

  lemma PredictExact(liveBytes: nat, max: nat, budget: nat)
    requires max > 0
    ensures Predict(liveBytes, max) <= budget <==> liveBytes <= budget * max
  {
    var q, n := Predict(liveBytes, max), liveBytes + max - 1;
    if liveBytes > 0 {
      assert q == n / max && n == max * q + n % max && 0 <= n % max < max;
      if q <= budget {
        MulMonotone(max, q, budget);
      } else {
        MulMonotone(max, budget, q - 1);
      }
    }
  }

  /** The share of dead bytes in the window. */
  function DeadShare(segs: seq<SegmentStat>, i: nat, j: nat): real
    requires i <= j <= |segs|
  {
    var live, total := LiveSum(segs, i, j), TotalSum(segs, i, j);
    if total > 0 then (total - live) as real / total as real else 0.0
  }

  lemma MulMonotone(m: nat, a: nat, b: nat)
    requires a <= b
    ensures m * a <= m * b
  {
  }

  lemma {:induction false} LiveSumGrows(segs: seq<SegmentStat>, i: nat, j: nat, k: nat)
    requires i <= j <= k <= |segs|
    ensures LiveSum(segs, i, j) <= LiveSum(segs, i, k)
  {
    if j < k {
      LiveSumGrows(segs, i, j, k - 1);
    }
  }

  /** Once a window is too expensive, every longer one is: the early end of the inner loop misses nothing. */
  lemma LongerCostsMore(segs: seq<SegmentStat>, i: nat, j: nat, k: nat, max: nat, budget: nat)
    requires i <= j <= k <= |segs| && max > 0
    requires !Affordable(segs, i, j, max, budget)
    ensures !Affordable(segs, i, k, max, budget)
  {
    LiveSumGrows(segs, i, j, k);
  }

  predicate Plausible(segs: seq<SegmentStat>) {
    forall s | s in segs :: 0 < s.liveBytes <= s.totalBytes
  }

  lemma {:induction false} LiveBelowTotal(segs: seq<SegmentStat>, i: nat, j: nat)
    requires i <= j <= |segs| && Plausible(segs)
    ensures LiveSum(segs, i, j) <= TotalSum(segs, i, j)
    ensures DeadShare(segs, i, j) >= 0.0
  {
    if i < j {
      LiveBelowTotal(segs, i, j - 1);
      assert segs[j - 1] in segs;
    }
  }

  /** The dead share of one window is at least that of the other, compared without dividing. */
  predicate NotPoorer(segs: seq<SegmentStat>, i: nat, j: nat, k: nat, l: nat)
    requires i <= j <= |segs| && k <= l <= |segs|
  {
    (TotalSum(segs, k, l) - LiveSum(segs, k, l)) * TotalSum(segs, i, j) <= (TotalSum(segs, i, j) - LiveSum(segs, i, j)) * TotalSum(segs, k, l)
  }

  /** The window the search returns: affordable, with the largest share of dead bytes of all affordable windows. */
  predicate BestWindow(segs: seq<SegmentStat>, i: nat, j: nat, max: nat, budget: nat)
    requires max > 0
  {
    && i < j <= |segs| && Affordable(segs, i, j, max, budget)
    && forall k, l | 0 <= k < l <= |segs| && Affordable(segs, k, l, max, budget) :: NotPoorer(segs, i, j, k, l)
  }

  lemma {:induction false} TotalGrows(segs: seq<SegmentStat>, i: nat, j: nat)
    requires i < j <= |segs| && Plausible(segs)
    ensures TotalSum(segs, i, j) > 0
  {
    assert segs[j - 1] in segs;
  }

  lemma DeadShareOrder(segs: seq<SegmentStat>, i: nat, j: nat, k: nat, l: nat)
    requires i < j <= |segs| && k < l <= |segs| && Plausible(segs)
    requires DeadShare(segs, k, l) <= DeadShare(segs, i, j)
    ensures NotPoorer(segs, i, j, k, l)
  {
    hide LiveSum, TotalSum;
    LiveBelowTotal(segs, i, j);
    LiveBelowTotal(segs, k, l);
    TotalGrows(segs, i, j);
    TotalGrows(segs, k, l);
    RatioOrder(TotalSum(segs, k, l) - LiveSum(segs, k, l), TotalSum(segs, k, l), TotalSum(segs, i, j) - LiveSum(segs, i, j), TotalSum(segs, i, j));
  }

  /** The nested search over all windows. */
  method SearchWindows(segs: seq<SegmentStat>, max: nat, budget: nat) returns (bi: nat, bj: nat)
    requires max > 0 && segs != [] && Plausible(segs) && Affordable(segs, 0, 1, max, budget)
    ensures BestWindow(segs, bi, bj, max, budget)
  {
    hide Predict, LiveSum, TotalSum, DeadShare, Affordable, NotPoorer;
    bi, bj := 0, 1;
    var bestDead: real := -1.0;
    var i := 0;
    while i < |segs|
      invariant 0 <= i <= |segs|
      invariant bi < bj <= |segs| && Affordable(segs, bi, bj, max, budget)
      invariant if i == 0 then bestDead == -1.0 else bestDead == DeadShare(segs, bi, bj)
      invariant forall k, l | 0 <= k < l <= |segs| && k < i && Affordable(segs, k, l, max, budget) :: DeadShare(segs, k, l) <= bestDead
      invariant i == 0 || bestDead >= 0.0
    {
      var live, total := 0, 0;
      SumsNone(segs, i);
      var j := i;
      while j < |segs|
        invariant i <= j <= |segs|
        invariant live == LiveSum(segs, i, j) && total == TotalSum(segs, i, j)
        invariant bi < bj <= |segs| && Affordable(segs, bi, bj, max, budget)
        invariant if i == 0 && j == 0 then bestDead == -1.0 else bestDead == DeadShare(segs, bi, bj)
        invariant forall k, l | 0 <= k < l <= |segs| && k < i && Affordable(segs, k, l, max, budget) :: DeadShare(segs, k, l) <= bestDead
        invariant forall l | i < l <= j && Affordable(segs, i, l, max, budget) :: DeadShare(segs, i, l) <= bestDead
        invariant (i == 0 && j == 0) || bestDead >= 0.0
      {
        SumsNext(segs, i, j);
        LiveBelowTotal(segs, i, j + 1);
        live := live + segs[j].liveBytes;
        total := total + segs[j].totalBytes;
        if Predict(live, max) > budget {
          TooMuch(segs, i, j + 1, max, budget);
          break;
        }
        AffordableIs(segs, i, j + 1, max, budget);
        var share := if total > 0 then (total - live) as real / total as real else 0.0;
        ShareIs(segs, i, j + 1);
        if share > bestDead {
          bestDead := share;
          bi, bj := i, j + 1;
        }
        j := j + 1;
      }
      i := i + 1;
    }
    forall k, l | 0 <= k < l <= |segs| && Affordable(segs, k, l, max, budget) ensures NotPoorer(segs, bi, bj, k, l) {
      DeadShareOrder(segs, bi, bj, k, l);
    }
  }

  lemma SumsNone(segs: seq<SegmentStat>, i: nat)
    requires i <= |segs|
    ensures LiveSum(segs, i, i) == 0 && TotalSum(segs, i, i) == 0
  {
  }

  lemma SumsNext(segs: seq<SegmentStat>, i: nat, j: nat)
    requires i <= j < |segs|
    ensures LiveSum(segs, i, j + 1) == LiveSum(segs, i, j) + segs[j].liveBytes
    ensures TotalSum(segs, i, j + 1) == TotalSum(segs, i, j) + segs[j].totalBytes
  {
  }

  lemma AffordableIs(segs: seq<SegmentStat>, i: nat, j: nat, max: nat, budget: nat)
    requires i <= j <= |segs| && max > 0
    ensures Affordable(segs, i, j, max, budget) <==> Predict(LiveSum(segs, i, j), max) <= budget
  {
    PredictExact(LiveSum(segs, i, j), max, budget);
  }

  lemma ShareIs(segs: seq<SegmentStat>, i: nat, j: nat)
    requires i <= j <= |segs|
    ensures var live, total := LiveSum(segs, i, j), TotalSum(segs, i, j);
            DeadShare(segs, i, j) == if total > 0 then (total - live) as real / total as real else 0.0
  {
  }

  lemma TooMuch(segs: seq<SegmentStat>, i: nat, j: nat, max: nat, budget: nat)
    requires i <= j <= |segs| && max > 0 && Predict(LiveSum(segs, i, j), max) > budget
    ensures forall l | j <= l <= |segs| :: !Affordable(segs, i, l, max, budget)
  {
    AffordableIs(segs, i, j, max, budget);
    forall l | j <= l <= |segs| ensures !Affordable(segs, i, l, max, budget) {
      LongerCostsMore(segs, i, j, l, max, budget);
    }
  }

  /** The entries of a range, in their order. */
  function StatsIn(stats: seq<SegmentStat>, r: Range): seq<SegmentStat> {
    if stats == [] then []
    else
      var s := stats[|stats| - 1];
      StatsIn(stats[..|stats| - 1], r) + (if InRange(s.generation, r) then [s] else [])
  }

  /** What narrowing a range gives: the range itself when it is within the budget; its first segment when even that is not;
      else the best affordable window. */
  ghost predicate NarrowedTo(segs: seq<SegmentStat>, range: Range, max: nat, budget: nat, r: Range)
    requires max > 0
  {
    if segs == [] || Affordable(segs, 0, |segs|, max, budget) then r == range
    else if !Affordable(segs, 0, 1, max, budget) then r == Range(segs[0].generation, segs[0].generation)
    else exists i: nat, j: nat :: BestWindow(segs, i, j, max, budget) && r == Range(segs[i].generation, segs[j - 1].generation)
  }

  function GenerationOf(s: SegmentStat): int {
    s.generation
  }

  /** The entries within a range, by generation. */
  ghost predicate EntriesOf(segs: seq<SegmentStat>, stats: seq<SegmentStat>, range: Range) {
    multiset(segs) == multiset(StatsIn(stats, range)) && Ordered(segs, GenerationOf)
  }

  lemma {:induction false} StatsInMembers(stats: seq<SegmentStat>, r: Range)
    ensures forall s | s in StatsIn(stats, r) :: s in stats
  {
    if stats != [] {
      StatsInMembers(stats[..|stats| - 1], r);
      assert stats == stats[..|stats| - 1] + [stats[|stats| - 1]];
    }
  }

  lemma PlausibleEntries(segs: seq<SegmentStat>, stats: seq<SegmentStat>, range: Range)
    requires EntriesOf(segs, stats, range) && Plausible(stats)
    ensures Plausible(segs)
  {
    hide StatsIn, Ordered;
    StatsInMembers(stats, range);
    forall s | s in segs ensures 0 < s.liveBytes <= s.totalBytes {
      assert s in multiset(segs);
    }
  }

  /** The entries of the sealed segments within the range, sorted by generation. */
  method Gather(rs: seq<Rec>, sealedBytes: map<u32, nat>, ranges: seq<Range>, range: Range) returns (segs: seq<SegmentStat>)
    ensures EntriesOf(segs, Stats(rs, sealedBytes, Flatten(ranges)), range)
  {
    hide Flatten, Stats, Ordered;
    var allStats := SegmentStats(rs, ranges, sealedBytes);
    var found := [];
    var i := 0;
    while i < |allStats|
      invariant 0 <= i <= |allStats|
      invariant found == StatsIn(allStats[..i], range)
    {
      assert allStats[..i + 1][..i] == allStats[..i];
      if range.startGen <= allStats[i].generation <= range.endGen {
        found := found + [allStats[i]];
      }
      i := i + 1;
    }
    assert allStats[..i] == allStats;
    segs := SortBy(found, GenerationOf);
  }

  /** What narrowing gives for the sorted entries of the range. */
  ghost predicate Narrowed(rs: seq<Rec>, sealedBytes: map<u32, nat>, ranges: seq<Range>, range: Range, max: nat, budget: nat, to: Range)
    requires max > 0
  {
    exists segs: seq<SegmentStat> ::
      EntriesOf(segs, Stats(rs, sealedBytes, Flatten(ranges)), range) && NarrowedTo(segs, range, max, budget, to)
  }

  /** narrowRange. */
  method Narrow(rs: seq<Rec>, sealedBytes: map<u32, nat>, ranges: seq<Range>, range: Range, max: nat, budget: nat)
    returns (r: Range)
    requires max > 0 && Plausible(Stats(rs, sealedBytes, Flatten(ranges)))
    ensures Narrowed(rs, sealedBytes, ranges, range, max, budget, r)
  {
    hide Flatten, Stats, Predict, LiveSum, Affordable, BestWindow, Plausible, EntriesOf;
    var entries := Gather(rs, sealedBytes, ranges, range);
    PlausibleEntries(entries, Stats(rs, sealedBytes, Flatten(ranges)), range);
    if entries == [] { return range; }
    var totalRangeLive := 0;
    SumsNone(entries, 0);
    var k := 0;
    while k < |entries|
      invariant 0 <= k <= |entries|
      invariant totalRangeLive == LiveSum(entries, 0, k)
    {
      SumsNext(entries, 0, k);
      totalRangeLive := totalRangeLive + entries[k].liveBytes;
      k := k + 1;
    }
    AffordableIs(entries, 0, |entries|, max, budget);
    if Predict(totalRangeLive, max) <= budget { return range; }
    SumsNext(entries, 0, 0);
    AffordableIs(entries, 0, 1, max, budget);
    if Predict(entries[0].liveBytes, max) > budget { return Range(entries[0].generation, entries[0].generation); }
    var bi, bj := SearchWindows(entries, max, budget);
    BestBounds(entries, bi, bj, max, budget);
    r := Range(entries[bi].generation, entries[bj - 1].generation);
  }

  /** The range that narrowing gives in this state. */
  ghost predicate Narrows(cfg: Config, r: Ram, range: Range, budget: nat, to: Range) {
    Narrowed(r.records, r.sealedBytes, r.ranges, range, cfg.maxSegmentBytes, budget, to)
  }

  lemma BestBounds(segs: seq<SegmentStat>, i: nat, j: nat, max: nat, budget: nat)
    requires max > 0 && BestWindow(segs, i, j, max, budget)
    ensures i < j <= |segs|
  {
  }

  // The live bytes of a segment never exceed its file.

  /** The positions from a up to, not including, b. */
  function Span(a: int, b: int): set<int>
    decreases b - a
  {
    if a >= b then {} else Span(a, b - 1) + {b - 1}
  }

  lemma {:induction false} SpanSize(a: int, b: int)
    requires a <= b
    ensures |Span(a, b)| == b - a
    ensures forall y :: y in Span(a, b) <==> a <= y < b
    decreases b - a
  {
    if a < b {
      SpanSize(a, b - 1);
    }
  }

  /** The bytes of the record's event. */
  function EventSpan(x: Rec): set<int> {
    Span(x.offset - ENQUEUE_HEADER_BYTES, x.offset + x.length + EVENT_TRAILER_BYTES)
  }

  function Covered(rs: seq<Rec>, g: u32): set<int> {
    if rs == [] then {}
    else
      var x := rs[|rs| - 1];
      Covered(rs[..|rs| - 1], g) + (if x.gen == g then EventSpan(x) else {})
  }

  lemma EventSpanIs(x: Rec)
    ensures forall y :: y in EventSpan(x) <==> x.offset - ENQUEUE_HEADER_BYTES <= y < x.offset + x.length + EVENT_TRAILER_BYTES
    ensures |EventSpan(x)| == ENQUEUE_OVERHEAD_BYTES + x.length
  {
    SpanSize(x.offset - ENQUEUE_HEADER_BYTES, x.offset + x.length + EVENT_TRAILER_BYTES);
  }

  lemma {:induction false} CoveredBy(rs: seq<Rec>, g: u32, y: int)
    requires y in Covered(rs, g)
    ensures exists i :: 0 <= i < |rs| && rs[i].gen == g && y in EventSpan(rs[i])
  {
    hide EventSpan;
    if y in Covered(rs[..|rs| - 1], g) {
      CoveredBy(rs[..|rs| - 1], g, y);
      var i :| 0 <= i < |rs| - 1 && rs[..|rs| - 1][i].gen == g && y in EventSpan(rs[..|rs| - 1][i]);
      assert rs[i].gen == g && y in EventSpan(rs[i]);
    }
  }

  lemma {:induction false} CoveredSize(rs: seq<Rec>, g: u32)
    requires AllApart(rs)
    ensures |Covered(rs, g)| == LiveIn(rs, g)
  {
    hide EventSpan;
    if rs != [] {
      var init, x := rs[..|rs| - 1], rs[|rs| - 1];
      assert AllApart(init);
      CoveredSize(init, g);
      if x.gen == g {
        EventSpanIs(x);
        forall y | y in Covered(init, g) ensures y !in EventSpan(x) {
          CoveredBy(init, g, y);
          var i :| 0 <= i < |init| && init[i].gen == g && y in EventSpan(init[i]);
          EventSpanIs(init[i]);
          assert RecsApart(rs[i], rs[|rs| - 1]);
        }
        assert Covered(init, g) !! EventSpan(x);
      }
    }
  }

  lemma SubsetSize(a: set<int>, b: set<int>)
    requires a <= b
    ensures |a| <= |b|
  {
    assert b == a + (b - a);
  }

  /** Header and live events of a segment fit in its noted size. */
  lemma LiveFits(d: Files, r: Ram, g: u32)
    requires RecordsOk(d, r) && Noted(r, g) >= SEGMENT_HEADER_BYTES
    ensures SEGMENT_HEADER_BYTES + LiveIn(r.records, g) <= Noted(r, g)
  {
    hide AllApart, InOrder, Covered, EventSpan, Noted;
    var room := Span(SEGMENT_HEADER_BYTES, Noted(r, g));
    SpanSize(SEGMENT_HEADER_BYTES, Noted(r, g));
    forall y | y in Covered(r.records, g) ensures y in room {
      CoveredBy(r.records, g, y);
      var i :| 0 <= i < |r.records| && r.records[i].gen == g && y in EventSpan(r.records[i]);
      assert RecLocated(d, r.gens, r.records[i]) && RecNoted(r, r.records[i]);
      EventSpanIs(r.records[i]);
    }
    CoveredSize(r.records, g);
    SubsetSize(Covered(r.records, g), room);
  }

  /** In every session the statistics of all sealed segments make sense. */
  lemma SelectionReady(d: Files, r: Ram, limit: RecordLimit, durable: bool, exact: bool)
    requires Sound(d, r, limit, durable, exact)
    ensures Plausible(Stats(r.records, r.sealedBytes, Flatten(r.ranges)))
  {
    hide LiveIn, Winner, RecordsOk, DurableOk, ExactOk, Total, WinningSlot, Flatten;
    StepStart(d, r, limit, durable, exact);
    var gens := Flatten(r.ranges);
    var stats := Stats(r.records, r.sealedBytes, gens);
    forall s | s in stats ensures 0 < s.liveBytes <= s.totalBytes {
      var k :| 0 <= k < |gens| && s == StatOf(r.records, r.sealedBytes, gens[k]);
      assert gens[k] in gens;
      SegmentSizes(d, r, limit, durable, exact, gens[k]);
      LiveFits(d, r, gens[k]);
    }
  }

  /** A sealed segment is noted with at least its header. */
  lemma SegmentSizes(d: Files, r: Ram, limit: RecordLimit, durable: bool, exact: bool, g: u32)
    requires Sound(d, r, limit, durable, exact) && g in Flatten(r.ranges)
    ensures g in r.sealedBytes && r.sealedBytes[g] == Noted(r, g) >= SEGMENT_HEADER_BYTES
  {
    hide Winner, RecordsOk, DurableOk, ExactOk, Total, WinningSlot, Flatten, Shape;
    FlattenInGens(d, r);
    TailListed(d, r);
  }

  // What the statistics mean.

  /** The event bytes of the live records in several generations. */
  function LiveOver(rs: seq<Rec>, gens: seq<u32>): nat {
    if gens == [] then 0 else LiveOver(rs, gens[..|gens| - 1]) + LiveIn(rs, gens[|gens| - 1])
  }

  lemma {:induction false} LiveOverPush(rs: seq<Rec>, x: Rec, gens: seq<u32>)
    requires Distinct(gens)
    ensures LiveOver(rs + [x], gens) == LiveOver(rs, gens) + (if x.gen in gens then ENQUEUE_OVERHEAD_BYTES + x.length else 0)
  {
    assert (rs + [x])[..|rs|] == rs;
    if gens != [] {
      var init, g := gens[..|gens| - 1], gens[|gens| - 1];
      assert gens == init + [g];
      DistinctParts(init, [g]);
      LiveOverPush(rs, x, init);
    }
  }

  lemma {:induction false} LiveOverNone(gens: seq<u32>)
    ensures LiveOver([], gens) == 0
  {
    if gens != [] {
      LiveOverNone(gens[..|gens| - 1]);
    }
  }

  /** Counted by generation or by record, the live event bytes of a range are the same. */
  lemma {:induction false} LiveTwice(rs: seq<Rec>, range: Range)
    requires range.startGen <= range.endGen
    ensures LiveOver(rs, Gens(range)) == EventTotal(LiveSizes(rs, range))
  {
    hide Gens, LiveSizes, LiveOver, Distinct;
    GensDistinct(range);
    GensMembers(range);
    if rs == [] {
      LiveOverNone(Gens(range));
      SizesNone(range);
    } else {
      var init, x := rs[..|rs| - 1], rs[|rs| - 1];
      assert rs == init + [x];
      LiveTwice(init, range);
      LiveOverPush(init, x, Gens(range));
      SizesPush(init, x, range);
      if InRange(x.gen, range) {
        assert (LiveSizes(init, range) + [x.length])[..|LiveSizes(init, range)|] == LiveSizes(init, range);
      } else {
        assert LiveSizes(init, range) + [] == LiveSizes(init, range);
      }
    }
  }

  lemma {:induction false} WithinConcat(a: seq<SegmentStat>, b: seq<SegmentStat>, r: Range)
    ensures TotalWithin(a + b, r) == TotalWithin(a, r) + TotalWithin(b, r)
    ensures DeadWithin(a + b, r) == DeadWithin(a, r) + DeadWithin(b, r)
  {
    if b == [] {
      assert a + b == a;
    } else {
      assert (a + b)[..|a + b| - 1] == a + b[..|b| - 1];
      WithinConcat(a, b[..|b| - 1], r);
    }
  }

  lemma {:induction false} WithinNone(a: seq<SegmentStat>, r: Range)
    requires forall s | s in a :: !InRange(s.generation, r)
    ensures TotalWithin(a, r) == 0 && DeadWithin(a, r) == 0
  {
    if a != [] {
      assert a[|a| - 1] in a;
      WithinNone(a[..|a| - 1], r);
    }
  }

  lemma StatsConcat(rs: seq<Rec>, sealedBytes: map<u32, nat>, a: seq<u32>, b: seq<u32>)
    ensures Stats(rs, sealedBytes, a + b) == Stats(rs, sealedBytes, a) + Stats(rs, sealedBytes, b)
  {
    hide LiveIn;
  }

  /** All entries are in the range, and none has more live bytes than bytes. */
  lemma {:induction false} WithinAll(rs: seq<Rec>, sealedBytes: map<u32, nat>, gens: seq<u32>, r: Range)
    requires forall g | g in gens :: InRange(g, r) && g in sealedBytes && SEGMENT_HEADER_BYTES + LiveIn(rs, g) <= sealedBytes[g]
    ensures TotalWithin(Stats(rs, sealedBytes, gens), r) == SumBytes(sealedBytes, gens)
    ensures DeadWithin(Stats(rs, sealedBytes, gens), r) + |gens| * SEGMENT_HEADER_BYTES + LiveOver(rs, gens) == SumBytes(sealedBytes, gens)
  {
    hide LiveIn;
    if gens != [] {
      var init, g := gens[..|gens| - 1], gens[|gens| - 1];
      assert gens == init + [g] && g in gens;
      WithinAll(rs, sealedBytes, init, r);
      StatsPush(rs, sealedBytes, init, g);
      assert (Stats(rs, sealedBytes, init) + [StatOf(rs, sealedBytes, g)])[..|init|] == Stats(rs, sealedBytes, init);
    }
  }

  lemma StatGenerations(rs: seq<Rec>, sealedBytes: map<u32, nat>, gens: seq<u32>)
    ensures forall s | s in Stats(rs, sealedBytes, gens) :: s.generation in gens
  {
    hide LiveIn;
  }

  /** The bytes by which a range is measured, for any part of a range of the manifest: in total, what its segments are noted with;
      of these dead, what a header for each segment and the live events do not take. */
  lemma DeadIsWaste(d: Files, r: Ram, limit: RecordLimit, durable: bool, exact: bool, i: nat, range: Range)
    requires Sound(d, r, limit, durable, exact) && i < |r.ranges|
    requires r.ranges[i].startGen <= range.startGen <= range.endGen <= r.ranges[i].endGen
    ensures var stats := Stats(r.records, r.sealedBytes, Flatten(r.ranges));
            && TotalWithin(stats, range) == SumBytes(r.sealedBytes, Gens(range))
            && DeadWithin(stats, range) + |Gens(range)| * SEGMENT_HEADER_BYTES + EventTotal(LiveSizes(r.records, range))
               == TotalWithin(stats, range)
  {
    hide Flatten, Gens, LiveIn, Stats, LiveSizes, EventTotal, SumBytes, Sound, TotalWithin, DeadWithin, LayoutOk, RecordsOk,
      BytesOk, SlotsOk, Before, After;
    var a, b, c := Before(r.ranges, i, range), Gens(range), After(r.ranges, i, range);
    StepStart(d, r, limit, durable, exact);
    RangesBound(d, r);
    InputSlice(r.ranges, i, range);
    OutsideInput(d, r, i, range);
    GensMembers(range);
    forall g | g in b ensures InRange(g, range) && g in r.sealedBytes && SEGMENT_HEADER_BYTES + LiveIn(r.records, g) <= r.sealedBytes[g] {
      assert g in a + b && g in Flatten(r.ranges);
      SegmentSizes(d, r, limit, durable, exact, g);
      LiveFits(d, r, g);
    }
    StatsConcat(r.records, r.sealedBytes, a + b, c);
    StatsConcat(r.records, r.sealedBytes, a, b);
    WithinConcat(Stats(r.records, r.sealedBytes, a + b), Stats(r.records, r.sealedBytes, c), range);
    WithinConcat(Stats(r.records, r.sealedBytes, a), Stats(r.records, r.sealedBytes, b), range);
    StatGenerations(r.records, r.sealedBytes, a);
    StatGenerations(r.records, r.sealedBytes, c);
    WithinNone(Stats(r.records, r.sealedBytes, a), range);
    WithinNone(Stats(r.records, r.sealedBytes, c), range);
    WithinAll(r.records, r.sealedBytes, b, range);
    LiveTwice(r.records, range);
  }

  /** The range a step sets out to compact: the one chosen, narrowed where there is a budget of outputs. */
  ghost predicate Candidate(cfg: Config, r: Ram, range: Range) {
    exists c: Range ::
      && Choice(r.records, r.ranges, Stats(r.records, r.sealedBytes, Flatten(r.ranges)), Some(c))
      && if cfg.maxOutputSegments > 0 then Narrows(cfg, r, c, cfg.maxOutputSegments, range) else range == c
  }

  /** No range is worth choosing, or the one chosen is declined. */
  ghost predicate NothingLeft(cfg: Config, r: Ram, allowFallback: bool) {
    || Choice(r.records, r.ranges, Stats(r.records, r.sealedBytes, Flatten(r.ranges)), None)
    || exists range: Range :: Candidate(cfg, r, range) && PlannedInput(cfg, r, range, allowFallback).None?
  }

  /** The input is what a compaction of the candidate takes. */
  ghost predicate Takes(cfg: Config, r: Ram, allowFallback: bool, input: Range) {
    exists range: Range ::
      && Candidate(cfg, r, range)
      && var p := PlannedInput(cfg, r, range, allowFallback); p.Some? && input == Reached(r, p.value)
  }

  lemma DeclinedIsLast(cfg: Config, r: Ram, range: Range, allowFallback: bool)
    requires Candidate(cfg, r, range) && PlannedInput(cfg, r, range, allowFallback).None?
    ensures NothingLeft(cfg, r, allowFallback)
  {
    hide Candidate, PlannedInput;
  }

  lemma OwnParent(d: Files, r: Ram, k: nat)
    requires LayoutOk(d, r) && r.tailGen != 0 && k < |r.ranges|
    ensures r.ranges[k].startGen <= r.ranges[k].endGen && Parent(r, r.ranges[k]) == k
  {
    hide Winner, Flatten, Distinct;
    TailActive(Winner(d).value);
    DistinctParts(Flatten(r.ranges), [r.tailGen]);
    assert r.ranges[k] in r.ranges;
    OneParent(r.ranges, Parent(r, r.ranges[k]), k, r.ranges[k].startGen);
  }

  /** When nothing is left to compact, without a budget of outputs and with falling back allowed, then either every range holds
      live records and no dead bytes, or rewriting the range that is chosen, with the tail where that can be sealed into it,
      gains nothing. */
  lemma NothingLeftMeans(cfg: Config, d: Files, r: Ram)
    requires LayoutOk(d, r) && r.tailGen != 0 && cfg.maxOutputSegments == 0
    ensures var stats := Stats(r.records, r.sealedBytes, Flatten(r.ranges));
            NothingLeft(cfg, r, true) <==>
              || (forall k | 0 <= k < |r.ranges| :: HasLive(r.records, r.ranges[k]) && DeadWithin(stats, r.ranges[k]) == 0)
              || exists k :: 0 <= k < |r.ranges| && Choice(r.records, r.ranges, stats, Some(r.ranges[k])) && !Worth(cfg, r, r.ranges[k])
  {
    hide LayoutOk, HasLive, DeadWithin, TotalWithin, Stats, Flatten, PlannedInput, Worth;
    var stats := Stats(r.records, r.sealedBytes, Flatten(r.ranges));
    forall k | 0 <= k < |r.ranges|
      ensures PlannedInput(cfg, r, r.ranges[k], true).None? <==> !Worth(cfg, r, r.ranges[k])
    {
      OwnParent(d, r, k);
      WholeRangePlanned(cfg, r, r.ranges[k]);
    }
    if range :| Candidate(cfg, r, range) && PlannedInput(cfg, r, range, true).None? {
      assert range in r.ranges;
      var k :| 0 <= k < |r.ranges| && r.ranges[k] == range;
      assert Choice(r.records, r.ranges, stats, Some(r.ranges[k]));
    }
    if k :| 0 <= k < |r.ranges| && Choice(r.records, r.ranges, stats, Some(r.ranges[k])) && !Worth(cfg, r, r.ranges[k]) {
      assert Candidate(cfg, r, r.ranges[k]);
    }
  }
}
