/** Packing the live records of a compaction into output segments. */
module Packing {
  import opened Bytes
  import opened Codec
  import opened Scan
  import opened LogReplay

  /** An output segment: its generation, and the live records that go into it. */
  datatype OutputSeg = OutputSeg(gen: int, indices: seq<nat>)

  /** The segments counted before anything is written, and the bytes in the last of them. */
  function Preflight(ps: seq<nat>, max: nat): (r: (nat, nat))
    ensures r.0 >= 1
  {
    if ps == [] then (1, SEGMENT_HEADER_BYTES)
    else
      var (n, b) := Preflight(ps[..|ps| - 1], max);
      var rec := ENQUEUE_OVERHEAD_BYTES + ps[|ps| - 1];
      if b + rec > max then (n + 1, SEGMENT_HEADER_BYTES + rec) else (n, b + rec)
  }

  /** The preflight loop. */
  method CountOutputs(ps: seq<nat>, max: nat) returns (segs: nat)
    ensures segs == if ps == [] then 0 else Preflight(ps, max).0
  {
    segs := 0;
    if ps != [] {
      var segBytes := SEGMENT_HEADER_BYTES;
      segs := 1;
      var i := 0;
      while i < |ps|
        invariant 0 <= i <= |ps|
        invariant (segs, segBytes) == Preflight(ps[..i], max)
      {
        assert ps[..i + 1][..i] == ps[..i];
        var rec := ENQUEUE_OVERHEAD_BYTES + ps[i];
        if segBytes + rec > max {
          segs := segs + 1;
          segBytes := SEGMENT_HEADER_BYTES;
        }
        segBytes := segBytes + rec;
        i := i + 1;
      }
      assert ps[..i] == ps;
    }
  }

  /** The records of consecutive segments, one after the other. */
  function Joined(segs: seq<OutputSeg>): seq<nat> {
    if segs == [] then [] else Joined(segs[..|segs| - 1]) + segs[|segs| - 1].indices
  }

  /** The bytes of a segment that holds these records. */
  function SegmentSize(ps: seq<nat>, indices: seq<nat>): nat {
    if indices == [] then SEGMENT_HEADER_BYTES
    else
      var i := indices[|indices| - 1];
      SegmentSize(ps, indices[..|indices| - 1]) + ENQUEUE_OVERHEAD_BYTES + (if i < |ps| then ps[i] else 0)
  }

  /** Every record fits a segment of its own. */
  predicate EachFits(ps: seq<nat>, max: nat) {
    forall p | p in ps :: SEGMENT_HEADER_BYTES + ENQUEUE_OVERHEAD_BYTES + p <= max
  }

  /** Whether the first record is too large for any segment. The preflight then counts one segment too many. */
  predicate FirstOversized(ps: seq<nat>, max: nat) {
    ps != [] && SEGMENT_HEADER_BYTES + ENQUEUE_OVERHEAD_BYTES + ps[0] > max
  }

  /** One turn of the packing loop: the record joins the open segment unless that is used and would grow too large. */
  function PackOne(ps: seq<nat>, segs: seq<OutputSeg>, max: nat, i: nat): (r: seq<OutputSeg>)
    requires segs != [] && i < |ps|
    ensures r != []
  {
    var init, last := segs[..|segs| - 1], segs[|segs| - 1];
    if last.indices != [] && SegmentSize(ps, last.indices) + ENQUEUE_OVERHEAD_BYTES + ps[i] > max
    then segs + [OutputSeg(last.gen + 1, [i])]
    else init + [last.(indices := last.indices + [i])]
  }

  /** The packing of the first n records. */
  function Packed(ps: seq<nat>, n: nat, max: nat, first: int): (segs: seq<OutputSeg>)
    requires n <= |ps|
    ensures segs != []
  {
    if n == 0 then [OutputSeg(first, [])] else PackOne(ps, Packed(ps, n - 1, max, first), max, n - 1)
  }

  /** The bin-packing loop. */
  method Pack(ps: seq<nat>, max: nat, first: int) returns (segs: seq<OutputSeg>)
    ensures segs == Packed(ps, |ps|, max, first)
  {
    hide SegmentSize, Packed, PackOne;
    var gen := first;
    var segBytes := SEGMENT_HEADER_BYTES;
    segs := [OutputSeg(gen, [])];
    SizeNone(ps);
    PackedNone(ps, max, first);
    var i := 0;
    while i < |ps|
      invariant 0 <= i <= |ps|
      invariant segs == Packed(ps, i, max, first)
      invariant gen == segs[|segs| - 1].gen
      invariant segBytes == SegmentSize(ps, segs[|segs| - 1].indices)
    {
      var rec := ENQUEUE_OVERHEAD_BYTES + ps[i];
      var last := segs[|segs| - 1];
      PackStep(ps, max, first, i);
      if last.indices != [] && segBytes + rec > max {
        gen := gen + 1;
        segs := segs + [OutputSeg(gen, [i])];
        segBytes := SEGMENT_HEADER_BYTES;
      } else {
        segs := segs[..|segs| - 1] + [last.(indices := last.indices + [i])];
      }
      segBytes := segBytes + rec;
      i := i + 1;
    }
  }

  /** One turn of the packing loop, in all its parts. */
  lemma PackStep(ps: seq<nat>, max: nat, first: int, i: nat)
    requires i < |ps|
    ensures var segs, next, rec := Packed(ps, i, max, first), Packed(ps, i + 1, max, first), ENQUEUE_OVERHEAD_BYTES + ps[i];
            var last := segs[|segs| - 1];
            if last.indices != [] && SegmentSize(ps, last.indices) + rec > max
            then next == segs + [OutputSeg(last.gen + 1, [i])] && SegmentSize(ps, [i]) == SEGMENT_HEADER_BYTES + rec
            else next == segs[..|segs| - 1] + [last.(indices := last.indices + [i])]
                 && SegmentSize(ps, last.indices + [i]) == SegmentSize(ps, last.indices) + rec
  {
    hide SegmentSize, Packed, PackOne;
    var segs := Packed(ps, i, max, first);
    PackedNext(ps, i + 1, max, first);
    PackOneIs(ps, segs, max, i);
    SizePush(ps, segs[|segs| - 1].indices, i);
    SizePush(ps, [], i);
    SizeNone(ps);
    assert [] + [i] == [i];
  }

  lemma PackedNone(ps: seq<nat>, max: nat, first: int)
    ensures Packed(ps, 0, max, first) == [OutputSeg(first, [])]
  {
  }

  lemma PackOneIs(ps: seq<nat>, segs: seq<OutputSeg>, max: nat, i: nat)
    requires segs != [] && i < |ps|
    ensures var last := segs[|segs| - 1];
            var opens := last.indices != [] && SegmentSize(ps, last.indices) + ENQUEUE_OVERHEAD_BYTES + ps[i] > max;
            && PackOne(ps, segs, max, i)
               == (if opens then segs + [OutputSeg(last.gen + 1, [i])]
                   else segs[..|segs| - 1] + [last.(indices := last.indices + [i])])
            && PackOne(ps, segs, max, i)[|PackOne(ps, segs, max, i)| - 1].gen == last.gen + (if opens then 1 else 0)
  {
  }

  lemma PackedNext(ps: seq<nat>, n: nat, max: nat, first: int)
    requires 0 < n <= |ps|
    ensures Packed(ps, n, max, first) == PackOne(ps, Packed(ps, n - 1, max, first), max, n - 1)
  {
  }

  lemma SizeNone(ps: seq<nat>)
    ensures SegmentSize(ps, []) == SEGMENT_HEADER_BYTES
  {
  }

  lemma SizePush(ps: seq<nat>, indices: seq<nat>, i: nat)
    requires i < |ps|
    ensures SegmentSize(ps, indices + [i]) == SegmentSize(ps, indices) + ENQUEUE_OVERHEAD_BYTES + ps[i]
  {
    assert (indices + [i])[..|indices|] == indices;
  }

  lemma JoinedPush(segs: seq<OutputSeg>, s: OutputSeg)
    ensures Joined(segs + [s]) == Joined(segs) + s.indices
  {
    assert (segs + [s])[..|segs|] == segs;
  }

  function UpTo(n: nat): (r: seq<nat>)
    ensures |r| == n
  {
    seq(n, i requires 0 <= i < n => i)
  }

  /** The segments hold the records 0 to n - 1 in order, none of them empty; the generations are consecutive. */
  predicate InSequence(segs: seq<OutputSeg>, n: nat, first: int) {
    && Joined(segs) == UpTo(n)
    && (forall k | 0 <= k < |segs| :: segs[k].gen == first + k && segs[k].indices != [])
  }

  lemma SplitLast<T>(s: seq<T>)
    requires s != []
    ensures s == s[..|s| - 1] + [s[|s| - 1]]
  {
  }

  lemma PackOneInSequence(ps: seq<nat>, segs: seq<OutputSeg>, max: nat, first: int, n: nat)
    requires segs != [] && n < |ps|
    requires InSequence(segs, n, first) || (n == 0 && segs == [OutputSeg(first, [])])
    ensures InSequence(PackOne(ps, segs, max, n), n + 1, first)
  {
    hide SegmentSize, Joined;
    var init, last := segs[..|segs| - 1], segs[|segs| - 1];
    SplitLast(segs);
    JoinedPush(init, last);
    JoinedPush(init, last.(indices := last.indices + [n]));
    JoinedPush(segs, OutputSeg(last.gen + 1, [n]));
    JoinedNone();
    assert UpTo(n + 1) == UpTo(n) + [n];
    assert Joined(init) + (last.indices + [n]) == Joined(init) + last.indices + [n];
    assert n == 0 && segs == [OutputSeg(first, [])] ==> init == [];
  }

  lemma JoinedNone()
    ensures Joined([]) == []
  {
  }

  /** The output holds every record once, in order; no segment is empty; the generations are consecutive. */
  lemma {:induction false} PackedInSequence(ps: seq<nat>, n: nat, max: nat, first: int)
    requires 0 < n <= |ps|
    ensures InSequence(Packed(ps, n, max, first), n, first)
  {
    hide PackOne, InSequence;
    if n > 1 {
      PackedInSequence(ps, n - 1, max, first);
    }
    PackOneInSequence(ps, Packed(ps, n - 1, max, first), max, first, n - 1);
  }

  lemma PackOneCount(ps: seq<nat>, segs: seq<OutputSeg>, max: nat, n: nat, bytes: nat)
    requires segs != [] && n < |ps| && SegmentSize(ps, segs[|segs| - 1].indices) == bytes
    ensures var r := PackOne(ps, segs, max, n);
            var rec := ENQUEUE_OVERHEAD_BYTES + ps[n];
            var opens := segs[|segs| - 1].indices != [] && bytes + rec > max;
            && |r| == |segs| + (if opens then 1 else 0)
            && SegmentSize(ps, r[|r| - 1].indices) == (if opens then SEGMENT_HEADER_BYTES else bytes) + rec
            && r[|r| - 1].indices != []
  {
    hide SegmentSize;
    SizePush(ps, segs[|segs| - 1].indices, n);
    SizePush(ps, [], n);
    SizeNone(ps);
    assert [] + [n] == [n];
  }

  /** The packing emits exactly as many segments as the preflight counted, or one fewer when the first record alone is
      too large. */
  lemma {:induction false} PackedCount(ps: seq<nat>, n: nat, max: nat, first: int)
    requires 0 < n <= |ps|
    ensures var segs := Packed(ps, n, max, first);
            && |segs| == Preflight(ps[..n], max).0 - (if FirstOversized(ps, max) then 1 else 0)
            && SegmentSize(ps, segs[|segs| - 1].indices)
               == Preflight(ps[..n], max).1
            && segs[|segs| - 1].indices != []
  {
    hide PackOne, SegmentSize;
    assert ps[..n][..n - 1] == ps[..n - 1];
    var was := Packed(ps, n - 1, max, first);
    if n > 1 {
      PackedCount(ps, n - 1, max, first);
    } else {
      assert Preflight(ps[..0], max) == (1, SEGMENT_HEADER_BYTES);
      SizeNone(ps);
    }
    PackOneCount(ps, was, max, n - 1, SegmentSize(ps, was[|was| - 1].indices));
  }

  lemma PackOneFits(ps: seq<nat>, segs: seq<OutputSeg>, max: nat, n: nat)
    requires segs != [] && n < |ps| && EachFits(ps, max)
    requires forall s | s in segs :: s.indices != [] ==> SegmentSize(ps, s.indices) <= max
    ensures forall s | s in PackOne(ps, segs, max, n) :: s.indices != [] ==> SegmentSize(ps, s.indices) <= max
  {
    hide SegmentSize;
    SplitLast(segs);
    assert ps[n] in ps;
    SizePush(ps, segs[|segs| - 1].indices, n);
    SizePush(ps, [], n);
    SizeNone(ps);
    assert [] + [n] == [n];
  }

  /** When each record fits a segment, no output is larger than one. */
  lemma {:induction false} PackedFits(ps: seq<nat>, n: nat, max: nat, first: int)
    requires n <= |ps| && EachFits(ps, max)
    ensures forall s | s in Packed(ps, n, max, first) :: s.indices != [] ==> SegmentSize(ps, s.indices) <= max
  {
    hide PackOne, SegmentSize;
    if n > 0 {
      PackedFits(ps, n - 1, max, first);
      PackOneFits(ps, Packed(ps, n - 1, max, first), max, n - 1);
    }
  }

  function EventTotal(ps: seq<nat>): nat {
    if ps == [] then 0 else EventTotal(ps[..|ps| - 1]) + ENQUEUE_OVERHEAD_BYTES + ps[|ps| - 1]
  }

  function SizeOfAll(ps: seq<nat>, segs: seq<OutputSeg>): nat {
    if segs == [] then 0 else SizeOfAll(ps, segs[..|segs| - 1]) + SegmentSize(ps, segs[|segs| - 1].indices)
  }

  lemma SizeOfAllPush(ps: seq<nat>, segs: seq<OutputSeg>, s: OutputSeg)
    ensures SizeOfAll(ps, segs + [s]) == SizeOfAll(ps, segs) + SegmentSize(ps, s.indices)
  {
    assert (segs + [s])[..|segs|] == segs;
  }

  lemma PackOneTotal(ps: seq<nat>, segs: seq<OutputSeg>, max: nat, n: nat)
    requires segs != [] && n < |ps|
    ensures var r := PackOne(ps, segs, max, n);
            SizeOfAll(ps, r) == SizeOfAll(ps, segs) + ENQUEUE_OVERHEAD_BYTES + ps[n] + (|r| - |segs|) * SEGMENT_HEADER_BYTES
  {
    hide SegmentSize, SizeOfAll;
    var init, last := segs[..|segs| - 1], segs[|segs| - 1];
    SplitLast(segs);
    SizePush(ps, last.indices, n);
    SizePush(ps, [], n);
    SizeNone(ps);
    assert [] + [n] == [n];
    SizeOfAllPush(ps, init, last);
    SizeOfAllPush(ps, init, last.(indices := last.indices + [n]));
    SizeOfAllPush(ps, segs, OutputSeg(last.gen + 1, [n]));
  }

  /** All outputs together are as large as the bytes the preflight computed: a header for each, and every event once. */
  lemma {:induction false} PackedTotal(ps: seq<nat>, n: nat, max: nat, first: int)
    requires n <= |ps|
    ensures var segs := Packed(ps, n, max, first);
            SizeOfAll(ps, segs) == |segs| * SEGMENT_HEADER_BYTES + EventTotal(ps[..n])
  {
    hide PackOne, SegmentSize, SizeOfAll;
    if n == 0 {
      SizeOfAllPush(ps, [], OutputSeg(first, []));
      assert [] + [OutputSeg(first, [])] == Packed(ps, n, max, first);
      SizeNone(ps);
      SizeOfNone(ps);
    } else {
      PackedTotal(ps, n - 1, max, first);
      assert ps[..n][..n - 1] == ps[..n - 1];
      PackOneTotal(ps, Packed(ps, n - 1, max, first), max, n - 1);
    }
  }

  lemma SizeOfNone(ps: seq<nat>)
    ensures SizeOfAll(ps, []) == 0
  {
  }

  /** A segment is opened only for a record that the one before has no room for. */
  lemma {:induction false} PackedTight(ps: seq<nat>, n: nat, max: nat, first: int, k: nat)
    requires n <= |ps| && k + 1 < |Packed(ps, n, max, first)|
    ensures var segs := Packed(ps, n, max, first);
            && segs[k + 1].indices != [] && segs[k + 1].indices[0] < n
            && SegmentSize(ps, segs[k].indices) + ENQUEUE_OVERHEAD_BYTES + ps[segs[k + 1].indices[0]] > max
  {
    hide SegmentSize, Packed, PackOne;
    PackedNone(ps, max, first);
    if n > 0 {
      var was, now := Packed(ps, n - 1, max, first), Packed(ps, n, max, first);
      PackStep(ps, max, first, n - 1);
      if k + 1 < |was| {
        PackedTight(ps, n - 1, max, first, k);
      }
    }
  }
}
