/** The tail's dependencies: what the recorded generations say about sealing the tail into a compaction. */
module Dependencies {
  import opened Bytes
  import opened Codec
  import opened ManifestCodec
  import opened Scan
  import opened LogReplay
  import opened LogCompaction
  import opened Layout
  import opened Disk
  import opened Slots
  import opened Coherence
  import opened Session
  import opened SessionCompaction
  import opened CompactionStep

  /** Every record of the generations H is older than every other record. */
  predicate OlderThanRest(rs: seq<Entry>, H: set<u32>) {
    forall x, y | x in rs && y in rs && x.gen in H && y.gen !in H :: x.sequence < y.sequence
  }

  /** Then those records come first. */
  lemma {:induction false} LiveFirst(rs: seq<Entry>, H: set<u32>)
    requires Sorted(rs) && OlderThanRest(rs, H)
    ensures Live(rs, H) <= rs
  {
    if rs != [] {
      SortedTail(rs);
      if rs[0].gen in H {
        LiveFirst(rs[1..], H);
      } else {
        LiveMembers(rs, H);
        if Live(rs, H) != [] {
          var x := Live(rs, H)[0];
          assert x in Live(rs, H);
          FrontIsLeast(rs, x);
        }
      }
    }
  }

  /** A prefix of a sorted list, stored apart from the rest, is older than the rest. */
  lemma PrefixOlder(pre: seq<Entry>, rs: seq<Entry>, H: set<u32>)
    requires Sorted(rs) && pre <= rs && forall x | x in pre :: x.gen in H
    requires forall x | x in rs && x.gen in H :: x in pre
    ensures OlderThanRest(rs, H)
  {
    assert forall k | 0 <= k < |pre| :: pre[k] == rs[k] && pre[k] in pre;
    forall x, y | x in rs && y in rs && x.gen in H && y.gen !in H ensures x.sequence < y.sequence {
      var i :| 0 <= i < |pre| && pre[i] == x;
      var j :| 0 <= j < |rs| && rs[j] == y;
    }
  }

  /** Sealing the tail T into a compacted stretch I that keeps the records stored before it, when T touches none of those
      either: the stretch with the tail keeps them as well if and only if they are older than everything else then live. */
  lemma SealedTailExact(A: seq<Logged>, I: seq<Logged>, T: seq<Logged>, H: set<u32>)
    requires Good(A + I + T) && KeepsPrefix(A, I)
    requires StoredIn(A, H) && StoredOutside(I, H) && StoredOutside(T, H)
    requires forall x | x in Replay(A) :: x.gen !in Touched(Replay(A + I), T)
    ensures KeepsPrefix(A, I + T) <==> OlderThanRest(Replay(A + I + T), H)
  {
    hide Sorted, Apply, TouchedBy, OlderThanRest, GoodFrom, ReplayFrom, Live, Touched;
    var pre, mid, fin := Replay(A), Replay(A + I), Replay(A + I + T);
    assert A + (I + T) == A + I + T;
    SortedEmpty();
    GoodConcat([], A + I, T);
    GoodConcat([], A, I);
    GoodSorted([], A);
    GoodSorted([], A + I + T);
    ReplayConcat([], A, I);
    ReplayConcat([], A + I, T);
    EntryGenerations([], A, H);
    NothingNew(pre, I, H);
    NothingNew(mid, T, H);
    forall x | x in pre ensures x in fin && x.gen in H {
      PrefixMember(pre, mid, x);
      UntouchedStays(mid, T, x);
    }
    LiveMembers(fin, H);
    SortedEqual(Live(fin, H), pre);
    if pre <= fin {
      PrefixOlder(pre, fin, H);
    }
    if OlderThanRest(fin, H) {
      LiveFirst(fin, H);
    }
  }

  lemma PrefixMember(a: seq<Entry>, b: seq<Entry>, x: Entry)
    requires a <= b && x in a
    ensures x in b
  {
    var i :| 0 <= i < |a| && a[i] == x;
    assert b[i] == x;
  }

  /** The records of the sealed segments before the tail's events. */
  function SealedRecords(d: Files, m: Manifest, limit: RecordLimit): seq<Entry> {
    Replay(LogOf(d, Flatten(m.ranges), limit))
  }

  function TailEvents(d: Files, m: Manifest, limit: RecordLimit): seq<Logged> {
    SegmentScan(d, m.tailGeneration, limit).events
  }

  /** The recorded generations are complete: a record stored in any other generation is still live, unchanged, after all of the
      tail's events. When they all lie in the input or the tail, sealing the tail into the input drops no event that affects a
      record kept outside. */
  lemma AffectedComplete(d: Files, r: Ram, limit: RecordLimit, x: Entry)
    requires Winner(d).Some? && DurableOk(d, r, limit)
    requires x in SealedRecords(d, Winner(d).value, limit) && x.gen !in r.affected
    ensures x in Records(d, Winner(d).value, limit)
  {
    hide Flatten, SegmentScan, LogOf, ReplayFrom, GoodFrom, Touched, Consecutive, HeaderNames;
    var m := Winner(d).value;
    TailActive(m);
    LogLast(d, Flatten(m.ranges), m.tailGeneration, limit);
    ReplayConcat([], LogOf(d, Flatten(m.ranges), limit), TailEvents(d, m, limit));
    UntouchedStays(SealedRecords(d, m, limit), TailEvents(d, m, limit), x);
  }

  /** Every record stored in these generations is older than every other one: what can be checked in RAM before the tail is
      sealed into an input that has them before it. */
  predicate RecordsOlder(rs: seq<Rec>, before: seq<u32>) {
    forall i, j | 0 <= i < |rs| && 0 <= j < |rs| && rs[i].gen in before && rs[j].gen !in before :: rs[i].sequence < rs[j].sequence
  }

  /** When the tail can be sealed into a safe input that reaches the end of the sealed segments, the input with the tail is
      safe as well if and only if every record stored before it is older than every other record. */
  lemma SealableExact(d: Files, r: Ram, before: seq<u32>, input: Range, limit: RecordLimit)
    requires SlotsOk(d, r) && LayoutOk(d, r) && DurableOk(d, r, limit) && r.tailGen != 0
    requires Sealable(r, input) && input.startGen <= input.endGen
    requires Flatten(r.ranges) == before + Gens(input)
    requires SafeInput(d, before, Gens(input), limit)
    ensures SafeInput(d, before, Gens(Range(input.startGen, r.tailGen)), limit) <==> RecordsOlder(r.records, before)
  {
    hide Flatten, Gens, SegmentScan, LogOf, ReplayFrom, GoodFrom, Touched, Consecutive, HeaderNames, Distinct, Winner,
      OlderThanRest, RecordsOlder;
    var m := Winner(d).value;
    var A, I, T := LogOf(d, before, limit), LogOf(d, Gens(input), limit), TailEvents(d, m, limit);
    TailActive(m);
    GensJoin(input, Range(r.tailGen, r.tailGen));
    GensSingle(r.tailGen);
    LogConcat(d, before, Gens(input), limit);
    LogLast(d, Gens(input), r.tailGen, limit);
    LogLast(d, Flatten(r.ranges), r.tailGen, limit);
    DistinctParts(Flatten(r.ranges), [r.tailGen]);
    DistinctParts(before, Gens(input));
    BeforeApart(r, before, input);
    LogStored(d, before, limit);
    LogStored(d, Gens(input), limit);
    EntryGenerations([], A, GenSet(before));
    forall x | x in Replay(A) ensures x.gen !in Touched(Replay(A + I), T) {
      assert x.gen in before;
    }
    StoredApart(d, before, Gens(input), r.tailGen, limit);
    SealedTailExact(A, I, T, GenSet(before));
    OlderStripped(Records(d, m, limit), before);
  }

  lemma StoredApart(d: Files, before: seq<u32>, gens: seq<u32>, tail: u32, limit: RecordLimit)
    requires tail !in before && forall g | g in before :: g !in gens
    ensures StoredOutside(LogOf(d, gens, limit), GenSet(before))
    ensures StoredOutside(SegmentScan(d, tail, limit).events, GenSet(before))
  {
    hide SegmentScan, LogOf;
    LogStored(d, gens, limit);
    LogStored(d, [tail], limit);
    LogLast(d, [], tail, limit);
    assert [] + [tail] == [tail];
    assert LogOf(d, [], limit) + SegmentScan(d, tail, limit).events == SegmentScan(d, tail, limit).events by { LogNothing(d, limit); }
  }

  lemma LogNothing(d: Files, limit: RecordLimit)
    ensures LogOf(d, [], limit) == []
  {
  }

  lemma OlderStripped(rs: seq<Entry>, before: seq<u32>)
    ensures OlderThanRest(rs, GenSet(before)) <==> RecordsOlder(StripAll(rs), before)
  {
    var recs := StripAll(rs);
    assert forall i | 0 <= i < |rs| :: recs[i] == Strip(rs[i]);
    if RecordsOlder(recs, before) {
      forall x, y | x in rs && y in rs && x.gen in GenSet(before) && y.gen !in GenSet(before) ensures x.sequence < y.sequence {
        var i :| 0 <= i < |rs| && rs[i] == x;
        var j :| 0 <= j < |rs| && rs[j] == y;
        assert recs[i].gen in before && recs[j].gen !in before;
      }
    }
    if OlderThanRest(rs, GenSet(before)) {
      forall i, j | 0 <= i < |recs| && 0 <= j < |recs| && recs[i].gen in before && recs[j].gen !in before
        ensures recs[i].sequence < recs[j].sequence
      {
        assert rs[i] in rs && rs[j] in rs;
      }
    }
  }

  lemma BeforeApart(r: Ram, before: seq<u32>, input: Range)
    requires Flatten(r.ranges) == before + Gens(input) && Distinct(Flatten(r.ranges)) && r.tailGen !in Flatten(r.ranges)
    requires Sealable(r, input) && input.startGen <= input.endGen
    ensures forall g | g in before :: g !in r.affected
  {
    hide Flatten, Gens, Distinct;
    DistinctParts(before, Gens(input));
    GensMembers(input);
    forall g | g in before ensures g !in r.affected {
      assert g !in Gens(input) && g in Flatten(r.ranges);
    }
  }

  /** In a durable session the tail can be sealed into the input if and only if the tail holds an event, the input ends the last
      range, sealing adds no range, and every generation whose records the tail's events are recorded to touch lies in the input
      or behind it. */
  lemma SealableMeans(d: Files, r: Ram, input: Range, limit: RecordLimit)
    requires LayoutOk(d, r) && DurableOk(d, r, limit) && r.tailGen != 0 && r.ranges != []
    ensures Winner(d).Some?
    ensures Sealable(r, input) <==>
              && TailEvents(d, Winner(d).value, limit) != []
              && input.endGen == r.ranges[|r.ranges| - 1].endGen
              && |Sealed(r.ranges, r.tailGen)| == |r.ranges|
              && forall g | g in r.affected :: input.startGen <= g <= r.tailGen
  {
    hide Winner, Flatten, Distinct, HeaderNames, ScanFrom, GoodFrom, ReplayFrom, Touched, Shape;
    ScanNone(d[Segment(r.tailGen)], SEGMENT_HEADER_BYTES, r.tailGen, limit);
    SealedForm(r.ranges, r.tailGen);
  }
}
