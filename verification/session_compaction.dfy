/** The store's state across a compaction: the files it writes, the manifest it publishes, the index it replaces and the
    files it removes. */
module SessionCompaction {
  import opened Bytes
  import opened Codec
  import opened ManifestCodec
  import opened Scan
  import opened LogReplay
  import opened LogCompaction
  import opened Layout
  import opened Disk
  import opened Slots
  import opened Coherence
  import opened Session

  predicate InRange(g: u32, input: Range) {
    input.startGen <= g <= input.endGen
  }

  /** The records stored in the input. */
  function LiveRecs(rs: seq<Rec>, input: Range): seq<Rec> {
    if rs == [] then []
    else if InRange(rs[0].gen, input) then [rs[0]] + LiveRecs(rs[1..], input)
    else LiveRecs(rs[1..], input)
  }

  /** The first replacement for sequence q, or the length when there is none. */
  function MatchRec(reps: seq<Rec>, q: u32): (i: nat)
    ensures i <= |reps|
    ensures i < |reps| ==> reps[i].sequence == q
    ensures forall k | 0 <= k < i :: reps[k].sequence != q
  {
    if reps == [] || reps[0].sequence == q then 0 else 1 + MatchRec(reps[1..], q)
  }

  function ReplacedOne(x: Rec, input: Range, reps: seq<Rec>): Rec {
    if InRange(x.gen, input) && MatchRec(reps, x.sequence) < |reps| then reps[MatchRec(reps, x.sequence)] else x
  }

  /** The replacement pass: every record of the input takes the place of its rewritten copy. */
  function Replaced(rs: seq<Rec>, input: Range, reps: seq<Rec>): (r: seq<Rec>)
    ensures |r| == |rs|
  {
    seq(|rs|, i requires 0 <= i < |rs| => ReplacedOne(rs[i], input, reps))
  }

  /** The output segments are sealed, counted, and hold an ENQUEUE for each of the items in order. */
  predicate OutputOk(d: Files, bytes: map<u32, nat>, gens: seq<u32>, items: seq<Item>, limit: RecordLimit) {
    && (forall g | g in gens :: SealedOk(d, g, limit) && g in bytes && bytes[g] == |Content(d, g)|)
    && var C := LogOf(d, gens, limit);
    && |C| == |items|
    && forall i | 0 <= i < |C| :: C[i].event == Enqueue(items[i].sequence, items[i].payload)
  }

  predicate EnqueuesOnly(C: seq<Logged>) {
    forall i | 0 <= i < |C| :: C[i].event.Enqueue?
  }

  /** The index entries of the rewritten records. */
  function Reps(C: seq<Logged>): (r: seq<Rec>)
    requires EnqueuesOnly(C)
    ensures |r| == |C|
  {
    seq(|C|, i requires 0 <= i < |C| => Strip(Logs(C[i])))
  }

  lemma {:induction false} LiveRecsMembers(rs: seq<Rec>, input: Range)
    ensures forall x :: x in LiveRecs(rs, input) <==> x in rs && InRange(x.gen, input)
  {
    if rs != [] {
      LiveRecsMembers(rs[1..], input);
      assert forall x :: x in rs <==> x == rs[0] || x in rs[1..];
    }
  }

  lemma OrderUnique(rs: seq<Rec>, x: Rec, y: Rec)
    requires InOrder(rs) && x in rs && y in rs && x.sequence == y.sequence
    ensures x == y
  {
  }

  /** The replacement of a record carries the record's own item. */
  lemma ReplacementItem(d: Files, rs: seq<Rec>, input: Range, C: seq<Logged>, x: Rec)
    requires InOrder(rs) && x in rs && InRange(x.gen, input)
    requires var items := Items(d, LiveRecs(rs, input));
             |C| == |items| && forall i | 0 <= i < |C| :: C[i].event == Enqueue(items[i].sequence, items[i].payload)
    ensures var k := MatchRec(Reps(C), x.sequence);
            k < |C| && C[k].event == Enqueue(x.sequence, ItemOf(d, x).payload)
  {
    hide ItemOf;
    var live := LiveRecs(rs, input);
    LiveRecsMembers(rs, input);
    var j :| 0 <= j < |live| && live[j] == x;
    assert Items(d, live)[j] == ItemOf(d, x);
    ItemSequence(d, x);
    assert Reps(C)[j].sequence == x.sequence;
    var k := MatchRec(Reps(C), x.sequence);
    assert k <= j;
    assert Items(d, live)[k] == ItemOf(d, live[k]);
    ItemSequence(d, live[k]);
    assert Reps(C)[k].sequence == live[k].sequence;
    assert live[k] in live;
    OrderUnique(rs, live[k], x);
  }

  lemma ItemSequence(d: Files, x: Rec)
    ensures ItemOf(d, x).sequence == x.sequence
  {
  }

  /** A rewritten record can be read at its new place, and its event is apart from the others. */
  lemma RepsLocated(d: Files, gens: seq<u32>, limit: RecordLimit)
    requires Distinct(gens)
    requires EnqueuesOnly(LogOf(d, gens, limit))
    requires forall g | g in gens :: SealedOk(d, g, limit)
    ensures var C := LogOf(d, gens, limit);
            && (forall i | 0 <= i < |C| :: RecLocated(d, gens, Reps(C)[i]))
            && (forall i | 0 <= i < |C| :: ItemOf(d, Reps(C)[i]) == Item(C[i].event.sequence, C[i].event.payload))
            && (forall i, j | 0 <= i < |C| && 0 <= j < |C| && Reps(C)[i].sequence != Reps(C)[j].sequence ::
                  RecsApart(Reps(C)[i], Reps(C)[j]))
  {
    hide LogOf, HeaderNames, ScanFrom, Distinct;
    var C := LogOf(d, gens, limit);
    LogInPlace(d, gens, limit);
    LogStored(d, gens, limit);
    forall i | 0 <= i < |C|
      ensures RecLocated(d, gens, Reps(C)[i]) && ItemOf(d, Reps(C)[i]) == Item(C[i].event.sequence, C[i].event.payload)
    {
      assert C[i] in C;
      assert InPlace(Content(d, C[i].gen), C[i]);
      assert SealedOk(d, C[i].gen, limit);
    }
    forall i, j | 0 <= i < |C| && 0 <= j < |C| && Reps(C)[i].sequence != Reps(C)[j].sequence
      ensures RecsApart(Reps(C)[i], Reps(C)[j])
    {
      assert Apart(C[i], C[j]);
    }
  }

  lemma RepLocated(d: Files, gens: seq<u32>, limit: RecordLimit, k: nat)
    requires Distinct(gens) && k < |LogOf(d, gens, limit)|
    requires EnqueuesOnly(LogOf(d, gens, limit))
    requires forall g | g in gens :: SealedOk(d, g, limit)
    ensures var C := LogOf(d, gens, limit);
            && RecLocated(d, gens, Reps(C)[k])
            && ItemOf(d, Reps(C)[k]) == Item(C[k].event.sequence, C[k].event.payload)
  {
    hide LogOf, Distinct, SealedOk, ItemOf;
    RepsLocated(d, gens, limit);
  }

  /** A record after the replacement pass: same sequence and item, in its new place. */
  lemma ReplacedPlace(d: Files, r: Ram, input: Range, output: seq<u32>, limit: RecordLimit, i: nat)
    requires RecordsOk(d, r) && i < |r.records|
    requires OutputOk(d, r.sealedBytes, output, Items(d, LiveRecs(r.records, input)), limit)
    requires Distinct(output)
    ensures var C := LogOf(d, output, limit);
            var x := r.records[i];
            var y := ReplacedOne(x, input, Reps(C));
            && y.sequence == x.sequence && y.length == x.length && ItemOf(d, y) == ItemOf(d, x)
            && RecLocated(d, r.gens, x)
            && (if InRange(x.gen, input)
                then MatchRec(Reps(C), x.sequence) < |C| && y == Reps(C)[MatchRec(Reps(C), x.sequence)] && RecLocated(d, output, y)
                else y == x)
  {
    hide LogOf, SealedOk, Distinct, ItemOf, RecLocated, RecsApart, LiveRecs;
    var C, x := LogOf(d, output, limit), r.records[i];
    assert x in r.records;
    if InRange(x.gen, input) {
      ReplacementItem(d, r.records, input, C, x);
      var k := MatchRec(Reps(C), x.sequence);
      RepLocated(d, output, limit, k);
      ItemSequence(d, x);
      ItemLength(d, r.gens, x);
    }
  }

  /** The index after the replacement pass: same sequences, every record in place and apart, same items. */
  lemma ReplacedRecords(d: Files, r: Ram, input: Range, output: seq<u32>, gens': seq<u32>, limit: RecordLimit)
    requires RecordsOk(d, r) && LengthsOk(r.records, limit)
    requires OutputOk(d, r.sealedBytes, output, Items(d, LiveRecs(r.records, input)), limit)
    requires Distinct(output) && r.tailGen !in output && (forall g | g in output :: g !in r.gens && g in gens')
    requires forall g | g in r.gens && !InRange(g, input) :: g in gens'
    ensures var C := LogOf(d, output, limit);
            var r' := r.(records := Replaced(r.records, input, Reps(C)), gens := gens');
            RecordsOk(d, r') && LengthsOk(r'.records, limit) && Items(d, r'.records) == Items(d, r.records)
  {
    hide LogOf, SealedOk, Distinct, ItemOf, RecLocated, RecNoted, RecsApart, LiveRecs, ReplacedOne, MatchRec;
    var C := LogOf(d, output, limit);
    var reps, rs := Reps(C), r.records;
    var rs' := Replaced(rs, input, reps);
    RepsLocated(d, output, limit);
    forall i | 0 <= i < |rs|
      ensures rs'[i].sequence == rs[i].sequence && rs'[i].length == rs[i].length
      ensures RecLocated(d, gens', rs'[i]) && ItemOf(d, rs'[i]) == ItemOf(d, rs[i]) && RecNoted(r, rs'[i])
    {
      ReplacedPlace(d, r, input, output, limit, i);
      assert rs'[i] == ReplacedOne(rs[i], input, reps);
      assert RecNoted(r, rs[i]);
      if InRange(rs[i].gen, input) {
        RepNoted(d, r, output, Items(d, LiveRecs(rs, input)), rs'[i], limit);
      }
      Relist(d, if InRange(rs[i].gen, input) then output else r.gens, gens', rs'[i]);
    }
    forall i, j | 0 <= i < j < |rs'| ensures RecsApart(rs'[i], rs'[j]) {
      assert rs[i].sequence != rs[j].sequence && RecsApart(rs[i], rs[j]);
      ReplacedPlace(d, r, input, output, limit, i);
      ReplacedPlace(d, r, input, output, limit, j);
      assert rs'[i] == ReplacedOne(rs[i], input, reps) && rs'[j] == ReplacedOne(rs[j], input, reps);
      Listed(d, r.gens, rs[i]);
      Listed(d, r.gens, rs[j]);
      if InRange(rs[i].gen, input) { Listed(d, output, rs'[i]); }
      if InRange(rs[j].gen, input) { Listed(d, output, rs'[j]); }
      GensApart(rs'[i], rs'[j]);
    }
    NotedAlike(r, r.(records := rs', gens := gens'));
    assert InOrder(rs');
  }

  /** An output's size is noted as it is written. */
  lemma RepNoted(d: Files, r: Ram, output: seq<u32>, items: seq<Item>, x: Rec, limit: RecordLimit)
    requires OutputOk(d, r.sealedBytes, output, items, limit) && RecLocated(d, output, x) && r.tailGen !in output
    ensures RecNoted(r, x)
  {
    hide LogOf, SealedOk;
  }

  lemma NotedAlike(r: Ram, r': Ram)
    requires r'.tailGen == r.tailGen && r'.tailBytes == r.tailBytes && r'.sealedBytes == r.sealedBytes
    ensures forall x: Rec :: RecNoted(r', x) == RecNoted(r, x)
    ensures forall g: u32 :: Noted(r', g) == Noted(r, g)
  {
  }

  lemma Listed(d: Files, gens: seq<u32>, x: Rec)
    requires RecLocated(d, gens, x)
    ensures x.gen in gens
  {
  }

  lemma Relist(d: Files, gens: seq<u32>, gens': seq<u32>, x: Rec)
    requires RecLocated(d, gens, x) && (x.gen in gens ==> x.gen in gens')
    ensures RecLocated(d, gens', x)
  {
  }

  lemma GensApart(x: Rec, y: Rec)
    ensures x.gen != y.gen ==> RecsApart(x, y)
  {
  }

  lemma ItemLength(d: Files, gens: seq<u32>, x: Rec)
    requires RecLocated(d, gens, x)
    ensures |ItemOf(d, x).payload| == x.length
  {
  }

  // The same pass on the replayed records.

  function InputSet(input: Range): set<u32> {
    GenSet(Gens(input))
  }

  lemma InputSetRange(input: Range)
    ensures forall g: u32 :: g in InputSet(input) <==> InRange(g, input)
  {
    GensMembers(input);
  }

  lemma {:induction false} LiveStripped(rs: seq<Entry>, input: Range)
    ensures StripAll(Live(rs, InputSet(input))) == LiveRecs(StripAll(rs), input)
  {
    if rs != [] {
      InputSetRange(input);
      LiveStripped(rs[1..], input);
      assert StripAll(rs)[1..] == StripAll(rs[1..]);
      assert StripAll(rs)[0] == Strip(rs[0]);
      StripCons(rs[0], Live(rs[1..], InputSet(input)));
    }
  }

  lemma StripCons(x: Entry, rs: seq<Entry>)
    ensures StripAll([x] + rs) == [Strip(x)] + StripAll(rs)
  {
  }

  /** The output holds exactly the live records of the input. */
  lemma OutputRewritten(d: Files, rs: seq<Entry>, bytes: map<u32, nat>, input: Range, output: seq<u32>, limit: RecordLimit)
    requires forall x | x in rs :: Located(d, x)
    requires OutputOk(d, bytes, output, Items(d, LiveRecs(StripAll(rs), input)), limit)
    ensures Rewritten(LogOf(d, output, limit), Live(rs, InputSet(input)))
  {
    hide LogOf, SealedOk, Items, Live, InputSet;
    var live := Live(rs, InputSet(input));
    LiveStripped(rs, input);
    LiveMembers(rs, InputSet(input));
    StripItems(d, live);
  }

  lemma {:induction false} MatchStripped(C: seq<Logged>, q: u32)
    requires EnqueuesOnly(C)
    ensures MatchRec(Reps(C), q) == Match(C, q)
  {
    if C != [] {
      assert Reps(C)[1..] == Reps(C[1..]);
      MatchStripped(C[1..], q);
    }
  }

  /** Relocating the replayed records is the replacement pass on their index entries. */
  lemma RelocateStripped(rs: seq<Entry>, input: Range, C: seq<Logged>)
    requires Sorted(rs) && Rewritten(C, Live(rs, InputSet(input)))
    requires forall x | x in rs && x.gen in InputSet(input) :: x.sequence in Places(C)
    ensures StripAll(Relocate(rs, InputSet(input), Places(C))) == Replaced(StripAll(rs), input, Reps(C))
  {
    hide Live, InputSet, MatchRec, Match;
    var G, moved := InputSet(input), Relocate(rs, InputSet(input), Places(C));
    InputSetRange(input);
    LiveMembers(rs, G);
    forall i | 0 <= i < |rs| ensures StripAll(moved)[i] == Replaced(StripAll(rs), input, Reps(C))[i] {
      var x := rs[i];
      if InRange(x.gen, input) {
        MatchStripped(C, x.sequence);
        var k := Match(C, x.sequence);
        assert C[k].event == Enqueue(Live(rs, G)[k].sequence, Live(rs, G)[k].payload);
        assert Live(rs, G)[k] in Live(rs, G);
        SameSequence(rs, Live(rs, G)[k], x);
      }
    }
  }

  // Publishing a compaction.

  /** The cut of the replay order that a compaction makes: before, input and after; the tail is the last of after. */
  predicate CutAt(m: Manifest, m': Manifest, before: seq<u32>, input: Range, output: seq<u32>, after: seq<u32>) {
    && ActiveOf(m) == before + Gens(input) + (after + [m.tailGeneration])
    && ActiveOf(m') == before + output + (after + [m.tailGeneration])
    && Flatten(m.ranges) == before + Gens(input) + after
    && Flatten(m'.ranges) == before + output + after
    && m'.tailGeneration == m.tailGeneration
    && Shape(m'.ranges, m'.tailGeneration, m'.nextGeneration)
  }

  /** A remount after the compaction finds the records that the replacement pass computes, and the tail touches no
      generation it did not touch before, and none of the input. */
  lemma CompactedLog(d: Files, r: Ram, m: Manifest, m': Manifest,
                     before: seq<u32>, input: Range, output: seq<u32>, after: seq<u32>, limit: RecordLimit)
    requires CoherentUnder(d, m, limit)
    requires r.records == StripAll(Records(d, m, limit))
    requires CutAt(m, m', before, input, output, after)
    requires OutputOk(d, r.sealedBytes, output, Items(d, LiveRecs(r.records, input)), limit)
    requires SafeInput(d, before, Gens(input), limit)
    ensures CoherentUnder(d, m', limit)
    ensures StripAll(Records(d, m', limit)) == Replaced(r.records, input, Reps(LogOf(d, output, limit)))
    ensures View(Records(d, m', limit)) == View(Records(d, m, limit))
    ensures TailTouched(d, m', limit) <= TailTouched(d, m, limit) - InputSet(input)
  {
    hide Flatten, SealedOk, LogOf, Gens, Distinct, HeaderOk, Replaced, Reps, Live, SafeInput, Relocate, Places, Rewritten,
      ReplayFrom, GoodFrom, Consecutive, InputSet, TailTouched, GenSet;
    var rs, C := Records(d, m, limit), LogOf(d, output, limit);
    RecordsLocated(d, ActiveOf(m), limit);
    OutputRewritten(d, rs, r.sealedBytes, input, output, limit);
    InputSetIs(input);
    CompactCoherent(d, m, m', before, Gens(input), output, after + [m.tailGeneration], limit);
    RecordsSorted(d, m, limit);
    RelocateStripped(rs, input, C);
    RelocateView(rs, InputSet(input), Places(C));
    CompactedTouched(d, m, m', before, input, output, after, limit);
  }

  lemma InputSetIs(input: Range)
    ensures InputSet(input) == GenSet(Gens(input))
  {
  }

  lemma RecordsSorted(d: Files, m: Manifest, limit: RecordLimit)
    requires CoherentUnder(d, m, limit)
    ensures Sorted(Records(d, m, limit))
  {
    SortedEmpty();
    GoodSorted([], LogIn(d, m, limit));
  }

  lemma CompactedTouched(d: Files, m: Manifest, m': Manifest,
                         before: seq<u32>, input: Range, output: seq<u32>, after: seq<u32>, limit: RecordLimit)
    requires CoherentUnder(d, m, limit)
    requires CutAt(m, m', before, input, output, after)
    requires Rewritten(LogOf(d, output, limit), Live(Records(d, m, limit), InputSet(input)))
    requires SafeInput(d, before, Gens(input), limit)
    ensures TailTouched(d, m', limit) <= TailTouched(d, m, limit) - InputSet(input)
  {
    hide Flatten, SegmentScan, LogOf, Gens, Distinct, HeaderOk, Live, Rewritten, ReplayFrom, GoodFrom, Consecutive, InputSet,
      Touched, GenSet;
    var t := m.tailGeneration;
    var A, I, B, C := LogOf(d, before, limit), LogOf(d, Gens(input), limit), LogOf(d, after, limit), LogOf(d, output, limit);
    var T := SegmentScan(d, t, limit).events;
    LogConcat(d, before + Gens(input), after + [t], limit);
    LogConcat(d, before, Gens(input), limit);
    LogLast(d, after, t, limit);
    LogConcat(d, before + Gens(input), after, limit);
    LogConcat(d, before + output, after, limit);
    LogConcat(d, before, output, limit);
    InputSetIs(input);
    CutStored(d, m, before, input, after, limit);
    CompactionTouched(A, I, C, B, T, InputSet(input));
  }

  lemma CutStored(d: Files, m: Manifest, before: seq<u32>, input: Range, after: seq<u32>, limit: RecordLimit)
    requires Distinct(ActiveOf(m)) && ActiveOf(m) == before + Gens(input) + (after + [m.tailGeneration])
    ensures StoredOutside(LogOf(d, before, limit), InputSet(input))
    ensures StoredIn(LogOf(d, Gens(input), limit), InputSet(input))
    ensures StoredOutside(LogOf(d, after + [m.tailGeneration], limit), InputSet(input))
  {
    hide Flatten, LogOf, Gens, Distinct;
    LogStored(d, before, limit);
    LogStored(d, Gens(input), limit);
    LogStored(d, after + [m.tailGeneration], limit);
    DistinctParts(before + Gens(input), after + [m.tailGeneration]);
    DistinctParts(before, Gens(input));
    assert forall g | g in Gens(input) :: g in before + Gens(input);
  }

  /** What a compaction replaces: the input, a part of the range at index i, by the output ranges (one, or none), with
      adjacent ranges merged around index k, and next the first generation left unused. */
  datatype Plan = Plan(i: nat, input: Range, out: seq<Range>, k: nat, next: u32)

  function PlanManifest(r: Ram, p: Plan): Manifest
    requires p.i < |r.ranges| && p.input.endGen <= r.ranges[p.i].endGen
  {
    Manifest(0, p.next, Merged(Spliced(r.ranges, p.i, p.input, p.out), p.k), r.tailGen)
  }

  /** The plan fits the manifest: the input lies in its parent, the output is new, and the ranges are not too many. */
  predicate PlanOk(r: Ram, p: Plan) {
    && r.tailGen != 0
    && p.i < |r.ranges|
    && r.ranges[p.i].startGen <= p.input.startGen <= p.input.endGen <= r.ranges[p.i].endGen
    && AllFormed(p.out) && Distinct(Flatten(p.out)) && r.nextGen <= p.next
    && (forall g | g in Flatten(p.out) :: r.nextGen <= g < p.next)
    && |Merged(Spliced(r.ranges, p.i, p.input, p.out), p.k)| <= MANIFEST_MAX_RANGES
  }

  predicate PlanSafe(d: Files, r: Ram, p: Plan, limit: RecordLimit)
    requires p.i < |r.ranges|
  {
    SafeInput(d, Before(r.ranges, p.i, p.input), Gens(p.input), limit)
  }

  /** The index, slots, counters and dependencies once the plan's manifest is published and the replacement pass done. */
  function PlanRam(d: Files, r: Ram, p: Plan, limit: RecordLimit): Ram
    requires PlanOk(r, p) && Publishable(d)
    requires EnqueuesOnly(LogOf(d, Flatten(p.out), limit))
  {
    PublishedRam(d, r, PlanManifest(r, p)).(
      records := Replaced(r.records, p.input, Reps(LogOf(d, Flatten(p.out), limit))),
      affected := r.affected - InputSet(p.input))
  }

  lemma PlanCut(d: Files, r: Ram, p: Plan)
    requires LayoutOk(d, r) && PlanOk(r, p)
    ensures var m, m' := Winner(d).value, PlanManifest(r, p);
            && Formed(m')
            && CutAt(m, m', Before(r.ranges, p.i, p.input), p.input, Flatten(p.out), After(r.ranges, p.i, p.input))
  {
    hide Flatten, Gens, Winner, Distinct, Merged, Spliced, Before, After;
    var m, m' := Winner(d).value, PlanManifest(r, p);
    TailActive(m);
    ShapeGrows(r.ranges, r.tailGen, m.nextGeneration, r.nextGen);
    CompactionShape(r.ranges, r.tailGen, r.nextGen, p.i, p.input, p.out, p.k, p.next);
    InputSlice(r.ranges, p.i, p.input);
    SplicedFormed(r.ranges, p.i, p.input, p.out);
    SplicedFlatten(r.ranges, p.i, p.input, p.out);
    MergedFlatten(Spliced(r.ranges, p.i, p.input, p.out), p.k);
    Regroup3(Before(r.ranges, p.i, p.input), Gens(p.input), After(r.ranges, p.i, p.input), [m.tailGeneration]);
    TailActive(m');
  }

  lemma Regroup3(a: seq<u32>, b: seq<u32>, c: seq<u32>, t: seq<u32>)
    ensures a + b + c + t == a + b + (c + t)
  {
  }

  function PlanFiles(d: Files, r: Ram, p: Plan): Files
    requires PlanOk(r, p) && Publishable(d)
  {
    PublishedFiles(d, PlanManifest(r, p))
  }

  /** The output of the plan is on disk and holds what is live in the input. */
  predicate OutputReady(d: Files, r: Ram, p: Plan, limit: RecordLimit) {
    OutputOk(d, r.sealedBytes, Flatten(p.out), Items(d, LiveRecs(r.records, p.input)), limit)
  }

  /** The generations listed after the compaction: those before the input, the output, those behind the input, the tail. */
  lemma PlanKeeps(d: Files, r: Ram, p: Plan)
    requires LayoutOk(d, r) && PlanOk(r, p)
    ensures var m' := PlanManifest(r, p);
            && (forall g | g in Flatten(p.out) :: g !in r.gens && g in ActiveOf(m'))
            && (forall g | g in r.gens && !InRange(g, p.input) :: g in ActiveOf(m'))
            && (forall g | g in ActiveOf(m') :: g in r.gens || g in Flatten(p.out))
            && (forall g | g in Flatten(m'.ranges) :: g in Flatten(r.ranges) || g in Flatten(p.out))
            && r.tailGen in r.gens && !InRange(r.tailGen, p.input)
  {
    hide Flatten, Gens, Winner, Distinct, Merged, Spliced, Before, After;
    var m, m' := Winner(d).value, PlanManifest(r, p);
    var a, b := Before(r.ranges, p.i, p.input), After(r.ranges, p.i, p.input);
    PlanCut(d, r, p);
    GensMembers(p.input);
    TailActive(m);
    assert forall g | g in Gens(p.input) :: g in Flatten(m.ranges);
    assert forall g | g in a || g in b :: g in Flatten(m.ranges) && g in ActiveOf(m');
    forall g | g in r.gens && !InRange(g, p.input) ensures g in ActiveOf(m') {
      assert g in a || g in Gens(p.input) || g in b || g == r.tailGen;
    }
  }

  /** The generations listed after the compaction are in place. */
  lemma PlanListed(d: Files, r: Ram, p: Plan, limit: RecordLimit)
    requires LayoutOk(d, r) && BytesOk(d, r) && PlanOk(r, p) && OutputReady(d, r, p, limit)
    ensures var m' := PlanManifest(r, p);
            && (forall g | g in ActiveOf(m') :: Present(d, g))
            && (forall g | g in Flatten(m'.ranges) ::
                  g in r.sealedBytes && SEGMENT_HEADER_BYTES <= r.sealedBytes[g] <= |Content(d, g)|)
            && (SizesExact(d, r) ==> forall g | g in Flatten(m'.ranges) :: r.sealedBytes[g] == |Content(d, g)|)
            && (forall g | g in Flatten(p.out) :: g !in r.gens && g in ActiveOf(m'))
            && (forall g | g in r.gens && !InRange(g, p.input) :: g in ActiveOf(m'))
            && r.tailGen in r.gens && !InRange(r.tailGen, p.input)
  {
    hide Flatten, Gens, Winner, Distinct, Merged, Spliced, HeaderNames, SegmentScan, LogOf, Total, Items, LiveRecs, ActiveOf;
    PlanKeeps(d, r, p);
    forall g | g in Flatten(p.out) ensures Present(d, g) && g in r.sealedBytes && r.sealedBytes[g] == |Content(d, g)| >= SEGMENT_HEADER_BYTES {
      assert SealedOk(d, g, limit);
      HeaderLength(d, g);
    }
  }

  lemma PlanLayout(d: Files, r: Ram, p: Plan, limit: RecordLimit)
    requires SlotsOk(d, r) && LayoutOk(d, r) && BytesOk(d, r) && PlanOk(r, p) && OutputReady(d, r, p, limit) && Publishable(d)
    requires EnqueuesOnly(LogOf(d, Flatten(p.out), limit))
    ensures var d', r' := PlanFiles(d, r, p), PlanRam(d, r, p, limit);
            && SlotsOk(d', r') && LayoutOk(d', r') && BytesOk(d', r')
            && (SizesExact(d, r) ==> SizesExact(d', r')) && (Tidy(d, r) ==> Tidy(d', r'))
            && Winner(d') == Some(Next(d, PlanManifest(r, p))) && SameSegments(d, d')
            && r'.total - Total(d') == r.total - Total(d)
  {
    hide Flatten, Gens, Winner, Distinct, Merged, Spliced, Inactive, Total, Serialise, LogOf, WinningSlot, WinningEpoch, Formed,
      Replaced, LiveRecs, InputSet, OutputReady, PublishedFiles;
    var m' := PlanManifest(r, p);
    var d', r' := PlanFiles(d, r, p), PlanRam(d, r, p, limit);
    PlanCut(d, r, p);
    FormedSize(m');
    PublishedMeaning(d, r, m');
    PlanListed(d, r, p, limit);
    SlotsCarried(d', PublishedRam(d, r, m'), r');
    assert Content(d', r.tailGen) == Content(d, r.tailGen);
    assert forall g | g in Flatten(m'.ranges) :: Content(d', g) == Content(d, g);
  }

  /** This session across the compaction, for any input: every record keeps its sequence and reads as before. */
  lemma PlanSession(d: Files, r: Ram, p: Plan, limit: RecordLimit)
    requires SessionOk(d, r) && LengthsOk(r.records, limit) && PlanOk(r, p) && OutputReady(d, r, p, limit) && Publishable(d)
    requires EnqueuesOnly(LogOf(d, Flatten(p.out), limit))
    ensures var d', r' := PlanFiles(d, r, p), PlanRam(d, r, p, limit);
            && SessionOk(d', r') && LengthsOk(r'.records, limit) && Items(d', r'.records) == Items(d, r.records)
            && (SizesExact(d, r) ==> SizesExact(d', r')) && (Tidy(d, r) ==> Tidy(d', r'))
            && r'.total - Total(d') == r.total - Total(d)
  {
    hide Flatten, Gens, Winner, Distinct, Merged, Spliced, Inactive, Total, Serialise, LogOf, WinningSlot, WinningEpoch, Formed,
      Replaced, LiveRecs, InputSet, PublishedFiles, SlotsOk, LayoutOk, BytesOk, Items, SameSegments, OutputOk, Next, LengthsOk,
      RecordsOk, Reps, SizesExact, Tidy, Noted;
    var d', r' := PlanFiles(d, r, p), PlanRam(d, r, p, limit);
    var gens' := ActiveOf(PlanManifest(r, p));
    var r1 := r.(records := r'.records, gens := gens');
    PlanLayout(d, r, p, limit);
    PlanListed(d, r, p, limit);
    ReplacedRecords(d, r, p.input, Flatten(p.out), gens', limit);
    NotedAlike(r1, r');
    RecordsCarried(d, d', r1, r');
    ItemsStableSame(d, d', r'.records);
  }

  /** A remount across the compaction of a safe input, and at every crash point of its publish. */
  lemma PlanDurable(d: Files, r: Ram, p: Plan, limit: RecordLimit)
    requires SessionOk(d, r) && PlanOk(r, p) && OutputReady(d, r, p, limit) && Publishable(d)
    requires EnqueuesOnly(LogOf(d, Flatten(p.out), limit))
    requires DurableOk(d, r, limit) && PlanSafe(d, r, p, limit)
    ensures DurableOk(PlanFiles(d, r, p), PlanRam(d, r, p, limit), limit)
    ensures CrashSafe([Write(d, WriteFile(Inactive(d).value, Serialise(Next(d, PlanManifest(r, p)))))], limit,
                      Items(d, r.records), Items(d, r.records))
  {
    hide Flatten, Gens, Winner, Distinct, Merged, Spliced, Inactive, Total, Serialise, LogOf, WinningSlot, WinningEpoch, Formed,
      Replaced, LiveRecs, InputSet, PublishedFiles, SlotsOk, BytesOk, Items, SameSegments, OutputOk, Next, SafeInput, RecordsOk,
      Reps, CoherentUnder, TailEnd, Records, TailTouched, CrashSafe, Before, After, CutAt;
    var m, m' := Winner(d).value, PlanManifest(r, p);
    var d', r' := PlanFiles(d, r, p), PlanRam(d, r, p, limit);
    PlanLayout(d, r, p, limit);
    PlanCut(d, r, p);
    CompactedLog(d, r, m, m', Before(r.ranges, p.i, p.input), p.input, Flatten(p.out), After(r.ranges, p.i, p.input), limit);
    DurableView(d, r, limit);
    PublishSafe(d, m', limit);
    EpochIrrelevant(d, m', Next(d, m').epoch, limit);
    SameMeaning(d, d', Next(d, m'), limit);
    NextIs(d, m');
    SameTail(d, m, m', limit);
  }

  lemma NextIs(d: Files, m: Manifest)
    requires WinningEpoch(d) + 1 < 0x1_0000_0000
    ensures Next(d, m) == m.(epoch := Next(d, m).epoch)
  {
  }

  lemma SameTail(d: Files, m: Manifest, m': Manifest, limit: RecordLimit)
    requires m'.tailGeneration == m.tailGeneration
    ensures TailEnd(d, m', limit) == TailEnd(d, m, limit)
  {
  }

  /** Byte counter and noted sizes are exact, and every segment file is below generation next. */
  ghost predicate ExactBelow(d: Files, r: Ram, next: int) {
    && r.total == Total(d) && SizesExact(d, r)
    && forall g: u32 | Segment(g) in d :: g < next
  }

  /** A published compaction as a whole. */
  lemma PlanState(d: Files, r: Ram, p: Plan, limit: RecordLimit, durable: bool, exact: bool)
    requires Sound(d, r, limit, durable, false) && PlanOk(r, p) && OutputReady(d, r, p, limit) && Publishable(d)
    requires exact ==> ExactBelow(d, r, p.next)
    requires EnqueuesOnly(LogOf(d, Flatten(p.out), limit))
    ensures Formed(PlanManifest(r, p))
    ensures var d', r' := PlanFiles(d, r, p), PlanRam(d, r, p, limit);
            && Sound(d', r', limit, durable && PlanSafe(d, r, p, limit), exact)
            && (Tidy(d, r) ==> Tidy(d', r'))
            && Items(d', r'.records) == Items(d, r.records)
            && (durable && PlanSafe(d, r, p, limit) ==>
                  CrashSafe([Write(d, WriteFile(Inactive(d).value, Serialise(Next(d, PlanManifest(r, p)))))], limit,
                            Items(d, r.records), Items(d, r.records)))
  {
    hide Flatten, Gens, Winner, Distinct, Merged, Spliced, Inactive, Total, Serialise, LogOf, WinningSlot, WinningEpoch, Formed,
      Replaced, LiveRecs, InputSet, SlotsOk, BytesOk, Items, SameSegments, OutputOk, Next, SafeInput, RecordsOk, Reps, DurableOk,
      CrashSafe, Before, After, CutAt, LengthsOk, SizesExact, Tidy;
    PlanCut(d, r, p);
    PlanSession(d, r, p, limit);
    if durable && PlanSafe(d, r, p, limit) {
      PlanDurable(d, r, p, limit);
    }
    if exact {
      FormedSize(PlanManifest(r, p));
      InactiveIsOther(d);
      SlotNotSegment(d);
    }
  }

  lemma SlotNotSegment(d: Files)
    requires Inactive(d).Some?
    ensures !Inactive(d).value.Segment?
  {
  }

  // Removing the retired segments.

  function RemovedRam(r: Ram, g: u32): Ram {
    r.(total := r.total - (if g in r.sealedBytes then r.sealedBytes[g] else 0), sealedBytes := r.sealedBytes - {g})
  }

  /** Removing a segment that the manifest does not list. */
  lemma RemovedSession(d: Files, r: Ram, g: u32)
    requires SessionOk(d, r) && g !in r.gens
    requires g in r.sealedBytes && r.sealedBytes[g] <= |Content(d, g)|
    ensures var d', r' := d - {Segment(g)}, RemovedRam(r, g);
            && SessionOk(d', r') && Items(d', r.records) == Items(d, r.records)
            && (SizesExact(d, r) ==> SizesExact(d', r')) && (Tidy(d, r) ==> Tidy(d', r'))
            && r'.total - Total(d') == r.total - Total(d) + (|Content(d, g)| - r.sealedBytes[g])
  {
    hide Winner, WinningSlot, Inactive, Items, Shape, Total, AllApart, InOrder, RecLocated, BytesOk, SizesExact, RecNoted;
    var d', r' := d - {Segment(g)}, RemovedRam(r, g);
    WinnerDepends(d, d');
    ItemsStable(d, d', r.gens, r.records);
    TailListed(d, r);
    NotedCarried(d, r, r');
    RemovedBytes(d, r, g);
  }

  lemma RemovedBytes(d: Files, r: Ram, g: u32)
    requires LayoutOk(d, r) && BytesOk(d, r) && g !in r.gens
    requires g in r.sealedBytes && r.sealedBytes[g] <= |Content(d, g)|
    ensures var d', r' := d - {Segment(g)}, RemovedRam(r, g);
            && BytesOk(d', r') && (SizesExact(d, r) ==> SizesExact(d', r'))
            && r'.total - Total(d') == r.total - Total(d) + (|Content(d, g)| - r.sealedBytes[g])
  {
    hide Winner, Shape, Total;
    TotalRemove(d, Segment(g));
    FlattenInGens(d, r);
    ContentWithout(d, g);
  }

  lemma RemovedDurable(d: Files, r: Ram, g: u32, limit: RecordLimit)
    requires LayoutOk(d, r) && DurableOk(d, r, limit) && r.tailGen != 0 && g !in r.gens
    ensures DurableOk(d - {Segment(g)}, RemovedRam(r, g), limit)
    ensures CrashSafe([Write(d, Remove(Segment(g)))], limit, Items(d, r.records), Items(d, r.records))
  {
    hide Winner, Records, CoherentUnder, TailTouched, Items, CrashSafe, TailEnd;
    var d', m := d - {Segment(g)}, Winner(d).value;
    DurableView(d, r, limit);
    WinnerDepends(d, d');
    StrayRemoveSafe(d, g, limit);
    ReferencedPresent(d, limit);
    CoherentAgrees(d, d', m, limit);
    StrayTail(d, d', m, limit);
  }

  lemma RemovedState(d: Files, r: Ram, g: u32, limit: RecordLimit, durable: bool, exact: bool)
    requires Sound(d, r, limit, durable, exact) && r.tailGen != 0 && g !in r.gens
    requires g in r.sealedBytes && r.sealedBytes[g] <= |Content(d, g)|
    requires exact ==> r.sealedBytes[g] == |Content(d, g)|
    ensures var d', r' := d - {Segment(g)}, RemovedRam(r, g);
            && Sound(d', r', limit, durable, exact) && (Tidy(d, r) ==> Tidy(d', r'))
            && Items(d', r'.records) == Items(d, r.records)
            && (durable ==> CrashSafe([Write(d, Remove(Segment(g)))], limit, Items(d, r.records), Items(d, r.records)))
  {
    hide SlotsOk, LayoutOk, RecordsOk, BytesOk, Items, DurableOk, CrashSafe, Total, SizesExact, Tidy;
    RemovedSession(d, r, g);
    if durable {
      RemovedDurable(d, r, g, limit);
    }
  }

  /** The size noted for a segment is the same in both. */
  predicate KeptSize(a: map<u32, nat>, b: map<u32, nat>, g: u32) {
    (g in a <==> g in b) && (g in a ==> a[g] == b[g])
  }

  lemma ContentWithout(d: Files, g: u32)
    ensures forall h: u32 | h != g :: Content(d - {Segment(g)}, h) == Content(d, h)
  {
  }

  /** Once the manifest is published nothing lists the input, and the noted sizes of its segments are exact. */
  lemma PlanRetired(d: Files, r: Ram, p: Plan, limit: RecordLimit, durable: bool, exact: bool)
    requires Sound(d, r, limit, durable, exact) && PlanOk(r, p) && Publishable(d)
    ensures forall g: u32 | InRange(g, p.input) ::
              && g !in ActiveOf(PlanManifest(r, p))
              && g in r.sealedBytes && r.sealedBytes[g] <= |Content(PlanFiles(d, r, p), g)|
              && (SizesExact(d, r) ==> r.sealedBytes[g] == |Content(PlanFiles(d, r, p), g)|)
  {
    hide Flatten, Gens, Winner, Distinct, Merged, Spliced, Before, After, Total, Items, LiveRecs, RecordsOk, DurableOk, WinningSlot,
      Serialise, Formed, Inactive, ExactOk;
    var m, m' := Winner(d).value, PlanManifest(r, p);
    var a, b := Before(r.ranges, p.i, p.input), After(r.ranges, p.i, p.input);
    PlanCut(d, r, p);
    FormedSize(m');
    PublishedMeaning(d, r, m');
    GensMembers(p.input);
    DistinctParts(a + Gens(p.input), b + [m.tailGeneration]);
    DistinctParts(a, Gens(p.input));
    forall g: u32 | InRange(g, p.input)
      ensures g !in ActiveOf(m') && g in r.sealedBytes && r.sealedBytes[g] <= |Content(PlanFiles(d, r, p), g)|
      ensures SizesExact(d, r) ==> r.sealedBytes[g] == |Content(PlanFiles(d, r, p), g)|
    {
      assert g in Gens(p.input) && g in a + Gens(p.input) && g in Flatten(m.ranges);
      assert g in ActiveOf(m) && g < r.nextGen;
      assert Content(PlanFiles(d, r, p), g) == Content(d, g);
    }
  }

  lemma WeakenSound(d: Files, r: Ram, limit: RecordLimit, durable: bool, exact: bool)
    requires Sound(d, r, limit, durable, exact)
    ensures Sound(d, r, limit, durable, false)
  {
  }

  lemma PlanFormed(d: Files, r: Ram, p: Plan, limit: RecordLimit, durable: bool, exact: bool)
    requires Sound(d, r, limit, durable, exact) && PlanOk(r, p)
    ensures p.i < |r.ranges| && p.input.endGen <= r.ranges[p.i].endGen && p.input.startGen <= p.input.endGen
    ensures Formed(PlanManifest(r, p)) && SlotsOk(d, r) && r.tailGen != 0
  {
    hide Flatten, Winner, WinningSlot, Merged, Spliced, RecordsOk, BytesOk, DurableOk, ExactOk, CutAt;
    PlanCut(d, r, p);
  }

  /** The replacement pass after the first i records. */
  function PartReplaced(rs: seq<Rec>, input: Range, reps: seq<Rec>, i: nat): (r: seq<Rec>)
    requires i <= |rs|
    ensures |r| == |rs|
  {
    Replaced(rs, input, reps)[..i] + rs[i..]
  }

  lemma ReplacedWhole(rs: seq<Rec>, input: Range, reps: seq<Rec>)
    ensures PartReplaced(rs, input, reps, 0) == rs
    ensures PartReplaced(rs, input, reps, |rs|) == Replaced(rs, input, reps)
  {
    hide MatchRec;
  }

  lemma ReplacedStep(rs: seq<Rec>, input: Range, reps: seq<Rec>, i: nat)
    requires i < |rs|
    ensures var now, next := PartReplaced(rs, input, reps, i), PartReplaced(rs, input, reps, i + 1);
            now[i] == rs[i] && next == now[i := ReplacedOne(rs[i], input, reps)] && (ReplacedOne(rs[i], input, reps) == rs[i] ==> next == now)
  {
    hide MatchRec;
    var all := Replaced(rs, input, reps);
    assert all[..i + 1] == all[..i] + [ReplacedOne(rs[i], input, reps)];
    assert rs[i..] == [rs[i]] + rs[i + 1..];
  }
}
