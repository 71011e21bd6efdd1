/** Stores on which a property fails: the files, the session that a mount of them starts, and what it does next. */
module Witnesses {
  import opened Bytes
  import opened Crc
  import opened Codec
  import opened ManifestCodec
  import opened Scan
  import opened LogReplay
  import opened LogCompaction
  import opened Layout
  import opened Disk
  import opened Slots
  import opened Coherence
  import opened Session
  import opened SessionCompaction
  import opened Packing
  import opened CompactionStep
  import opened Selection
  import opened Mounting
  import opened Dependencies

  // Files that hold given events.

  predicate AllFit(es: seq<Event>, limit: RecordLimit) {
    forall e | e in es :: Within(e, limit)
  }

  /** A segment with these events. */
  function SegmentOf(g: u32, es: seq<Event>, limit: RecordLimit): (b: seq<byte>)
    requires AllFit(es, limit)
    ensures |b| >= SEGMENT_HEADER_BYTES
  {
    if es == [] then SegmentHeader(g, 0)
    else
      assert es[|es| - 1] in es;
      SegmentOf(g, es[..|es| - 1], limit) + Encode(es[|es| - 1])
  }

  /** The events where they lie. */
  function LoggedOf(g: u32, es: seq<Event>, limit: RecordLimit): (log: seq<Logged>)
    requires AllFit(es, limit)
    ensures |log| == |es|
  {
    if es == [] then []
    else
      var init := es[..|es| - 1];
      LoggedOf(g, init, limit) + [Logged(es[|es| - 1], g, |SegmentOf(g, init, limit)|)]
  }

  /** Such a segment is read back whole, and so is the part of it before anything that is no event. */
  lemma {:induction false} SegmentReads(g: u32, es: seq<Event>, limit: RecordLimit)
    requires AllFit(es, limit)
    ensures var b := SegmentOf(g, es, limit);
            && ScanFrom(b, SEGMENT_HEADER_BYTES, g, limit) == Scanned(LoggedOf(g, es, limit), |b|, Clean)
            && SegmentHeader(g, 0) <= b
    decreases |es|
  {
    hide Encode, SegmentHeader, NextEvent;
    if es != [] {
      var init, e := es[..|es| - 1], es[|es| - 1];
      assert e in es;
      SegmentReads(g, init, limit);
      AppendScan(SegmentOf(g, init, limit), e, SEGMENT_HEADER_BYTES, g, limit);
    }
  }

  lemma SegmentNamed(g: u32, b: seq<byte>)
    requires SegmentHeader(g, 0) <= b
    ensures HeaderNames(b, g)
  {
    hide HeaderNames, SegmentHeader;
    var h := SegmentHeader(g, 0);
    assert b == h + b[|h|..];
    HeaderAccepted(g, 0, b[|h|..], g);
  }

  /** The segment holds these events and nothing else. */
  predicate Holding(d: Files, g: u32, es: seq<Event>, limit: RecordLimit) {
    AllFit(es, limit) && Segment(g) in d && d[Segment(g)] == SegmentOf(g, es, limit)
  }

  lemma HoldingReads(d: Files, g: u32, es: seq<Event>, limit: RecordLimit)
    requires Holding(d, g, es, limit)
    ensures SealedOk(d, g, limit) && SegmentScan(d, g, limit) == Scanned(LoggedOf(g, es, limit), |d[Segment(g)]|, Clean)
  {
    hide SegmentOf, LoggedOf, HeaderNames, SegmentHeader, ScanFrom;
    SegmentReads(g, es, limit);
    SegmentNamed(g, d[Segment(g)]);
  }

  /** The only slot there is holds this manifest. */
  predicate Published(d: Files, m: Manifest) {
    Formed(m) && SlotA in d && SlotB !in d && d[SlotA] == Serialise(m)
  }

  lemma PublishedWins(d: Files, m: Manifest)
    requires Published(d, m)
    ensures Winner(d) == Some(m) && Inactive(d) == Some(SlotB) && WinningEpoch(d) == m.epoch
  {
    hide Parse, Serialise, Formed;
    SerialiseThenParse(m);
  }

  // The session that a mount starts.

  function SegmentsOf(d: Files): set<u32> {
    set n | n in d && n.Segment? :: n.gen
  }

  ghost function MountRam(d: Files, limit: RecordLimit): Ram {
    if Winner(d).None? then UNMOUNTED
    else
      var m := Winner(d).value;
      Ram(m.tailGeneration, SegmentScan(d, m.tailGeneration, limit).end, Total(d), m.nextGeneration,
          LogReplay.NextSequence(0, LogIn(d, m, limit)), map g | g in SegmentsOf(d) :: |Content(d, g)|, None, 0,
          SizeOfFile(d, SlotA), SizeOfFile(d, SlotB), ActiveOf(m), m.ranges, StripAll(Records(d, m, limit)), TailTouched(d, m, limit))
  }

  lemma MountRamSound(d: Files, limit: RecordLimit)
    requires Winner(d).Some? && Coherent(d, limit)
    ensures Sound(d, MountRam(d, limit), limit, true, false)
    ensures SlotsOk(d, MountRam(d, limit)) && LayoutOk(d, MountRam(d, limit)) && DurableOk(d, MountRam(d, limit), limit)
    ensures Items(d, MountRam(d, limit).records) == DiskView(d, limit) && MountRam(d, limit).tailGen != 0
  {
    hide Winner, Shape, GoodFrom, ReplayFrom, LogOf, SegmentScan, Flatten, Touched, Total, HeaderNames, Consecutive, DiskView,
      StripAll, RecordsOk, BytesOk, Items, LogReplay.NextSequence;
    var m, r := Winner(d).value, MountRam(d, limit);
    CoherentShape(d, m, limit);
    TailActive(m);
    assert ActiveOf(m)[..|ActiveOf(m)| - 1] == Flatten(m.ranges);
    forall g: u32 | Segment(g) in d ensures g in SegmentsOf(d) {
      assert Segment(g).Segment?;
    }
    assert Found(d, ActiveOf(m), limit, r.records, r.nextSeq, r.affected);
    MountedSound(d, d, r, limit);
  }

  // A compaction that brings a popped record back.

  /** Generations 1 and 3 are sealed, 4 is an empty tail. The POP in 3 names a record stored in 1. */
  function DeadPopManifest(): Manifest {
    Manifest(1, 5, [Range(1, 1), Range(3, 3)], 4)
  }

  function DeadPopFiles(p: seq<byte>, q: seq<byte>, limit: RecordLimit): Files
    requires |p| <= limit && |q| <= limit
  {
    map[SlotA := Serialise(DeadPopManifest()),
        Segment(1) := SegmentOf(1, [Enqueue(0, p), Enqueue(1, q)], limit),
        Segment(3) := SegmentOf(3, [Pop(0)], limit),
        Segment(4) := SegmentOf(4, [], limit)]
  }

  lemma TwoRanges(a: Range, b: Range, tail: u32)
    requires tail != 0
    ensures Flatten([a, b]) == Gens(a) + Gens(b) && Active([a, b], tail) == Gens(a) + Gens(b) + [tail]
  {
    hide Gens;
    assert [a, b] == [a] + [b];
    FlattenConcat([a], [b]);
    FlattenOne(a);
    FlattenOne(b);
  }

  lemma LogOfOne(d: Files, g: u32, limit: RecordLimit)
    ensures LogOf(d, [g], limit) == SegmentScan(d, g, limit).events
  {
    hide SegmentScan;
    assert [g][1..] == [];
    assert SegmentScan(d, g, limit).events + [] == SegmentScan(d, g, limit).events;
  }

  lemma LogOfThree(d: Files, a: u32, b: u32, c: u32, limit: RecordLimit)
    ensures LogOf(d, [a, b, c], limit)
         == SegmentScan(d, a, limit).events + SegmentScan(d, b, limit).events + SegmentScan(d, c, limit).events
    ensures LogOf(d, [a, b], limit) == SegmentScan(d, a, limit).events + SegmentScan(d, b, limit).events
    ensures LogOf(d, [a, c], limit) == SegmentScan(d, a, limit).events + SegmentScan(d, c, limit).events
  {
    hide SegmentScan, LogOf;
    assert [a, b, c] == [a] + [b] + [c] && [a, b] == [a] + [b] && [a, c] == [a] + [c];
    LogOfOne(d, a, limit);
    LogLast(d, [a], b, limit);
    LogLast(d, [a], c, limit);
    LogLast(d, [a] + [b], c, limit);
  }

  lemma OneEvent(g: u32, e: Event, limit: RecordLimit)
    requires Within(e, limit)
    ensures AllFit([e], limit) && LoggedOf(g, [e], limit) == [Logged(e, g, SEGMENT_HEADER_BYTES)]
    ensures |SegmentOf(g, [e], limit)| == SEGMENT_HEADER_BYTES + SizeOf(e)
  {
    hide Encode, SegmentHeader;
    assert [e][..0] == [];
  }

  lemma TwoEvents(g: u32, e: Event, f: Event, limit: RecordLimit)
    requires Within(e, limit) && Within(f, limit)
    ensures AllFit([e, f], limit)
    ensures LoggedOf(g, [e, f], limit) == [Logged(e, g, SEGMENT_HEADER_BYTES), Logged(f, g, SEGMENT_HEADER_BYTES + SizeOf(e))]
  {
    hide Encode, SegmentHeader, SegmentOf;
    assert [e, f][..1] == [e];
    OneEvent(g, e, limit);
  }

  lemma NoEvent(g: u32, limit: RecordLimit)
    ensures AllFit([], limit) && LoggedOf(g, [], limit) == [] && |SegmentOf(g, [], limit)| == SEGMENT_HEADER_BYTES
  {
  }

  /** Two records are put in and the first is popped. */
  lemma PutPutPop(a: Logged, b: Logged, c: Logged)
    requires a.event.Enqueue? && b.event.Enqueue? && a.event.sequence < b.event.sequence && c.event == Pop(a.event.sequence)
    ensures Good([a, b] + [c]) && Replay([a, b] + [c]) == [Logs(b)]
    ensures Replay([a, b]) == [Logs(a), Logs(b)]
  {
    hide Legal, Apply;
    var x, y := Logs(a), Logs(b);
    assert [a, b] + [c] == [a] + ([b] + ([c] + [])) && [a, b] == [a] + ([b] + []);
    FirstStep([], a, [b] + ([c] + []));
    FirstStep([], a, [b] + []);
    assert Apply([], a) == [x] && Legal([], a.event) by { ApplyFirst(a); LegalFirst(a.event); }
    FirstStep([x], b, [c] + []);
    FirstStep([x], b, []);
    StepBehind(x, b);
    FirstStep([x, y], c, []);
    StepPop(x, y, c);
  }

  lemma StepBehind(x: Entry, b: Logged)
    requires b.event.Enqueue? && x.sequence < b.event.sequence
    ensures Apply([x], b) == [x, Logs(b)] && Legal([x], b.event)
  {
  }

  lemma StepPop(x: Entry, y: Entry, c: Logged)
    requires c.event == Pop(x.sequence) && x.sequence < y.sequence
    ensures Apply([x, y], c) == [y] && Legal([x, y], c.event)
  {
  }

  lemma DeadPopSegments(p: seq<byte>, q: seq<byte>, limit: RecordLimit)
    requires |p| <= limit && |q| <= limit
    ensures var d := DeadPopFiles(p, q, limit);
            && Winner(d) == Some(DeadPopManifest())
            && SealedOk(d, 1, limit) && SealedOk(d, 3, limit) && SealedOk(d, 4, limit)
            && SegmentScan(d, 1, limit).events == [Logged(Enqueue(0, p), 1, 20), Logged(Enqueue(1, q), 1, 44 + |p|)]
            && SegmentScan(d, 3, limit).events == [Logged(Pop(0), 3, 20)] && SegmentScan(d, 4, limit) == Scanned([], 20, Clean)
  {
    hide SegmentOf, LoggedOf, Serialise, SegmentScan, HeaderNames, Winner, SealedOk;
    var d, m := DeadPopFiles(p, q, limit), DeadPopManifest();
    TwoEvents(1, Enqueue(0, p), Enqueue(1, q), limit);
    OneEvent(3, Pop(0), limit);
    NoEvent(4, limit);
    HoldingReads(d, 1, [Enqueue(0, p), Enqueue(1, q)], limit);
    HoldingReads(d, 3, [Pop(0)], limit);
    HoldingReads(d, 4, [], limit);
    PublishedWins(d, m);
  }

  lemma DeadPopShape()
    ensures var m := DeadPopManifest();
            && Shape(m.ranges, m.tailGeneration, m.nextGeneration)
            && Flatten(m.ranges) == [1, 3] && ActiveOf(m) == [1, 3, 4]
  {
    hide Flatten, Gens;
    TwoRanges(Range(1, 1), Range(3, 3), 4);
    GensSingle(1);
    GensSingle(3);
  }

  lemma DeadPopStore(p: seq<byte>, q: seq<byte>, limit: RecordLimit)
    requires |p| <= limit && |q| <= limit
    ensures var d, m := DeadPopFiles(p, q, limit), DeadPopManifest();
            && Winner(d) == Some(m) && CoherentUnder(d, m, limit)
            && Records(d, m, limit) == [Entry(1, q, 1, 60 + |p|)]
            && Replay(LogOf(d, [1], limit)) == [Entry(0, p, 1, 36), Entry(1, q, 1, 60 + |p|)]
            && Replay(LogOf(d, [1] + [3], limit)) == [Entry(1, q, 1, 60 + |p|)]
            && Replay(LogOf(d, [1, 4], limit)) == [Entry(0, p, 1, 36), Entry(1, q, 1, 60 + |p|)]
  {
    hide SealedOk, SegmentScan, LogOf, HeaderNames, Replay, Winner, Good, Flatten, Shape, DeadPopFiles;
    var d, m := DeadPopFiles(p, q, limit), DeadPopManifest();
    var a, b, c := Logged(Enqueue(0, p), 1, 20), Logged(Enqueue(1, q), 1, 44 + |p|), Logged(Pop(0), 3, 20);
    DeadPopSegments(p, q, limit);
    DeadPopShape();
    LogOfThree(d, 1, 3, 4, limit);
    LogOfOne(d, 1, limit);
    PutPutPop(a, b, c);
    assert [a, b] + [c] + [] == [a, b] + [c] && [a, b] + [] == [a, b] && [1] + [3] == [1, 3];
    SealedHeader(d, 4, limit);
  }

  lemma SealedHeader(d: Files, g: u32, limit: RecordLimit)
    requires SealedOk(d, g, limit)
    ensures HeaderOk(d, g)
  {
  }

  /** The session on it. */
  lemma DeadPopSession(p: seq<byte>, q: seq<byte>, limit: RecordLimit)
    requires |p| <= limit && |q| <= limit
    ensures var d := DeadPopFiles(p, q, limit);
            && Winner(d) == Some(DeadPopManifest()) && Coherent(d, limit)
            && var r := MountRam(d, limit);
            && SlotsOk(d, r) && LayoutOk(d, r) && Sound(d, r, limit, true, false)
            && Items(d, r.records) == DiskView(d, limit) == [Item(1, q)]
            && r.records == [Rec(1, 1, 60 + |p|, |q|)] && r.ranges == [Range(1, 1), Range(3, 3)]
            && r.tailGen == 4 && r.tailBytes == SEGMENT_HEADER_BYTES && r.nextGen == 5
  {
    hide SealedOk, LogOf, HeaderNames, Replay, Winner, Flatten, Shape, DeadPopFiles, Sound, Touched, Total, SlotsOk, LayoutOk,
      Items, DurableOk, LogReplay.NextSequence, CoherentUnder, Records, SegmentScan;
    DeadPopStore(p, q, limit);
    DeadPopSegments(p, q, limit);
    MountRamSound(DeadPopFiles(p, q, limit), limit);
  }

  /** The dead range is chosen, narrowed to itself whatever the budget, and goes through every check. */
  lemma DeadPopChosen(cfg: Config, r: Ram, allowFallback: bool)
    requires r.ranges == [Range(1, 1), Range(3, 3)] && |r.records| == 1 && r.records[0].gen == 1
    requires r.tailGen == 4 && r.tailBytes == SEGMENT_HEADER_BYTES
    ensures Takes(cfg, r, allowFallback, Range(3, 3))
  {
    hide Stats, Flatten, Narrows, LiveSizes, InputBytes, Worthwhile, Share;
    var range := Range(3, 3);
    var stats := Stats(r.records, r.sealedBytes, Flatten(r.ranges));
    assert HasLive(r.records, r.ranges[0]) && !HasLive(r.records, r.ranges[1]);
    assert Choice(r.records, r.ranges, stats, Some(range));
    if cfg.maxOutputSegments > 0 {
      NarrowedToItself(cfg, r, cfg.maxOutputSegments);
    }
    assert Candidate(cfg, r, range);
    assert Parent(r, range) == 1 by { assert r.ranges[1..] == [range]; }
    assert PlannedInput(cfg, r, range, allowFallback) == Some(range) && Reached(r, range) == range;
  }

  lemma NarrowedToItself(cfg: Config, r: Ram, budget: nat)
    requires r.ranges == [Range(1, 1), Range(3, 3)]
    ensures Narrows(cfg, r, Range(3, 3), budget, Range(3, 3))
  {
    hide LiveIn, Affordable;
    DeadPopShape();
    var range, stats := Range(3, 3), Stats(r.records, r.sealedBytes, Flatten(r.ranges));
    assert stats == [StatOf(r.records, r.sealedBytes, 1), StatOf(r.records, r.sealedBytes, 3)];
    assert stats[..1] == [stats[0]] && [stats[0]][..0] == [];
    assert StatsIn([stats[0]], range) == [];
    assert StatsIn(stats, range) == [stats[1]];
    assert EntriesOf([stats[1]], stats, range);
  }

  lemma DeadPopUnsafe(p: seq<byte>, q: seq<byte>, limit: RecordLimit)
    requires |p| <= limit && |q| <= limit
    ensures var s := Stretch(DeadPopFiles(p, q, limit), [1], Range(3, 3)); Genuine(s) && !StretchSafe(s, limit)
  {
    hide LogOf, Replay, Winner, DeadPopFiles, CoherentUnder, Records;
    DeadPopStore(p, q, limit);
    DeadPopShape();
    GensSingle(3);
    LogConcat(DeadPopFiles(p, q, limit), [1], [3], limit);
  }

  /** The files once the manifest without generation 3 is published. */
  lemma DeadPopPublished(p: seq<byte>, q: seq<byte>, limit: RecordLimit)
    requires |p| <= limit && |q| <= limit
    ensures var d := DeadPopFiles(p, q, limit);
            && Winner(d) == Some(DeadPopManifest())
            && var r, plan := MountRam(d, limit), DeadPlan(MountRam(d, limit), 1, Range(3, 3));
            && Publishable(d) && PlanOk(r, plan) && DiskView(PlanFiles(d, r, plan), limit) == [Item(0, p), Item(1, q)]
  {
    hide LogOf, Replay, Winner, DeadPopFiles, CoherentUnder, Sound, SlotsOk, LayoutOk, Items, Flatten, Serialise, MountRam,
      Inactive;
    DeadPopSession(p, q, limit);
    DeadPopStore(p, q, limit);
    DeadPopShape();
    var d := DeadPopFiles(p, q, limit);
    var r := MountRam(d, limit);
    var plan := DeadPlan(r, 1, Range(3, 3));
    DeadPlanOk(d, r, 1, Range(3, 3), limit);
    OneRangeLeft(r);
    InactiveIsOther(d);
    var m' := PlanManifest(r, plan);
    PublishedMeaning(d, r, m');
    EpochIrrelevant(d, m', Next(d, m').epoch, limit);
    SameMeaning(d, PlanFiles(d, r, plan), Next(d, m'), limit);
  }

  lemma OneRangeLeft(r: Ram)
    requires r.ranges == [Range(1, 1), Range(3, 3)] && r.tailGen == 4 && r.nextGen == 5
    ensures PlanManifest(r, DeadPlan(r, 1, Range(3, 3))) == Manifest(0, 5, [Range(1, 1)], 4)
    ensures ActiveOf(Manifest(0, 5, [Range(1, 1)], 4)) == [1, 4] && Formed(Manifest(0, 5, [Range(1, 1)], 4))
  {
    hide Gens;
    assert r.ranges[..1] == [Range(1, 1)] && r.ranges[2..] == [];
    FlattenOne(Range(1, 1));
    GensSingle(1);
  }

  /** Compaction under pressure can choose a stretch that is not safe. In this store, which is sound in every way, the next step
      drops the POP in generation 3, and a remount then finds the popped record again. */
  lemma DeadPopTaken(cfg: Config, p: seq<byte>, q: seq<byte>, allowFallback: bool)
    requires |p| <= cfg.limit && |q| <= cfg.limit
    ensures var d := DeadPopFiles(p, q, cfg.limit);
            && Winner(d) == Some(DeadPopManifest())
            && var r, plan := MountRam(d, cfg.limit), DeadPlan(MountRam(d, cfg.limit), 1, Range(3, 3));
            && Sound(d, r, cfg.limit, true, false) && Takes(cfg, r, allowFallback, Range(3, 3))
            && Genuine(Stretch(d, [1], Range(3, 3))) && !StretchSafe(Stretch(d, [1], Range(3, 3)), cfg.limit)
            && Publishable(d) && PlanOk(r, plan)
            && DiskView(d, cfg.limit) == Items(d, r.records) == [Item(1, q)]
            && DiskView(PlanFiles(d, r, plan), cfg.limit) == [Item(0, p), Item(1, q)]
  {
    hide Winner, DeadPopFiles, Sound, Takes, PlanOk, PlanFiles, DiskView, Items, Publishable, MountRam, Genuine, StretchSafe;
    DeadPopSession(p, q, cfg.limit);
    DeadPopChosen(cfg, MountRam(DeadPopFiles(p, q, cfg.limit), cfg.limit), allowFallback);
    DeadPopUnsafe(p, q, cfg.limit);
    DeadPopPublished(p, q, cfg.limit);
  }

  // A tail that the check on dependencies lets be sealed, and that reorders the queue.

  /** Generations 1: ENQUEUE 0, ENQUEUE 1; 2: ENQUEUE 2; 3: REWRITE 0, after generation 1 was compacted into 4. */
  function OrphanManifest(): Manifest {
    Manifest(1, 5, [Range(4, 4), Range(2, 2)], 3)
  }

  function OrphanFiles(p: seq<byte>, q: seq<byte>, w: seq<byte>, limit: RecordLimit): Files
    requires |p| <= limit && |q| <= limit && |w| <= limit
  {
    map[SlotA := Serialise(OrphanManifest()),
        Segment(4) := SegmentOf(4, [Enqueue(1, q)], limit),
        Segment(2) := SegmentOf(2, [Enqueue(2, w)], limit),
        Segment(3) := SegmentOf(3, [Rewrite(0, p)], limit)]
  }

  lemma OrphanSegments(p: seq<byte>, q: seq<byte>, w: seq<byte>, limit: RecordLimit)
    requires |p| <= limit && |q| <= limit && |w| <= limit
    ensures var d := OrphanFiles(p, q, w, limit);
            && Winner(d) == Some(OrphanManifest())
            && SealedOk(d, 4, limit) && SealedOk(d, 2, limit) && SealedOk(d, 3, limit)
            && SegmentScan(d, 4, limit).events == [Logged(Enqueue(1, q), 4, 20)]
            && SegmentScan(d, 2, limit).events == [Logged(Enqueue(2, w), 2, 20)]
            && SegmentScan(d, 3, limit) == Scanned([Logged(Rewrite(0, p), 3, 20)], 44 + |p|, Clean)
  {
    hide SegmentOf, LoggedOf, Serialise, SegmentScan, HeaderNames, Winner, SealedOk;
    var d, m := OrphanFiles(p, q, w, limit), OrphanManifest();
    OneEvent(4, Enqueue(1, q), limit);
    OneEvent(2, Enqueue(2, w), limit);
    OneEvent(3, Rewrite(0, p), limit);
    HoldingReads(d, 4, [Enqueue(1, q)], limit);
    HoldingReads(d, 2, [Enqueue(2, w)], limit);
    HoldingReads(d, 3, [Rewrite(0, p)], limit);
    PublishedWins(d, m);
  }

  lemma OrphanShape()
    ensures var m := OrphanManifest();
            && Shape(m.ranges, m.tailGeneration, m.nextGeneration)
            && Flatten(m.ranges) == [4, 2] && ActiveOf(m) == [4, 2, 3]
  {
    hide Flatten, Gens;
    TwoRanges(Range(4, 4), Range(2, 2), 3);
    GensSingle(4);
    GensSingle(2);
  }

  /** Two records are put in, and a REWRITE puts an older one before them. */
  lemma PutPutRewrite(a: Logged, b: Logged, c: Logged)
    requires a.event.Enqueue? && b.event.Enqueue? && c.event.Rewrite?
    requires c.event.sequence < a.event.sequence < b.event.sequence
    ensures Good([a] + [b] + [c]) && Replay([a] + [b] + [c]) == [Logs(c), Logs(a), Logs(b)]
    ensures Replay([a]) == [Logs(a)] && Replay([a] + [b]) == [Logs(a), Logs(b)]
    ensures Touched([Logs(a), Logs(b)], [c]) == {}
  {
    hide Legal, Apply, Touched, TouchedBy;
    var x, y := Logs(a), Logs(b);
    assert [a] + [b] + [c] == [a] + ([b] + ([c] + [])) && [a] + [b] == [a] + ([b] + []) && [a] == [a] + [] && [c] == [c] + [];
    FirstStep([], a, [b] + ([c] + []));
    FirstStep([], a, [b] + []);
    FirstStep([], a, []);
    assert Apply([], a) == [x] && Legal([], a.event) by { ApplyFirst(a); LegalFirst(a.event); }
    FirstStep([x], b, [c] + []);
    FirstStep([x], b, []);
    StepBehind(x, b);
    FirstStep([x, y], c, []);
    StepBefore(x, y, c);
    assert Touched([Logs(c), x, y], []) == {} by { NothingTouched([Logs(c), x, y]); }
  }

  lemma NothingTouched(rs: seq<Entry>)
    ensures Touched(rs, []) == {}
  {
  }

  lemma StepBefore(x: Entry, y: Entry, c: Logged)
    requires c.event.Rewrite? && c.event.sequence < x.sequence < y.sequence
    ensures Apply([x, y], c) == [Logs(c), x, y] && Legal([x, y], c.event) && TouchedBy([x, y], c.event) == {}
  {
    assert Find([x, y], c.event.sequence) == 2 && Slot([x, y], c.event.sequence) == 0;
    assert [x, y][..0] + [Logs(c)] + [x, y][0..] == [Logs(c), x, y];
  }

  lemma OrphanStore(p: seq<byte>, q: seq<byte>, w: seq<byte>, limit: RecordLimit)
    requires |p| <= limit && |q| <= limit && |w| <= limit
    ensures var d, m := OrphanFiles(p, q, w, limit), OrphanManifest();
            && Winner(d) == Some(m) && CoherentUnder(d, m, limit)
            && Records(d, m, limit) == [Entry(0, p, 3, 36), Entry(1, q, 4, 36), Entry(2, w, 2, 36)]
            && LogOf(d, [4], limit) == [Logged(Enqueue(1, q), 4, 20)]
            && Replay(LogOf(d, [4], limit)) == [Entry(1, q, 4, 36)]
            && Replay(LogOf(d, [4] + [2], limit)) == [Entry(1, q, 4, 36), Entry(2, w, 2, 36)]
            && TailTouched(d, m, limit) == {} && TailEnd(d, m, limit) == 44 + |p|
  {
    hide SealedOk, SegmentScan, LogOf, HeaderNames, Replay, Winner, Good, Flatten, Shape, OrphanFiles, Touched;
    var d, m := OrphanFiles(p, q, w, limit), OrphanManifest();
    var a, b, c := Logged(Enqueue(1, q), 4, 20), Logged(Enqueue(2, w), 2, 20), Logged(Rewrite(0, p), 3, 20);
    OrphanSegments(p, q, w, limit);
    OrphanShape();
    LogOfThree(d, 4, 2, 3, limit);
    LogOfOne(d, 4, limit);
    PutPutRewrite(a, b, c);
    assert [4] + [2] == [4, 2];
    SealedHeader(d, 3, limit);
  }

  lemma OrphanSession(p: seq<byte>, q: seq<byte>, w: seq<byte>, limit: RecordLimit)
    requires |p| <= limit && |q| <= limit && |w| <= limit
    ensures var d := OrphanFiles(p, q, w, limit);
            && Winner(d) == Some(OrphanManifest()) && Coherent(d, limit)
            && var r := MountRam(d, limit);
            && SlotsOk(d, r) && LayoutOk(d, r) && DurableOk(d, r, limit) && Sound(d, r, limit, true, false)
            && DiskView(d, limit) == [Item(0, p), Item(1, q), Item(2, w)]
            && r.records == [Rec(0, 3, 36, |p|), Rec(1, 4, 36, |q|), Rec(2, 2, 36, |w|)]
            && r.ranges == [Range(4, 4), Range(2, 2)] && r.tailGen == 3 && r.tailBytes == 44 + |p| && r.affected == {}
  {
    hide SealedOk, LogOf, HeaderNames, Replay, Winner, Flatten, Shape, OrphanFiles, Sound, Touched, Total, SlotsOk, LayoutOk, Items,
      DurableOk, LogReplay.NextSequence, CoherentUnder, Records, SegmentScan, TailTouched;
    OrphanStore(p, q, w, limit);
    OrphanSegments(p, q, w, limit);
    MountRamSound(OrphanFiles(p, q, w, limit), limit);
  }

  /** The input {2, 2} is safe; with the tail it is not. */
  lemma OrphanUnsafe(p: seq<byte>, q: seq<byte>, w: seq<byte>, limit: RecordLimit)
    requires |p| <= limit && |q| <= limit && |w| <= limit
    ensures var d, m := OrphanFiles(p, q, w, limit), OrphanManifest();
            SafeInput(d, [4], Gens(Range(2, 2)), limit) && !SafeInput(d, [4], Gens(Range(2, 3)), limit)
  {
    hide LogOf, Replay, Winner, OrphanFiles, CoherentUnder, Records, Gens;
    var d := OrphanFiles(p, q, w, limit);
    OrphanSession(p, q, w, limit);
    OrphanStore(p, q, w, limit);
    OrphanShape();
    GensSingle(2);
    LogConcat(d, [4], [2], limit);
    var r := MountRam(d, limit);
    assert r.records[1].gen in [4] && r.records[0].gen !in [4];
    SealableExact(d, r, [4], Range(2, 2), limit);
  }

  /** The session takes the input with the tail, when its records fit one segment. */
  lemma OrphanPlanned(cfg: Config, r: Ram, n: nat, k: nat, l: nat, allowFallback: bool)
    requires r.records == [Rec(0, 3, 36, n), Rec(1, 4, 36, k), Rec(2, 2, 36, l)]
    requires r.ranges == [Range(4, 4), Range(2, 2)] && r.tailGen == 3 && r.tailBytes == 44 + n && r.affected == {}
    requires 68 + n + l <= cfg.maxSegmentBytes
    ensures Sealable(r, Range(2, 2))
    ensures PlannedInput(cfg, r, Range(2, 2), allowFallback) == Some(Range(2, 2)) && Reached(r, Range(2, 2)) == Range(2, 3)
  {
    hide InputBytes;
    var rs, input, eff := r.records, Range(2, 2), Range(2, 3);
    assert Parent(r, input) == 1 by {
      assert r.ranges[1..] == [input];
      assert ParentIndex([input], 2, 2) == 0;
    }
    assert HasLive(rs, eff) by { assert InRange(rs[0].gen, eff); }
    assert LiveSizes(rs, eff) == [n, l] by { OrphanSizes(rs, n, k, l); }
    assert Preflight([n, l], cfg.maxSegmentBytes).0 == 1 by { OneOutput(n, l, cfg.maxSegmentBytes); }
    assert Worth(cfg, r, input);
  }

  lemma OrphanSizes(rs: seq<Rec>, n: nat, k: nat, l: nat)
    requires rs == [Rec(0, 3, 36, n), Rec(1, 4, 36, k), Rec(2, 2, 36, l)]
    ensures LiveSizes(rs, Range(2, 3)) == [n, l]
  {
    var input := Range(2, 3);
    assert rs == (([] + [rs[0]]) + [rs[1]]) + [rs[2]];
    SizesNone(input);
    SizesPush([], rs[0], input);
    SizesPush([] + [rs[0]], rs[1], input);
    SizesPush(([] + [rs[0]]) + [rs[1]], rs[2], input);
  }

  lemma OneOutput(n: nat, l: nat, max: nat)
    requires 68 + n + l <= max
    ensures Preflight([n, l], max).0 == 1
  {
    assert [n, l][..1] == [n] && [n][..0] == [];
    assert Preflight([n], max) == (1, 44 + n);
  }

  /** The dependency check on the tail does not see a REWRITE that has lost its record: the check passes, the step is worth
      doing, and once its two live records are rewritten behind generation 4 the queue has another order. */
  lemma OrphanTailReorders(cfg: Config, p: seq<byte>, q: seq<byte>, w: seq<byte>, allowFallback: bool, C: seq<Logged>)
    requires |p| <= cfg.limit && |q| <= cfg.limit && |w| <= cfg.limit && 68 + |p| + |w| <= cfg.maxSegmentBytes
    requires Rewritten(C, [Entry(0, p, 3, 36), Entry(2, w, 2, 36)])
    ensures var d := OrphanFiles(p, q, w, cfg.limit);
            && Winner(d) == Some(OrphanManifest())
            && var r := MountRam(d, cfg.limit);
            && Sound(d, r, cfg.limit, true, false) && Sealable(r, Range(2, 2))
            && PlannedInput(cfg, r, Range(2, 2), allowFallback) == Some(Range(2, 2)) && Reached(r, Range(2, 2)) == Range(2, 3)
            && SafeInput(d, [4], Gens(Range(2, 2)), cfg.limit) && !SafeInput(d, [4], Gens(Range(2, 3)), cfg.limit)
            && DiskView(d, cfg.limit) == [Item(0, p), Item(1, q), Item(2, w)]
            && Live(Records(d, OrphanManifest(), cfg.limit), {2, 3}) == [Entry(0, p, 3, 36), Entry(2, w, 2, 36)]
            && View(Replay(LogOf(d, [4], cfg.limit) + C)) == [Item(1, q), Item(0, p), Item(2, w)]
  {
    hide Winner, OrphanFiles, Sound, DiskView, MountRam, Sealable, PlannedInput, Reached, SafeInput, LogOf, Records, Live, Replay,
      Gens;
    var d, m := OrphanFiles(p, q, w, cfg.limit), OrphanManifest();
    OrphanSession(p, q, w, cfg.limit);
    OrphanStore(p, q, w, cfg.limit);
    OrphanUnsafe(p, q, w, cfg.limit);
    OrphanPlanned(cfg, MountRam(d, cfg.limit), |p|, |q|, |w|, allowFallback);
    LiveOfThree(Entry(0, p, 3, 36), Entry(1, q, 4, 36), Entry(2, w, 2, 36));
    AppendedTwo(Logged(Enqueue(1, q), 4, 20), C);
  }

  lemma LiveOfThree(x: Entry, y: Entry, z: Entry)
    requires x.gen == 3 && y.gen == 4 && z.gen == 2
    ensures Live([x, y, z], {2, 3}) == [x, z]
  {
    assert [x, y, z][1..] == [y, z] && [y, z][1..] == [z] && [z][1..] == [];
    assert Live([z], {2, 3}) == [z];
    assert Live([y, z], {2, 3}) == [z];
  }

  lemma AppendedTwo(a: Logged, C: seq<Logged>)
    requires a.event.Enqueue? && |C| == 2 && C[0].event.Enqueue? && C[1].event.Enqueue?
    ensures Replay([a] + C) == [Logs(a), Logs(C[0]), Logs(C[1])]
  {
    hide Legal, Touched, TouchedBy, GoodFrom;
    var x, y, z := Logs(a), Logs(C[0]), Logs(C[1]);
    assert [a] + C == [a] + ([C[0]] + ([C[1]] + []));
    FirstStep([], a, [C[0]] + ([C[1]] + []));
    FirstStep([x], C[0], [C[1]] + []);
    FirstStep([x, y], C[1], []);
    assert [] + [x] == [x] && [x] + [y] == [x, y] && [x, y] + [z] == [x, y, z];
    assert ReplayFrom([x, y, z], []) == [x, y, z];
  }

  // What an end that could not be cut off can do.

  /** Two records in the tail, and 40 of the 48 bytes of an ENQUEUE that a crash cut short. Its payload happens to hold the bytes
      of a POP. */
  function LeftoverManifest(): Manifest {
    Manifest(1, 2, [], 1)
  }

  function TwoRecords(p: seq<byte>, q: seq<byte>): seq<Event> {
    [Enqueue(0, p), Enqueue(1, q)]
  }

  function TornEvent(): Event {
    Enqueue(2, [0, 0, 0, 0] + PopBytes(1))
  }

  function WholeFiles(p: seq<byte>, q: seq<byte>, limit: RecordLimit): Files
    requires |p| <= limit && |q| <= limit
  {
    map[SlotA := Serialise(LeftoverManifest()), Segment(1) := SegmentOf(1, TwoRecords(p, q), limit)]
  }

  function LeftoverFiles(p: seq<byte>, q: seq<byte>, limit: RecordLimit): Files
    requires |p| <= limit && |q| <= limit
  {
    WholeFiles(p, q, limit)[Segment(1) := SegmentOf(1, TwoRecords(p, q), limit) + Encode(TornEvent())[..40]]
  }

  /** It is what a crash leaves. */
  lemma LeftoverIsCrash(p: seq<byte>, q: seq<byte>, limit: RecordLimit)
    requires |p| <= limit && |q| <= limit
    ensures var d, b := WholeFiles(p, q, limit), SegmentOf(1, TwoRecords(p, q), limit);
            var op := Op.WriteAt(Segment(1), |b|, Encode(TornEvent()));
            && Applicable(d, op) && 40 <= Length(op) && Partial(d, op, 40) == LeftoverFiles(p, q, limit)
  {
    hide SegmentOf, Encode, Serialise;
    var b, y := SegmentOf(1, TwoRecords(p, q), limit), Encode(TornEvent())[..40];
    assert Overlay(b, |b|, y) == b + y;
  }

  /** The last 20 of the 40 bytes are the POP. */
  lemma TornBytes()
    ensures |Encode(TornEvent())| == 48 && Encode(TornEvent())[..40][20..] == PopBytes(1)
  {
    hide PopBytes, RecordHeader, Crc32, Le32;
    var payload := [0, 0, 0, 0] + PopBytes(1);
    var h := RecordHeader(ENQUEUE_MAGIC, 2, 24);
    var y := Encode(TornEvent());
    var body := h + payload;
    assert y == body + Le32(Crc32(body)) + Le32(FOOTER_MAGIC);
    assert y[..40] == body;
    assert body[20..] == PopBytes(1);
  }

  /** A POP written at the old end leaves exactly the bytes of two POPs there. */
  lemma OverwrittenBytes(p: seq<byte>, q: seq<byte>, limit: RecordLimit)
    requires |p| <= limit && |q| <= limit
    ensures var b, es := SegmentOf(1, TwoRecords(p, q), limit), TwoRecords(p, q) + [Pop(0), Pop(1)];
            && AllFit(es, limit)
            && Overlay(b + Encode(TornEvent())[..40], |b|, Encode(Pop(0))) == SegmentOf(1, es, limit)
  {
    hide PopBytes, SegmentHeader, RecordBytes;
    var es := TwoRecords(p, q);
    var b, x := SegmentOf(1, es, limit), Encode(TornEvent())[..40];
    TornBytes();
    assert (b + x)[..|b|] == b && (b + x)[|b| + 20..] == x[20..];
    assert (es + [Pop(0), Pop(1)])[..3] == es + [Pop(0)] && (es + [Pop(0)])[..2] == es;
    assert SegmentOf(1, es + [Pop(0)], limit) == b + PopBytes(0);
    assert SegmentOf(1, es + [Pop(0), Pop(1)], limit) == b + PopBytes(0) + PopBytes(1);
  }

  lemma LeftoverParts(p: seq<byte>, q: seq<byte>, limit: RecordLimit)
    requires |p| <= limit && |q| <= limit
    ensures var d, x := LeftoverFiles(p, q, limit), Encode(TornEvent())[..40];
            && Published(d, LeftoverManifest()) && |x| == 40
            && Segment(1) in d && d[Segment(1)] == SegmentOf(1, TwoRecords(p, q), limit) + x
  {
    hide SegmentOf, Serialise, Encode;
  }

  lemma HeaderFirst(h: seq<byte>, b: seq<byte>, x: seq<byte>)
    requires h <= b
    ensures h <= b + x
  {
  }

  lemma LeftoverScans(p: seq<byte>, q: seq<byte>, limit: RecordLimit)
    requires |p| <= limit && |q| <= limit && 24 <= limit
    ensures var d, b := LeftoverFiles(p, q, limit), SegmentOf(1, TwoRecords(p, q), limit);
            && Winner(d) == Some(LeftoverManifest()) && HeaderOk(d, 1)
            && SegmentScan(d, 1, limit) == Scanned(LoggedOf(1, TwoRecords(p, q), limit), |b|, Torn)
            && |Content(d, 1)| == |b| + 40
  {
    hide SegmentOf, LoggedOf, HeaderNames, Winner, Encode, SegmentHeader, LeftoverFiles, Published, ScanFrom;
    var d, m, b, x := LeftoverFiles(p, q, limit), LeftoverManifest(), SegmentOf(1, TwoRecords(p, q), limit), Encode(TornEvent())[..40];
    LeftoverParts(p, q, limit);
    SegmentReads(1, TwoRecords(p, q), limit);
    InterruptedAppend(b, TornEvent(), 40, SEGMENT_HEADER_BYTES, 1, limit);
    HeaderFirst(SegmentHeader(1, 0), b, x);
    SegmentNamed(1, b + x);
    PublishedWins(d, m);
  }

  lemma LeftoverShape()
    ensures var m := LeftoverManifest();
            Shape(m.ranges, m.tailGeneration, m.nextGeneration) && Flatten(m.ranges) == [] && ActiveOf(m) == [1]
  {
    FlattenNothing();
  }

  lemma LeftoverStore(p: seq<byte>, q: seq<byte>, limit: RecordLimit)
    requires |p| <= limit && |q| <= limit && 24 <= limit
    ensures var d, m := LeftoverFiles(p, q, limit), LeftoverManifest();
            && Winner(d) == Some(m) && CoherentUnder(d, m, limit) && ActiveOf(m) == [1]
            && Records(d, m, limit) == [Entry(0, p, 1, 36), Entry(1, q, 1, 60 + |p|)]
            && TailEnd(d, m, limit) + 40 == |Content(d, 1)|
  {
    hide SegmentOf, SegmentScan, LogOf, HeaderNames, Replay, Winner, LeftoverFiles, GoodFrom, Shape, Flatten;
    var d, m := LeftoverFiles(p, q, limit), LeftoverManifest();
    var a, b := Logged(Enqueue(0, p), 1, 20), Logged(Enqueue(1, q), 1, 44 + |p|);
    LeftoverScans(p, q, limit);
    TwoEvents(1, Enqueue(0, p), Enqueue(1, q), limit);
    LeftoverShape();
    LogOfOne(d, 1, limit);
    PutPutPop(a, b, Logged(Pop(0), 1, 0));
    GoodConcat([], [a, b], [Logged(Pop(0), 1, 0)]);
  }

  lemma LeftoverSession(p: seq<byte>, q: seq<byte>, limit: RecordLimit)
    requires |p| <= limit && |q| <= limit && 24 <= limit
    ensures var d := LeftoverFiles(p, q, limit);
            && Winner(d) == Some(LeftoverManifest()) && Coherent(d, limit) && DiskView(d, limit) == [Item(0, p), Item(1, q)]
            && var r := MountRam(d, limit);
            && SlotsOk(d, r) && LayoutOk(d, r) && Sound(d, r, limit, true, false) && Items(d, r.records) == DiskView(d, limit)
            && r.records == [Rec(0, 1, 36, |p|), Rec(1, 1, 60 + |p|, |q|)] && r.ranges == [] && r.tailGen == 1 && r.nextGen == 2
            && r.tailBytes + 40 == |Content(d, 1)|
  {
    hide SegmentScan, LogOf, HeaderNames, Replay, Winner, Flatten, Shape, LeftoverFiles, Sound, Touched, Total, SlotsOk, LayoutOk,
      Items, DurableOk, LogReplay.NextSequence, CoherentUnder, Records, SegmentOf;
    LeftoverStore(p, q, limit);
    LeftoverScans(p, q, limit);
    MountRamSound(LeftoverFiles(p, q, limit), limit);
  }

  /** Two records are put in, and both are popped. */
  lemma PutPutPopPop(a: Logged, b: Logged, c: Logged, e: Logged)
    requires a.event.Enqueue? && b.event.Enqueue? && a.event.sequence < b.event.sequence
    requires c.event == Pop(a.event.sequence) && e.event == Pop(b.event.sequence)
    ensures Replay([a, b, c, e]) == []
  {
    hide Legal, Apply;
    PutPutPop(a, b, c);
    ReplayLast([], [a, b] + [c], e);
    assert [a, b] + [c] + [e] == [a, b, c, e];
    LastPopped(Logs(b), e);
  }

  lemma LastPopped(x: Entry, e: Logged)
    requires e.event == Pop(x.sequence)
    ensures Apply([x], e) == []
  {
  }

  lemma FourEvents(p: seq<byte>, q: seq<byte>, limit: RecordLimit)
    requires |p| <= limit && |q| <= limit
    ensures var es := TwoRecords(p, q) + [Pop(0), Pop(1)];
            && AllFit(es, limit)
            && exists c, e :: LoggedOf(1, es, limit) == [Logged(Enqueue(0, p), 1, 20), Logged(Enqueue(1, q), 1, 44 + |p|), c, e]
                              && c.event == Pop(0) && e.event == Pop(1)
  {
    hide SegmentOf;
    var es := TwoRecords(p, q);
    TwoEvents(1, Enqueue(0, p), Enqueue(1, q), limit);
    var c := Logged(Pop(0), 1, |SegmentOf(1, es, limit)|);
    var e := Logged(Pop(1), 1, |SegmentOf(1, es + [Pop(0)], limit)|);
    assert (es + [Pop(0), Pop(1)])[..3] == es + [Pop(0)] && (es + [Pop(0)])[..2] == es;
    assert LoggedOf(1, es + [Pop(0)], limit) == LoggedOf(1, es, limit) + [c];
    assert LoggedOf(1, es + [Pop(0), Pop(1)], limit) == LoggedOf(1, es, limit) + [c] + [e];
  }

  lemma LeftoverPopped(p: seq<byte>, q: seq<byte>, limit: RecordLimit)
    requires |p| <= limit && |q| <= limit && 24 <= limit
    ensures var b := SegmentOf(1, TwoRecords(p, q), limit);
            var d' := LeftoverFiles(p, q, limit)[Segment(1) := Overlay(b + Encode(TornEvent())[..40], |b|, Encode(Pop(0)))];
            DiskView(d', limit) == []
  {
    hide SegmentOf, LoggedOf, Serialise, Winner, Encode, Overlay, Replay, SegmentScan, SealedOk;
    var b, es := SegmentOf(1, TwoRecords(p, q), limit), TwoRecords(p, q) + [Pop(0), Pop(1)];
    var d' := LeftoverFiles(p, q, limit)[Segment(1) := Overlay(b + Encode(TornEvent())[..40], |b|, Encode(Pop(0)))];
    OverwrittenBytes(p, q, limit);
    HoldingReads(d', 1, es, limit);
    FourEvents(p, q, limit);
    var c, e :| LoggedOf(1, es, limit) == [Logged(Enqueue(0, p), 1, 20), Logged(Enqueue(1, q), 1, 44 + |p|), c, e]
                && c.event == Pop(0) && e.event == Pop(1);
    PutPutPopPop(Logged(Enqueue(0, p), 1, 20), Logged(Enqueue(1, q), 1, 44 + |p|), c, e);
    PublishedWins(d', LeftoverManifest());
    LeftoverShape();
    LogOfOne(d', 1, limit);
  }

  lemma LeftoverTail(p: seq<byte>, q: seq<byte>, limit: RecordLimit)
    requires |p| <= limit && |q| <= limit && 24 <= limit
    ensures var d, b := LeftoverFiles(p, q, limit), SegmentOf(1, TwoRecords(p, q), limit);
            var r := MountRam(d, limit);
            && r.tailGen == 1 && r.tailBytes == |b| && Segment(1) in d && d[Segment(1)] == b + Encode(TornEvent())[..40]
            && !Tidy(d, r) && Allowed(r.records, Pop(0))
  {
    hide SegmentOf, Winner, LeftoverFiles, Sound, SlotsOk, LayoutOk, DiskView, Encode, MountRam, CoherentUnder, Items;
    LeftoverSession(p, q, limit);
    LeftoverParts(p, q, limit);
  }

  lemma AppendedHere(d: Files, r: Ram, e: Event, b: seq<byte>)
    requires Encodable(e) && Segment(r.tailGen) in d && d[Segment(r.tailGen)] == b && r.tailBytes <= |b|
    ensures AppendedFiles(d, r, e) == d[Segment(r.tailGen) := Overlay(b, r.tailBytes, Encode(e))]
  {
  }

  /** In a sound session, when what will be left over is quiet, a remount after an event finds what the session reads. */
  lemma QuietAgrees(d: Files, r: Ram, e: Event, limit: RecordLimit)
    requires Sound(d, r, limit, true, false) && r.tailGen != 0 && Within(e, limit) && Allowed(r.records, e)
    ensures Segment(r.tailGen) in d && r.tailBytes <= |d[Segment(r.tailGen)]|
    ensures var d', r' := AppendedFiles(d, r, e), AppendedRam(r, e);
            && Items(d', r'.records) == EventItems(Items(d, r.records), r.records, e)
            && (Quiet(d, r, SizeOf(e), limit) ==> DiskView(d', limit) == Items(d', r'.records))
  {
    hide Sound, Items, EventItems, Quiet, DiskView, Coherent, AppendedRam, AppendedFiles, Allowed;
    AppendState(d, r, e, limit, true, false);
    SoundParts(AppendedFiles(d, r, e), AppendedRam(r, e), limit, Quiet(d, r, SizeOf(e), limit), false);
  }

  /** After a mount that could not cut the torn ENQUEUE off, the session pops the first record; the next scan of the tail finds a
      second POP behind that one, and the second record is lost too. */
  lemma LeftoverReplayed(p: seq<byte>, q: seq<byte>, limit: RecordLimit)
    requires |p| <= limit && |q| <= limit && 24 <= limit
    ensures var d := LeftoverFiles(p, q, limit);
            var r := MountRam(d, limit);
            && Sound(d, r, limit, true, false) && !Tidy(d, r) && Allowed(r.records, Pop(0))
            && Segment(r.tailGen) in d && r.tailBytes <= |d[Segment(r.tailGen)]|
            && var d', r' := AppendedFiles(d, r, Pop(0)), AppendedRam(r, Pop(0));
            && Items(d', r'.records) == [Item(1, q)] && DiskView(d', limit) == [] && !Quiet(d, r, POP_EVENT_BYTES, limit)
  {
    hide SegmentOf, Winner, LeftoverFiles, Sound, SlotsOk, LayoutOk, DiskView, Encode, MountRam, AppendedFiles, AppendedRam, Quiet,
      CoherentUnder, Overlay, Items, Tidy, Allowed;
    var d := LeftoverFiles(p, q, limit);
    var r := MountRam(d, limit);
    LeftoverSession(p, q, limit);
    LeftoverTail(p, q, limit);
    LeftoverPopped(p, q, limit);
    AppendedHere(d, r, Pop(0), d[Segment(1)]);
    QuietAgrees(d, r, Pop(0), limit);
  }

  /** And if that session seals the tail instead, the next mount refuses the whole store. */
  lemma LeftoverStrands(p: seq<byte>, q: seq<byte>, limit: RecordLimit, startSeq: u32)
    requires |p| <= limit && |q| <= limit && 24 <= limit
    ensures var d := LeftoverFiles(p, q, limit);
            var r := MountRam(d, limit);
            && Sound(d, r, limit, true, false) && SlotsOk(d, r) && RangeRoom(r) && Headroom(d, r)
            && !Mountable(NewTailFiles(d, r, startSeq), limit)
  {
    hide SegmentOf, Winner, LeftoverFiles, Sound, SlotsOk, LayoutOk, DiskView, Encode, MountRam, CoherentUnder, Mountable,
      NewTailFiles, Inactive, Items, Tidy, Allowed, Published;
    var d := LeftoverFiles(p, q, limit);
    var r := MountRam(d, limit);
    LeftoverSession(p, q, limit);
    LeftoverTail(p, q, limit);
    LeftoverParts(p, q, limit);
    PublishedWins(d, LeftoverManifest());
    UntidyRotation(d, r, startSeq, limit);
  }
}
