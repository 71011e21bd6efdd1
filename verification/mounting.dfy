/** Mounting: scanning the segments the manifest lists and rebuilding the state in RAM. */
module Mounting {
  import opened Bytes
  import opened Codec
  import opened ManifestCodec
  import opened Scan
  import opened LogReplay
  import opened Layout
  import opened Disk
  import opened Slots
  import opened Coherence
  import opened Session

  lemma SlotIs(rs: seq<Entry>, s: u32, j: nat)
    requires j <= |rs| && (j < |rs| ==> rs[j].sequence >= s)
    requires forall k | 0 <= k < j :: rs[k].sequence < s
    ensures Slot(rs, s) == j
  {
  }

  lemma StripPush(rs: seq<Entry>, x: Entry)
    ensures StripAll(rs + [x]) == StripAll(rs) + [Strip(x)]
  {
  }

  lemma StripSet(rs: seq<Entry>, i: nat, x: Entry)
    requires i < |rs|
    ensures StripAll(rs[i := x]) == StripAll(rs)[i := Strip(x)]
  {
  }

  lemma StripInsert(rs: seq<Entry>, j: nat, x: Entry)
    requires j <= |rs|
    ensures StripAll(rs[..j] + [x] + rs[j..]) == StripAll(rs)[..j] + [Strip(x)] + StripAll(rs)[j..]
  {
  }

  lemma StripTail(rs: seq<Entry>)
    requires rs != []
    ensures StripAll(rs[1..]) == StripAll(rs)[1..] && StripAll(rs)[0] == Strip(rs[0])
  {
  }

  /** A REWRITE event in the scan: overwrite the record of its sequence, or put it in at its place in the order. */
  method ReplayRewrite(records: seq<Rec>, sr: Rec, ghost rs: seq<Entry>, ghost x: Entry)
    returns (next: seq<Rec>, found: bool, was: u32)
    requires records == StripAll(rs) && sr == Strip(x)
    ensures next == StripAll(Put(rs, x))
    ensures found <==> Find(rs, x.sequence) < |rs|
    ensures found ==> was == rs[Find(rs, x.sequence)].gen
  {
    hide Find, Slot;
    FindStripped(rs, x.sequence);
    next, found, was := records, false, 0;
    var i := 0;
    while i < |records| && records[i].sequence != sr.sequence
      invariant 0 <= i <= |records|
      invariant forall k | 0 <= k < i :: records[k].sequence != sr.sequence
    {
      i := i + 1;
    }
    FindIs(rs, x.sequence, i);
    if i < |records| {
      found, was := true, records[i].gen;
      StripSet(rs, i, x);
      next := records[i := sr];
    } else {
      var j := 0;
      while j < |records| && records[j].sequence < sr.sequence
        invariant 0 <= j <= |records|
        invariant forall k | 0 <= k < j :: rs[k].sequence < x.sequence
      {
        assert records[j] == Strip(rs[j]);
        j := j + 1;
      }
      SlotIs(rs, x.sequence, j);
      StripInsert(rs, j, x);
      next := records[..j] + [sr] + records[j..];
    }
  }

  lemma FindIs(rs: seq<Entry>, s: u32, i: nat)
    requires i <= |rs| && (i < |rs| ==> rs[i].sequence == s)
    requires forall k | 0 <= k < i :: StripAll(rs)[k].sequence != s
    ensures Find(rs, s) == i
  {
    assert forall k | 0 <= k < i :: StripAll(rs)[k] == Strip(rs[k]);
  }

  /** One event of the scan. */
  method ReplayEvent(records: seq<Rec>, affected: set<u32>, l: Logged, isLast: bool, ghost rs: seq<Entry>)
    returns (next: seq<Rec>, affected': set<u32>)
    requires records == StripAll(rs)
    ensures next == StripAll(Apply(rs, l))
    ensures affected' == affected + (if isLast then TouchedBy(rs, l.event) else {})
  {
    hide Find, Slot, Put;
    next, affected' := records, affected;
    var at := l.offset + ENQUEUE_HEADER_BYTES;
    match l.event {
      case Enqueue(s, p) =>
        StripPush(rs, Logs(l));
        next := records + [Rec(s, l.gen, at, |p|)];
      case Rewrite(s, p) =>
        var found, was;
        next, found, was := ReplayRewrite(records, Rec(s, l.gen, at, |p|), rs, Logs(l));
        if found && isLast {
          affected' := affected + {was};
        }
      case Pop(s) =>
        if records != [] {
          StripTail(rs);
        }
        if records != [] && records[0].sequence == s {
          if isLast {
            affected' := affected + {records[0].gen};
          }
          next := records[1..];
        }
    }
  }

  /** The scan loop over one segment: every event that can be read is replayed, up to the first that cannot. */
  method ScanEvents(b: seq<byte>, gen: u32, isLast: bool, limit: RecordLimit, records: seq<Rec>, nextSeq: u32,
                    affected: set<u32>, ghost rs: seq<Entry>)
    returns (records': seq<Rec>, nextSeq': u32, affected': set<u32>, end: nat, corrupt: bool)
    requires |b| >= SEGMENT_HEADER_BYTES && records == StripAll(rs)
    ensures var s := ScanFrom(b, SEGMENT_HEADER_BYTES, gen, limit);
            && end == s.end && corrupt == (s.stop == Corrupt)
            && records' == StripAll(ReplayFrom(rs, s.events))
            && nextSeq' == NextSequence(nextSeq, s.events)
            && affected' == affected + (if isLast then Touched(rs, s.events) else {})
  {
    hide NextEvent, Apply, TouchedBy;
    ghost var all := ScanFrom(b, SEGMENT_HEADER_BYTES, gen, limit);
    ghost var now := rs;
    records', nextSeq', affected', corrupt := records, nextSeq, affected, false;
    var offset := SEGMENT_HEADER_BYTES;
    while offset < |b|
      invariant SEGMENT_HEADER_BYTES <= offset <= |b| && !corrupt
      invariant var rest := ScanFrom(b, offset, gen, limit);
                && all.end == rest.end && all.stop == rest.stop
                && ReplayFrom(rs, all.events) == ReplayFrom(now, rest.events)
                && NextSequence(nextSeq, all.events) == NextSequence(nextSeq', rest.events)
                && affected + (if isLast then Touched(rs, all.events) else {})
                   == affected' + (if isLast then Touched(now, rest.events) else {})
      invariant records' == StripAll(now)
    {
      var step := NextEvent(b, offset, limit);
      if step.TooShort? { break; }
      if step.Invalid? { corrupt := true; break; }
      GotSize(b, offset, limit);
      ScanHead(b, offset, gen, limit, now, nextSeq');
      var l := Logged(step.event, gen, offset);
      records', affected' := ReplayEvent(records', affected', l, isLast, now);
      now := Apply(now, l);
      var after := (step.event.sequence + 1) % 0x1_0000_0000;
      if after > nextSeq' {
        nextSeq' := after;
      }
      offset := offset + step.size;
    }
    end := offset;
  }

  /** One recognised event taken off the front of a scan. */
  lemma ScanHead(b: seq<byte>, off: nat, gen: u32, limit: RecordLimit, rs: seq<Entry>, n: u32)
    requires off < |b| && NextEvent(b, off, limit).Got?
    ensures var step := NextEvent(b, off, limit);
            var l := Logged(step.event, gen, off);
            var s := (step.event.sequence + 1) % 0x1_0000_0000;
            && off + step.size <= |b|
            && var all, rest := ScanFrom(b, off, gen, limit), ScanFrom(b, off + step.size, gen, limit);
            && all.end == rest.end && all.stop == rest.stop
            && ReplayFrom(rs, all.events) == ReplayFrom(Apply(rs, l), rest.events)
            && NextSequence(n, all.events) == NextSequence(if s > n then s else n, rest.events)
            && Touched(rs, all.events) == TouchedBy(rs, l.event) + Touched(Apply(rs, l), rest.events)
  {
    hide NextEvent, Apply, TouchedBy;
    GotSize(b, off, limit);
    var step := NextEvent(b, off, limit);
    var l := Logged(step.event, gen, off);
    var rest := ScanFrom(b, off + step.size, gen, limit).events;
    assert ScanFrom(b, off, gen, limit).events == [l] + rest;
    assert ([l] + rest)[1..] == rest;
  }

  lemma {:induction false} NextConcat(n: u32, a: seq<Logged>, b: seq<Logged>)
    ensures NextSequence(n, a + b) == NextSequence(NextSequence(n, a), b)
    decreases |a|
  {
    if a == [] {
      assert a + b == b;
    } else {
      assert (a + b)[1..] == a[1..] + b;
      var s: u32 := (a[0].event.sequence + 1) % 0x1_0000_0000;
      NextConcat(if s > n then s else n, a[1..], b);
    }
  }

  /** One more segment of the replay order. */
  lemma ReplayMore(d: Files, gens: seq<u32>, k: nat, limit: RecordLimit)
    requires k < |gens|
    ensures var before, here := LogOf(d, gens[..k], limit), SegmentScan(d, gens[k], limit).events;
            && Replay(LogOf(d, gens[..k + 1], limit)) == ReplayFrom(Replay(before), here)
            && NextSequence(0, LogOf(d, gens[..k + 1], limit)) == NextSequence(NextSequence(0, before), here)
  {
    hide LogOf, SegmentScan, Apply;
    assert gens[..k + 1] == gens[..k] + [gens[k]];
    LogLast(d, gens[..k], gens[k], limit);
    ReplayConcat([], LogOf(d, gens[..k], limit), SegmentScan(d, gens[k], limit).events);
    NextConcat(0, LogOf(d, gens[..k], limit), SegmentScan(d, gens[k], limit).events);
  }

  /** What a successful scan of the listed segments has found. */
  predicate Found(d: Files, gens: seq<u32>, limit: RecordLimit, records: seq<Rec>, nextSeq: u32, affected: set<u32>) {
    && records == StripAll(Replay(LogOf(d, gens, limit)))
    && nextSeq == NextSequence(0, LogOf(d, gens, limit))
    && affected == (if gens == [] then {}
                    else Touched(Replay(LogOf(d, gens[..|gens| - 1], limit)), SegmentScan(d, gens[|gens| - 1], limit).events))
  }

  /** The files after a mount has cut what could not be read off the last segment. */
  function TailCut(d: Files, gens: seq<u32>, limit: RecordLimit): Files {
    if gens == [] then d
    else
      var t := gens[|gens| - 1];
      var end := SegmentScan(d, t, limit).end;
      if Segment(t) in d && end <= |d[Segment(t)]| then d[Segment(t) := d[Segment(t)][..end]] else d
  }

  /** Sums and sizes of the listed files. */
  ghost predicate Summed(d: Files, gens: seq<u32>, total: int, sealedBytes: map<u32, nat>) {
    && (forall g | g in gens :: g in sealedBytes && Segment(g) in d && sealedBytes[g] == |d[Segment(g)]|)
    && total + Total(Without(d, gens)) == Total(d)
  }

  function Without(d: Files, gens: seq<u32>): Files {
    map n | n in d && !(n.Segment? && n.gen in gens) :: d[n]
  }

  lemma WithoutNone(d: Files)
    ensures Without(d, []) == d
  {
  }

  lemma WithoutMore(d: Files, gens: seq<u32>, g: u32)
    requires g !in gens && Segment(g) in d
    ensures Total(Without(d, gens)) == |d[Segment(g)]| + Total(Without(d, gens + [g]))
  {
    TotalWithout(Without(d, gens), Segment(g));
    assert Without(d, gens) - {Segment(g)} == Without(d, gens + [g]);
  }

  /** The sum of the two slots is what is left when every segment has been counted. */
  lemma SlotsLeft(d: Files, gens: seq<u32>)
    requires forall g: u32 | Segment(g) in d :: g in gens
    ensures Total(Without(d, gens)) == SizeOfFile(d, SlotA) + SizeOfFile(d, SlotB)
  {
    var rest := Without(d, gens);
    forall n | n in rest ensures n == SlotA || n == SlotB {}
    TotalRemove(rest, SlotA);
    TotalRemove(rest - {SlotA}, SlotB);
    assert rest - {SlotA} - {SlotB} == map[];
  }

  /** Ascending generations of all segment files. */
  predicate Listing(d: Files, gens: seq<u32>) {
    && Distinct(gens)
    && (forall g: u32 :: g in gens <==> Segment(g) in d)
  }

  lemma CutLast(d: Files, gens: seq<u32>, limit: RecordLimit, t0: seq<Write>, t1: seq<Write>)
    ensures gens != [] ==> TailCut(d, [gens[|gens| - 1]], limit) == TailCut(d, gens, limit)
    ensures gens != [] ==> CutTrace(d, [gens[|gens| - 1]], limit, t0, t1) == CutTrace(d, gens, limit, t0, t1)
  {
  }

  lemma ScanStart(d: Files, gens: seq<u32>, limit: RecordLimit, t: seq<Write>)
    ensures TailCut(d, [], limit) == d && CutTrace(d, [], limit, t, t)
    ensures Replay(LogOf(d, gens[..0], limit)) == [] && NextSequence(0, LogOf(d, gens[..0], limit)) == 0
    ensures StripAll([]) == []
  {
    assert gens[..0] == [];
  }

  /** The only write of a scan is the cut of the last segment. */
  predicate CutTrace(d: Files, gens: seq<u32>, limit: RecordLimit, t0: seq<Write>, t1: seq<Write>) {
    t1 == t0
    || (gens != [] && Segment(gens[|gens| - 1]) in d
        && t1 == t0 + [Write(d, Resize(Segment(gens[|gens| - 1]), SegmentScan(d, gens[|gens| - 1], limit).end))])
  }

  // What a scan finds is what the session needs.

  lemma {:induction false} ScanWithin(b: seq<byte>, off: nat, gen: u32, limit: RecordLimit)
    requires off <= |b|
    ensures forall l | l in ScanFrom(b, off, gen, limit).events :: Codec.Within(l.event, limit)
    decreases |b| - off
  {
    hide NextEvent;
    if off < |b| && NextEvent(b, off, limit).Got? {
      GotSize(b, off, limit);
      ScanWithin(b, off + NextEvent(b, off, limit).size, gen, limit);
    }
  }

  lemma {:induction false} LogWithin(d: Files, gens: seq<u32>, limit: RecordLimit)
    ensures forall l | l in LogOf(d, gens, limit) :: Codec.Within(l.event, limit)
    decreases |gens|
  {
    hide ScanFrom;
    if gens != [] {
      if |Content(d, gens[0])| >= SEGMENT_HEADER_BYTES {
        ScanWithin(Content(d, gens[0]), SEGMENT_HEADER_BYTES, gens[0], limit);
      }
      LogWithin(d, gens[1..], limit);
    }
  }

  lemma RecordsWithin(d: Files, gens: seq<u32>, limit: RecordLimit)
    ensures LengthsOk(StripAll(Replay(LogOf(d, gens, limit))), limit)
  {
    hide LogOf, Apply;
    var rs := Replay(LogOf(d, gens, limit));
    LogWithin(d, gens, limit);
    forall i | 0 <= i < |rs| ensures StripAll(rs)[i].length <= limit {
      EntryOrigin([], LogOf(d, gens, limit), rs[i]);
      var l :| l in LogOf(d, gens, limit) && !l.event.Pop? && rs[i] == Logs(l);
    }
  }

  lemma SameSuffix<T>(a: seq<T>, b: seq<T>, c: seq<T>)
    requires a + b == a + c
    ensures b == c
  {
    assert b == (a + b)[|a|..];
    assert c == (a + c)[|a|..];
  }

  /** Cutting the tail's torn end: same log, same dependencies, and safe at every point. */
  lemma CutCoherent(d: Files, m: Manifest, limit: RecordLimit)
    requires Winner(d) == Some(m) && CoherentUnder(d, m, limit)
    ensures ActiveOf(m) != [] && ActiveOf(m)[|ActiveOf(m)| - 1] == m.tailGeneration
    ensures var d' := TailCut(d, ActiveOf(m), limit);
            && Winner(d') == Some(m) && CoherentUnder(d', m, limit) && CleanTail(d', m, limit)
            && Records(d', m, limit) == Records(d, m, limit)
            && TailTouched(d', m, limit) == TailTouched(d, m, limit)
            && TailEnd(d', m, limit) == TailEnd(d, m, limit)
            && Segment(m.tailGeneration) in d' && |d'[Segment(m.tailGeneration)]| == TailEnd(d, m, limit)
            && Segment(m.tailGeneration) in d && SEGMENT_HEADER_BYTES <= TailEnd(d, m, limit) <= |d[Segment(m.tailGeneration)]|
            && (forall g: u32 | g != m.tailGeneration :: Content(d', g) == Content(d, g))
    ensures forall t0, t1 | CutTrace(d, ActiveOf(m), limit, t0, t1) :: Recoverable(t0, t1, limit, DiskView(d, limit), DiskView(d, limit))
  {
    hide Winner, CoherentUnder, SegmentScan, Flatten, Shape, Touched, HeaderNames, CleanTail, ReplayFrom, GoodFrom, LogOf;
    var t := m.tailGeneration;
    CoherentShape(d, m, limit);
    TailActive(m);
    Referenced(d, m, limit, t);
    TruncateCoherent(d, m, limit);
    var end := SegmentScan(d, t, limit).end;
    var b := d[Segment(t)][..end];
    var d' := d[Segment(t) := b];
    assert TailCut(d, ActiveOf(m), limit) == d';
    WinnerDepends(d, d');
    TailChanged(d, m, b, limit);
    LogAgrees(d, d', Flatten(m.ranges), limit) by {
      assert forall g | g in Flatten(m.ranges) :: SealedOk(d', g, limit);
    }
    SameSuffix(LogOf(d, Flatten(m.ranges), limit), SegmentScan(d, t, limit).events, SegmentScan(d', t, limit).events);
    CleanEnds(d', m, limit);
    var v := DiskView(d, limit);
    assert Partial(d, Resize(Segment(t), end), 0) == d';
    forall t0, t1 | CutTrace(d, ActiveOf(m), limit, t0, t1) ensures Recoverable(t0, t1, limit, v, v) {
      CutRecoverable(d, m, d', end, t0, t1, limit);
    }
  }

  lemma CoherentShape(d: Files, m: Manifest, limit: RecordLimit)
    requires CoherentUnder(d, m, limit)
    ensures Shape(m.ranges, m.tailGeneration, m.nextGeneration)
  {
  }

  lemma CutRecoverable(d: Files, m: Manifest, d': Files, end: nat, t0: seq<Write>, t1: seq<Write>, limit: RecordLimit)
    requires t1 == t0 || t1 == t0 + [Write(d, Resize(Segment(m.tailGeneration), end))]
    requires Segment(m.tailGeneration) in d && end <= |d[Segment(m.tailGeneration)]|
    requires d' == d[Segment(m.tailGeneration) := d[Segment(m.tailGeneration)][..end]]
    requires Winner(d) == Some(m) && Winner(d') == Some(m) && CoherentUnder(d, m, limit) && CoherentUnder(d', m, limit)
    requires Records(d', m, limit) == Records(d, m, limit)
    ensures Recoverable(t0, t1, limit, DiskView(d, limit), DiskView(d, limit))
  {
    hide Winner, CoherentUnder, Records;
    var op := Resize(Segment(m.tailGeneration), end);
    var v := DiskView(d, limit);
    if t1 == t0 {
      RecoverableNone(t0, limit, v, v);
    } else {
      assert forall k: nat | k <= Length(op) :: Partial(d, op, k) == d';
      assert SafeWrite(Write(d, op), limit, v, v);
      RecoverableAdd(t0, [Write(d, op)], limit, v, v);
    }
  }

  /** The state in RAM agrees with the scan. */
  ghost predicate Mounted(d: Files, r: Ram, limit: RecordLimit) {
    && Winner(d).Some?
    && var m := Winner(d).value;
    && r.ranges == m.ranges && r.gens == ActiveOf(m) && r.tailGen == m.tailGeneration && m.nextGeneration <= r.nextGen
    && r.cachedSlot.None?
    && Found(d, ActiveOf(m), limit, r.records, r.nextSeq, r.affected)
    && r.tailBytes == SegmentScan(d, m.tailGeneration, limit).end
  }

  ghost predicate Counted(d: Files, r: Ram) {
    && r.total == Total(d)
    && r.slotA == SizeOfFile(d, SlotA) && r.slotB == SizeOfFile(d, SlotB)
    && forall g: u32 | Segment(g) in d :: g in r.sealedBytes && r.sealedBytes[g] == |d[Segment(g)]|
  }

  lemma FoundTouched(d: Files, m: Manifest, limit: RecordLimit, records: seq<Rec>, nextSeq: u32, affected: set<u32>)
    requires Found(d, ActiveOf(m), limit, records, nextSeq, affected) && ActiveOf(m) == Flatten(m.ranges) + [m.tailGeneration]
    ensures affected == TailTouched(d, m, limit) && records == StripAll(Records(d, m, limit))
  {
    hide LogOf, Touched, ReplayFrom, SegmentScan, Flatten;
    assert ActiveOf(m)[..|ActiveOf(m)| - 1] == Flatten(m.ranges);
  }

  lemma CleanEnds(d: Files, m: Manifest, limit: RecordLimit)
    requires CleanTail(d, m, limit)
    ensures Segment(m.tailGeneration) in d && TailEnd(d, m, limit) == |d[Segment(m.tailGeneration)]|
  {
    hide ScanFrom;
    CleanEnd(d[Segment(m.tailGeneration)], SEGMENT_HEADER_BYTES, m.tailGeneration, limit);
  }

  /** A mount of a coherent store ends in a sound state that holds the queue on disk, whether or not the torn end could be cut
      off. */
  lemma MountedSound(d: Files, d': Files, r: Ram, limit: RecordLimit)
    requires Coherent(d, limit) && Mounted(d, r, limit)
    requires d' == d || d' == TailCut(d, r.gens, limit)
    requires Counted(d', r)
    ensures Sound(d', r, limit, true, forall g: u32 | Segment(g) in d' :: g < r.nextGen)
    ensures Items(d', r.records) == DiskView(d, limit) && DiskView(d', limit) == DiskView(d, limit)
    ensures r.tailGen != 0 && (d' == TailCut(d, r.gens, limit) ==> Tidy(d', r))
  {
    hide Winner, CoherentUnder, SegmentScan, Flatten, Distinct, Touched, HeaderNames, CleanTail, ReplayFrom, GoodFrom, LogOf, Total,
      Records, TailTouched, AllApart, InOrder, WinningSlot, RecLocated, StripAll, TailCut, Found, TailEnd, RecNoted;
    var m := Winner(d).value;
    CoherentShape(d, m, limit);
    TailActive(m);
    CutCoherent(d, m, limit);
    MountedEnd(d, r, limit);
    FoundTouched(d, m, limit, r.records, r.nextSeq, r.affected);
    CoherentRecords(d', m, limit);
    CoherentRecords(TailCut(d, r.gens, limit), m, limit);
    RecordsWithin(d, ActiveOf(m), limit);
    RecordsAre(d, m, limit);
    CoherentPresent(d', m, limit);
    MountedBytes(d', r, m);
    MountedNoted(d', TailCut(d, r.gens, limit), r);
    assert LayoutOk(d', r);
  }

  lemma MountedEnd(d: Files, r: Ram, limit: RecordLimit)
    requires Mounted(d, r, limit)
    ensures r.tailBytes == TailEnd(d, Winner(d).value, limit)
  {
    hide Winner, SegmentScan;
  }

  /** Every record lies before the end of the tail's last event, or within its sealed segment. */
  lemma MountedNoted(d': Files, dc: Files, r: Ram)
    requires Counted(d', r)
    requires forall i | 0 <= i < |r.records| :: RecLocated(d', r.gens, r.records[i]) && RecLocated(dc, r.gens, r.records[i])
    requires Segment(r.tailGen) in dc && |dc[Segment(r.tailGen)]| == r.tailBytes
    ensures forall i | 0 <= i < |r.records| :: RecNoted(r, r.records[i])
  {
    hide Total;
    forall i | 0 <= i < |r.records| ensures RecNoted(r, r.records[i]) {
      assert RecLocated(d', r.gens, r.records[i]) && RecLocated(dc, r.gens, r.records[i]);
    }
  }

  lemma RecordsAre(d: Files, m: Manifest, limit: RecordLimit)
    ensures Records(d, m, limit) == Replay(LogOf(d, ActiveOf(m), limit))
  {
  }

  lemma CoherentPresent(d: Files, m: Manifest, limit: RecordLimit)
    requires CoherentUnder(d, m, limit)
    ensures forall g | g in ActiveOf(m) :: Present(d, g)
  {
    hide Flatten;
    forall g | g in ActiveOf(m) ensures Present(d, g) {
      Referenced(d, m, limit, g);
      HeaderLength(d, g);
    }
  }

  lemma MountedBytes(d: Files, r: Ram, m: Manifest)
    requires Counted(d, r) && r.ranges == m.ranges
    requires forall g | g in ActiveOf(m) :: Present(d, g)
    requires ActiveOf(m) == Flatten(m.ranges) + [m.tailGeneration]
    ensures BytesOk(d, r) && SizesExact(d, r)
  {
    hide Flatten, Total;
    assert forall g | g in Flatten(r.ranges) :: g in ActiveOf(m) && Present(d, g);
  }

  /** A mount where there was nothing. */
  lemma BlankSound(d: Files, r: Ram, limit: RecordLimit)
    requires Winner(d).None? && NoSegments(d) && Counted(d, r)
    requires r.ranges == [] && r.gens == [] && r.tailGen == 0 && r.tailBytes == 0 && r.records == [] && r.nextGen != 0
    requires r.cachedSlot.None?
    ensures Sound(d, r, limit, Blank(d), true)
    ensures Items(d, r.records) == DiskView(d, limit) == []
  {
    hide Winner;
    FlattenNothing();
  }

  lemma SummedCounted(d: Files, gens: seq<u32>, total: int, sealedBytes: map<u32, nat>, r: Ram)
    requires Listing(d, gens) && Summed(d, gens, total, sealedBytes)
    requires r.slotA == SizeOfFile(d, SlotA) && r.slotB == SizeOfFile(d, SlotB)
    requires r.total == total + r.slotA + r.slotB && r.sealedBytes == sealedBytes
    ensures Counted(d, r)
  {
    hide Total, Without;
    SlotsLeft(d, gens);
  }

  lemma ListingKept(d: Files, gens: seq<u32>, active: seq<u32>, limit: RecordLimit)
    requires Listing(d, gens)
    ensures Listing(TailCut(d, active, limit), gens)
    ensures forall g: u32 :: Segment(g) in TailCut(d, active, limit) <==> Segment(g) in d
  {
  }

  lemma ListingNone(d: Files, gens: seq<u32>)
    requires Listing(d, gens)
    ensures gens == [] <==> NoSegments(d)
  {
    if gens != [] {
      assert gens[0] in gens;
    }
    if !NoSegments(d) {
      var n :| n in d && n.Segment?;
      assert Segment(n.gen) == n;
    }
  }

  /** What a mount by a manifest leaves in RAM, whatever the files: the manifest's layout, exactly the records and sequences its
      log replays to, and the generations that the last segment's events touch. */
  ghost predicate MountedFields(d: Files, r: Ram, limit: RecordLimit)
    requires Winner(d).Some?
  {
    var m := Winner(d).value;
    && r.ranges == m.ranges && r.gens == ActiveOf(m) && r.tailGen == m.tailGeneration && m.nextGeneration <= r.nextGen
    && r.records == StripAll(Records(d, m, limit))
    && r.nextSeq == NextSequence(0, LogIn(d, m, limit))
    && (m.tailGeneration != 0 ==> r.affected == TailTouched(d, m, limit))
  }

  lemma TailLast(m: Manifest)
    requires m.tailGeneration == 0 ==> m.ranges == []
    ensures if m.tailGeneration == 0 then ActiveOf(m) == []
            else ActiveOf(m) == Flatten(m.ranges) + [m.tailGeneration]
  {
    hide Flatten;
    FlattenNothing();
  }

  lemma WinnerFormed(d: Files)
    requires Winner(d).Some?
    ensures Formed(Winner(d).value)
  {
    hide Parse, Formed;
    WinnerIsRead(d);
    ParseThenSerialise(d[WinningSlot(d)]);
  }

  lemma MountedRight(d: Files, m: Manifest, r: Ram, limit: RecordLimit)
    requires Winner(d) == Some(m)
    requires r.ranges == m.ranges && r.gens == ActiveOf(m) && m.nextGeneration <= r.nextGen && r.cachedSlot.None?
    requires r.tailGen == if r.gens == [] then 0 else r.gens[|r.gens| - 1]
    requires Found(d, r.gens, limit, r.records, r.nextSeq, r.affected)
    requires r.tailBytes == if r.gens == [] then 0 else SegmentScan(d, r.gens[|r.gens| - 1], limit).end
    ensures MountedFields(d, r, limit)
    ensures m.tailGeneration != 0 ==> Mounted(d, r, limit)
    ensures Coherent(d, limit) ==> m.tailGeneration != 0
  {
    hide Winner, Flatten, SegmentScan, ReplayFrom, NextSequence, Touched, StripAll, LogOf, Distinct;
    WinnerFormed(d);
    TailLast(m);
    if m.tailGeneration != 0 {
      FoundTouched(d, m, limit, r.records, r.nextSeq, r.affected);
    }
  }

  lemma MountedSame(d: Files, r: Ram, r': Ram, limit: RecordLimit)
    requires Winner(d).Some? && MountedFields(d, r, limit) && r' == r.(total := r'.total, sealedBytes := r'.sealedBytes)
    ensures MountedFields(d, r', limit)
  {
  }

  lemma CutSafe(d: Files, m: Manifest, limit: RecordLimit, t0: seq<Write>, t1: seq<Write>)
    requires Winner(d) == Some(m) && Coherent(d, limit) && CutTrace(d, ActiveOf(m), limit, t0, t1)
    ensures Recoverable(t0, t1, limit, DiskView(d, limit), DiskView(d, limit))
  {
    hide Winner, CoherentUnder, DiskView, CutTrace, TailCut, Recoverable;
    CutCoherent(d, m, limit);
  }

  lemma BlankCoherent(d: Files, limit: RecordLimit)
    requires Winner(d).None?
    ensures Coherent(d, limit) <==> Blank(d)
    ensures DiskView(d, limit) == []
  {
  }

  lemma CutExtends(d: Files, gens: seq<u32>, limit: RecordLimit, t0: seq<Write>, t1: seq<Write>)
    requires CutTrace(d, gens, limit, t0, t1)
    ensures t0 <= t1
  {
  }

  lemma ListingBelow(d: Files, gens: seq<u32>, next: u32)
    requires Listing(d, gens) && forall g | g in gens && g < 0xFFFF_FFFF :: g < next
    ensures (forall g: u32 | Segment(g) in d :: g < 0xFFFF_FFFF) ==> forall g: u32 | Segment(g) in d :: g < next
  {
  }

  lemma ListingEmpty(d: Files)
    requires NoSegments(d)
    ensures Listing(d, [])
  {
  }

  /** The generations of all segment files. */
  method ListSegments(fs: FileSystem) returns (gens: seq<u32>)
    ensures Listing(fs.files, gens)
  {
    var names := fs.ListFiles();
    gens := [];
    var i := 0;
    while i < |names|
      invariant 0 <= i <= |names|
      invariant Distinct(gens)
      invariant forall g: u32 :: g in gens <==> Segment(g) in names[..i]
    {
      assert names[..i + 1] == names[..i] + [names[i]];
      if names[i].Segment? {
        assert names[i] !in names[..i];
        assert Segment(names[i].gen) == names[i];
        gens := gens + [names[i].gen];
      }
      i := i + 1;
    }
    assert names[..i] == names;
  }

  /** Before the first manifest there is no crash safety: the first segment file is written before it, and a store that has
      segments and no manifest does not mount, whatever part of the segment has reached the disk. */
  lemma FirstSegmentStrands(g: u32, startSeq: u32, k: nat, limit: RecordLimit)
    requires k <= SEGMENT_HEADER_BYTES
    ensures var d := map[Segment(g) := SegmentHeader(g, startSeq)[..k]];
            Mountable(map[], limit) && !Mountable(d, limit)
  {
    hide SegmentHeader;
    var d: Files := map[Segment(g) := SegmentHeader(g, startSeq)[..k]];
    assert Segment(g) in d;
  }

  /** A remount of a durable session's files rebuilds the session: the same records at the same places in the same order, the
      same layout, the same tail size, with nothing to cut where nothing was left over; and the dependencies it finds are
      among those recorded. */
  lemma RemountAgrees(d: Files, r: Ram, r': Ram, limit: RecordLimit)
    requires LayoutOk(d, r) && DurableOk(d, r, limit) && r.tailGen != 0
    requires Mounted(d, r', limit)
    ensures r'.records == r.records && r'.gens == r.gens && r'.ranges == r.ranges
    ensures r'.tailGen == r.tailGen && r'.tailBytes == r.tailBytes
    ensures r'.affected <= r.affected
    ensures Tidy(d, r) ==> TailCut(d, r.gens, limit) == d
  {
    hide Winner, CoherentUnder, Flatten, Distinct, Touched, HeaderNames, ReplayFrom, NextSequence, LogOf, StripAll, ScanFrom;
    var m := Winner(d).value;
    TailActive(m);
    FoundTouched(d, m, limit, r'.records, r'.nextSeq, r'.affected);
    var b := d[Segment(r.tailGen)];
    CleanEnd(b, SEGMENT_HEADER_BYTES, r.tailGen, limit);
    assert b[..|b|] == b;
  }
}
