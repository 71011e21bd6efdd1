/** What the files of a store mean: the log they hold, when that log is sound, and when mount accepts them. */
module Coherence {
  import opened Bytes
  import opened Codec
  import opened ManifestCodec
  import opened Scan
  import opened LogReplay
  import opened LogCompaction
  import opened Layout
  import opened Disk
  import opened Slots

  const MAX_REPLAY_SEGMENT_BYTES := 256 * 1024
  const MAX_TOTAL_GENERATIONS := MANIFEST_MAX_RANGES + 1

  function Content(d: Files, g: u32): seq<byte> {
    if Segment(g) in d then d[Segment(g)] else []
  }

  /** The scan of one segment's events, behind its header. */
  function SegmentScan(d: Files, g: u32, limit: RecordLimit): Scanned {
    var b := Content(d, g);
    if |b| < SEGMENT_HEADER_BYTES then Scanned([], 0, Corrupt) else ScanFrom(b, SEGMENT_HEADER_BYTES, g, limit)
  }

  /** The segment exists and its header is valid for its generation. */
  predicate HeaderOk(d: Files, g: u32) {
    Segment(g) in d && HeaderNames(d[Segment(g)], g)
  }

  /** Every byte of the segment belongs to a valid event. */
  predicate SealedOk(d: Files, g: u32, limit: RecordLimit) {
    HeaderOk(d, g) && SegmentScan(d, g, limit).stop == Clean
  }

  /** The events of the listed generations, in replay order. */
  function LogOf(d: Files, gens: seq<u32>, limit: RecordLimit): seq<Logged> {
    if gens == [] then [] else SegmentScan(d, gens[0], limit).events + LogOf(d, gens[1..], limit)
  }

  function ActiveOf(m: Manifest): seq<u32> {
    Active(m.ranges, m.tailGeneration)
  }

  function LogIn(d: Files, m: Manifest, limit: RecordLimit): seq<Logged> {
    LogOf(d, ActiveOf(m), limit)
  }

  /** The records a replay of the manifest's log leaves live. */
  function Records(d: Files, m: Manifest, limit: RecordLimit): seq<Entry> {
    Replay(LogIn(d, m, limit))
  }

  /** Live sequences have no gaps, and the next one is still a 32-bit number. */
  predicate Consecutive(rs: seq<Entry>) {
    && (forall i | 0 <= i < |rs| :: rs[i].sequence == rs[0].sequence + i)
    && (rs != [] ==> rs[0].sequence + |rs| < 0x1_0000_0000)
  }

  /** The manifest describes these files soundly. */
  predicate CoherentUnder(d: Files, m: Manifest, limit: RecordLimit) {
    && Shape(m.ranges, m.tailGeneration, m.nextGeneration)
    && (forall g | g in Flatten(m.ranges) :: SealedOk(d, g, limit))
    && HeaderOk(d, m.tailGeneration)
    && Good(LogIn(d, m, limit))
    && Consecutive(Records(d, m, limit))
  }

  predicate NoSegments(d: Files) {
    forall n | n in d :: !n.Segment?
  }

  /** A store that nothing was ever written to. */
  predicate Blank(d: Files) {
    d == map[]
  }

  /** The files as every crash point of an initialised store leaves them. */
  predicate Coherent(d: Files, limit: RecordLimit) {
    if Winner(d).None? then Blank(d) else CoherentUnder(d, Winner(d).value, limit)
  }

  /** The queue a remount finds. */
  function DiskView(d: Files, limit: RecordLimit): seq<Item> {
    if Winner(d).None? then [] else View(Records(d, Winner(d).value, limit))
  }

  // Mount.

  function SpanTotal(rs: seq<Range>): int {
    if rs == [] then 0 else rs[0].endGen - rs[0].startGen + 1 + SpanTotal(rs[1..])
  }

  /** What the scan demands of the segment at one place of the replay order. */
  predicate SegmentAccepted(d: Files, g: u32, isLast: bool, limit: RecordLimit) {
    && Segment(g) in d
    && SEGMENT_HEADER_BYTES <= |d[Segment(g)]| <= MAX_REPLAY_SEGMENT_BYTES
    && HeaderNames(d[Segment(g)], g)
    && (isLast || SegmentScan(d, g, limit).stop == Clean)
  }

  predicate SegmentsAccepted(d: Files, gens: seq<u32>, limit: RecordLimit) {
    forall i | 0 <= i < |gens| :: SegmentAccepted(d, gens[i], i + 1 == |gens|, limit)
  }

  /** scanSegments succeeds. */
  ghost predicate Mountable(d: Files, limit: RecordLimit) {
    if Winner(d).None? then NoSegments(d)
    else
      var m := Winner(d).value;
      && SpanTotal(m.ranges) + (if m.tailGeneration != 0 then 1 else 0) <= MAX_TOTAL_GENERATIONS
      && SegmentsAccepted(d, ActiveOf(m), limit)
  }

  /** The two limits that mount alone imposes. */
  ghost predicate WithinMountLimits(d: Files) {
    Winner(d).Some? ==>
      var gens := ActiveOf(Winner(d).value);
      && |gens| <= MAX_TOTAL_GENERATIONS
      && forall g | g in gens :: |Content(d, g)| <= MAX_REPLAY_SEGMENT_BYTES
  }

  lemma {:induction false} SpanTotalIsLength(rs: seq<Range>)
    requires AllFormed(rs)
    ensures SpanTotal(rs) == |Flatten(rs)|
  {
    if rs != [] {
      assert rs[0] in rs;
      assert forall r | r in rs[1..] :: r in rs;
      SpanTotalIsLength(rs[1..]);
    }
  }

  /** A coherent store mounts exactly when it is within the limits on segment count and segment size. */
  lemma CoherentMounts(d: Files, limit: RecordLimit)
    requires Coherent(d, limit)
    ensures Mountable(d, limit) <==> WithinMountLimits(d)
  {
    hide HeaderNames, SegmentScan, Records, LogIn, Winner, Flatten, SpanTotal, Gens, Distinct;
    if Winner(d).Some? {
      var m := Winner(d).value;
      var gens := ActiveOf(m);
      SpanTotalIsLength(m.ranges);
      assert forall g | g in gens :: g == m.tailGeneration || g in Flatten(m.ranges);
      if WithinMountLimits(d) {
        forall i | 0 <= i < |gens| ensures SegmentAccepted(d, gens[i], i + 1 == |gens|, limit) {
          assert gens[i] in gens;
          if i + 1 < |gens| {
            assert gens[i] == Flatten(m.ranges)[i];
            assert SealedOk(d, gens[i], limit);
          } else {
            TailActive(m);
            assert gens[i] == m.tailGeneration;
          }
          HeaderLength(d, gens[i]);
        }
      }
      if Mountable(d, limit) {
        forall g | g in gens ensures |Content(d, g)| <= MAX_REPLAY_SEGMENT_BYTES {
          var i :| 0 <= i < |gens| && gens[i] == g;
          assert SegmentAccepted(d, gens[i], i + 1 == |gens|, limit);
        }
      }
    }
  }

  lemma HeaderLength(d: Files, g: u32)
    requires HeaderOk(d, g)
    ensures |d[Segment(g)]| >= SEGMENT_HEADER_BYTES
  {
  }

  // The log as a concatenation.

  lemma {:induction false} LogConcat(d: Files, a: seq<u32>, b: seq<u32>, limit: RecordLimit)
    ensures LogOf(d, a + b, limit) == LogOf(d, a, limit) + LogOf(d, b, limit)
    decreases |a|
  {
    hide SegmentScan;
    if a == [] {
      assert a + b == b;
    } else {
      assert (a + b)[1..] == a[1..] + b;
      LogConcat(d, a[1..], b, limit);
      assert SegmentScan(d, a[0], limit).events + (LogOf(d, a[1..], limit) + LogOf(d, b, limit))
          == SegmentScan(d, a[0], limit).events + LogOf(d, a[1..], limit) + LogOf(d, b, limit);
    }
  }

  lemma LogLast(d: Files, a: seq<u32>, g: u32, limit: RecordLimit)
    ensures LogOf(d, a + [g], limit) == LogOf(d, a, limit) + SegmentScan(d, g, limit).events
  {
    hide SegmentScan;
    LogConcat(d, a, [g], limit);
    assert [g][1..] == [];
    assert LogOf(d, [g], limit) == SegmentScan(d, g, limit).events + [];
  }

  /** Both hold the same bytes for every listed generation. */
  predicate Agree(d: Files, d': Files, gens: seq<u32>) {
    forall g | g in gens :: Segment(g) in d && Segment(g) in d' && d[Segment(g)] == d'[Segment(g)]
  }

  lemma {:induction false} LogAgrees(d: Files, d': Files, gens: seq<u32>, limit: RecordLimit)
    requires Agree(d, d', gens)
    ensures LogOf(d, gens, limit) == LogOf(d', gens, limit)
    decreases |gens|
  {
    hide ScanFrom;
    if gens != [] {
      assert gens[0] in gens;
      assert forall g | g in gens[1..] :: g in gens;
      LogAgrees(d, d', gens[1..], limit);
    }
  }

  /** Files outside the replay order do not matter. */
  lemma CoherentAgrees(d: Files, d': Files, m: Manifest, limit: RecordLimit)
    requires CoherentUnder(d, m, limit) && Agree(d, d', ActiveOf(m))
    ensures CoherentUnder(d', m, limit) && Records(d', m, limit) == Records(d, m, limit)
  {
    hide ScanFrom, HeaderNames, Good, Consecutive, Shape, Flatten;
    LogAgrees(d, d', ActiveOf(m), limit);
    assert m.tailGeneration in ActiveOf(m) by { TailActive(m); }
    forall g | g in Flatten(m.ranges) ensures SealedOk(d', g, limit) {
      assert g in ActiveOf(m);
      assert SealedOk(d, g, limit);
    }
  }

  lemma TailActive(m: Manifest)
    requires Shape(m.ranges, m.tailGeneration, m.nextGeneration)
    ensures m.tailGeneration in ActiveOf(m) && ActiveOf(m) == Flatten(m.ranges) + [m.tailGeneration]
    ensures m.tailGeneration !in Flatten(m.ranges)
  {
    hide Flatten;
    DistinctParts(Flatten(m.ranges), [m.tailGeneration]);
  }

  lemma Referenced(d: Files, m: Manifest, limit: RecordLimit, g: u32)
    requires CoherentUnder(d, m, limit) && g in ActiveOf(m)
    ensures HeaderOk(d, g)
  {
    hide Flatten, SegmentScan, HeaderNames, Records, LogIn;
  }

  // Events of a segment.

  lemma {:induction false} ScanStored(b: seq<byte>, off: nat, gen: u32, limit: RecordLimit)
    requires off <= |b|
    ensures forall l | l in ScanFrom(b, off, gen, limit).events :: l.gen == gen
    decreases |b| - off
  {
    hide NextEvent;
    if off < |b| && NextEvent(b, off, limit).Got? {
      GotSize(b, off, limit);
      ScanStored(b, off + NextEvent(b, off, limit).size, gen, limit);
    }
  }

  lemma {:induction false} LogStored(d: Files, gens: seq<u32>, limit: RecordLimit)
    ensures forall l | l in LogOf(d, gens, limit) :: l.gen in gens
    decreases |gens|
  {
    hide ScanFrom;
    if gens != [] {
      if |Content(d, gens[0])| >= SEGMENT_HEADER_BYTES {
        ScanStored(Content(d, gens[0]), SEGMENT_HEADER_BYTES, gens[0], limit);
      }
      LogStored(d, gens[1..], limit);
    }
  }

  /** The event lies inside the bytes b, and its payload is found where its record will look for it. */
  predicate InPlace(b: seq<byte>, l: Logged) {
    && SEGMENT_HEADER_BYTES <= l.offset
    && l.offset + SizeOf(l.event) <= |b|
    && (!l.event.Pop? ==> b[l.offset + 16..l.offset + 16 + |l.event.payload|] == l.event.payload)
  }

  lemma GotPayload(b: seq<byte>, off: nat, limit: RecordLimit)
    requires off < |b| && NextEvent(b, off, limit).Got?
    ensures var s := NextEvent(b, off, limit);
            && off + SizeOf(s.event) <= |b|
            && (!s.event.Pop? ==> b[off + 16..off + 16 + |s.event.payload|] == s.event.payload)
  {
    hide De32, De16;
    GotSize(b, off, limit);
  }

  /** No two events overlap. */
  predicate Apart(l: Logged, k: Logged) {
    l == k || l.gen != k.gen || l.offset + SizeOf(l.event) <= k.offset || k.offset + SizeOf(k.event) <= l.offset
  }

  lemma {:induction false} ScanInPlace(b: seq<byte>, off: nat, gen: u32, limit: RecordLimit)
    requires SEGMENT_HEADER_BYTES <= off <= |b|
    ensures forall l | l in ScanFrom(b, off, gen, limit).events :: off <= l.offset && InPlace(b, l)
    ensures forall l, k | l in ScanFrom(b, off, gen, limit).events && k in ScanFrom(b, off, gen, limit).events :: Apart(l, k)
    decreases |b| - off
  {
    hide NextEvent;
    if off < |b| && NextEvent(b, off, limit).Got? {
      GotSize(b, off, limit);
      GotPayload(b, off, limit);
      ScanInPlace(b, off + NextEvent(b, off, limit).size, gen, limit);
    }
  }

  lemma {:induction false} LogInPlace(d: Files, gens: seq<u32>, limit: RecordLimit)
    requires Distinct(gens)
    ensures forall l | l in LogOf(d, gens, limit) :: InPlace(Content(d, l.gen), l)
    ensures forall l, k | l in LogOf(d, gens, limit) && k in LogOf(d, gens, limit) :: Apart(l, k)
    decreases |gens|
  {
    hide ScanFrom, InPlace;
    if gens != [] {
      var g, rest := gens[0], gens[1..];
      LogInPlace(d, rest, limit);
      LogStored(d, rest, limit);
      if |Content(d, g)| >= SEGMENT_HEADER_BYTES {
        ScanInPlace(Content(d, g), SEGMENT_HEADER_BYTES, g, limit);
        ScanStored(Content(d, g), SEGMENT_HEADER_BYTES, g, limit);
      }
      assert forall l | l in LogOf(d, rest, limit) :: l.gen != g;
      var here, there := SegmentScan(d, g, limit).events, LogOf(d, rest, limit);
      assert LogOf(d, gens, limit) == here + there;
      forall l, k | l in LogOf(d, gens, limit) && k in LogOf(d, gens, limit) ensures Apart(l, k) {
        assert l in here || l in there;
        assert k in here || k in there;
      }
    }
  }

  /** Every record of a replay was written by some event of the log. */
  lemma {:induction false} EntryOrigin(rs: seq<Entry>, log: seq<Logged>, x: Entry)
    requires x in ReplayFrom(rs, log)
    ensures x in rs || exists l :: l in log && !l.event.Pop? && x == Logs(l)
    decreases |log|
  {
    hide Apply;
    if log != [] {
      EntryOrigin(Apply(rs, log[0]), log[1..], x);
      if x in Apply(rs, log[0]) {
        ApplyMembers(rs, log[0], x);
        assert log[0] in log;
      } else {
        var l :| l in log[1..] && !l.event.Pop? && x == Logs(l);
        assert l in log;
      }
    }
  }

  /** The record's payload lies where it says, inside its segment. */
  predicate Located(d: Files, x: Entry) {
    && Segment(x.gen) in d
    && SEGMENT_HEADER_BYTES + ENQUEUE_HEADER_BYTES <= x.offset
    && x.offset + |x.payload| + EVENT_TRAILER_BYTES <= |d[Segment(x.gen)]|
    && d[Segment(x.gen)][x.offset..x.offset + |x.payload|] == x.payload
  }

  /** Every record a replay leaves can be read back, byte for byte, from the place it names. */
  lemma RecordsLocated(d: Files, gens: seq<u32>, limit: RecordLimit)
    requires Distinct(gens)
    ensures forall x | x in Replay(LogOf(d, gens, limit)) :: Located(d, x) && x.gen in gens
  {
    hide LogOf, Apply;
    LogInPlace(d, gens, limit);
    LogStored(d, gens, limit);
    forall x | x in Replay(LogOf(d, gens, limit)) ensures Located(d, x) && x.gen in gens {
      EntryOrigin([], LogOf(d, gens, limit), x);
      var l :| l in LogOf(d, gens, limit) && !l.event.Pop? && x == Logs(l);
      assert InPlace(Content(d, l.gen), l);
    }
  }

  /** The events of two records of a replay do not overlap. */
  predicate RecordsApart(x: Entry, y: Entry) {
    || x.gen != y.gen
    || x.offset + |x.payload| + EVENT_TRAILER_BYTES + ENQUEUE_HEADER_BYTES <= y.offset
    || y.offset + |y.payload| + EVENT_TRAILER_BYTES + ENQUEUE_HEADER_BYTES <= x.offset
  }

  lemma RecordsDisjoint(d: Files, gens: seq<u32>, limit: RecordLimit)
    requires Distinct(gens) && Good(LogOf(d, gens, limit))
    ensures var rs := Replay(LogOf(d, gens, limit));
            forall i, j | 0 <= i < j < |rs| :: RecordsApart(rs[i], rs[j])
  {
    hide LogOf, Apply, Legal;
    var log := LogOf(d, gens, limit);
    var rs := Replay(log);
    LogInPlace(d, gens, limit);
    SortedEmpty();
    GoodSorted([], log);
    forall i, j | 0 <= i < j < |rs| ensures RecordsApart(rs[i], rs[j]) {
      EntryOrigin([], log, rs[i]);
      EntryOrigin([], log, rs[j]);
      var l :| l in log && !l.event.Pop? && rs[i] == Logs(l);
      var k :| k in log && !k.event.Pop? && rs[j] == Logs(k);
      assert Apart(l, k);
      assert rs[i].sequence < rs[j].sequence;
    }
  }

  // Appending to the tail.

  /** The tail's scan when its file changes. */
  lemma TailChanged(d: Files, m: Manifest, b: seq<byte>, limit: RecordLimit)
    requires CoherentUnder(d, m, limit)
    ensures var d' := d[Segment(m.tailGeneration) := b];
            && LogIn(d, m, limit) == LogOf(d, Flatten(m.ranges), limit) + SegmentScan(d, m.tailGeneration, limit).events
            && LogIn(d', m, limit) == LogOf(d, Flatten(m.ranges), limit) + SegmentScan(d', m.tailGeneration, limit).events
            && (forall g | g in Flatten(m.ranges) :: SealedOk(d', g, limit))
  {
    hide SegmentScan, Flatten, Good, Consecutive, Records, HeaderNames;
    var d' := d[Segment(m.tailGeneration) := b];
    TailActive(m);
    LogLast(d, Flatten(m.ranges), m.tailGeneration, limit);
    LogLast(d', Flatten(m.ranges), m.tailGeneration, limit);
    LogAgrees(d, d', Flatten(m.ranges), limit);
    forall g | g in Flatten(m.ranges) ensures SealedOk(d', g, limit) {
      assert SealedOk(d, g, limit);
      SegmentUnchanged(d, d', g, limit);
    }
  }

  lemma SegmentUnchanged(d: Files, d': Files, g: u32, limit: RecordLimit)
    requires SealedOk(d, g, limit) && Segment(g) in d' && d'[Segment(g)] == d[Segment(g)]
    ensures SealedOk(d', g, limit) && SegmentScan(d', g, limit) == SegmentScan(d, g, limit)
  {
  }

  /** The tail ends with a whole event. */
  predicate CleanTail(d: Files, m: Manifest, limit: RecordLimit) {
    SealedOk(d, m.tailGeneration, limit)
  }

  /** The event as appended at the end of the tail. */
  function Appended(d: Files, m: Manifest, e: Event): Logged {
    Logged(e, m.tailGeneration, |Content(d, m.tailGeneration)|)
  }

  /** After the first k bytes of an event have been appended: the log is the old one until the event is whole, and then
      the old one with the event. */
  lemma AppendedLog(d: Files, m: Manifest, e: Event, k: nat, limit: RecordLimit)
    requires CoherentUnder(d, m, limit) && CleanTail(d, m, limit)
    requires Within(e, limit) && k <= SizeOf(e)
    ensures var t := m.tailGeneration;
            var d' := d[Segment(t) := d[Segment(t)] + Encode(e)[..k]];
            && HeaderOk(d', t)
            && (forall g | g in Flatten(m.ranges) :: SealedOk(d', g, limit))
            && LogIn(d', m, limit) == LogIn(d, m, limit) + (if k < SizeOf(e) then [] else [Appended(d, m, e)])
            && (k == SizeOf(e) ==> CleanTail(d', m, limit))
  {
    hide Flatten, Good, Consecutive, Records, LogOf, Encode, ScanFrom, HeaderNames, LogIn, Shape;
    var t := m.tailGeneration;
    var b := d[Segment(t)];
    var x := Encode(e)[..k];
    TailChanged(d, m, b + x, limit);
    HeaderLength(d, t);
    HeaderPrefix(b, x, t);
    if k < SizeOf(e) {
      InterruptedAppend(b, e, k, SEGMENT_HEADER_BYTES, t, limit);
    } else {
      assert x == Encode(e);
      AppendScan(b, e, SEGMENT_HEADER_BYTES, t, limit);
    }
  }

  /** An append may be cut short anywhere: the files stay coherent, and hold the queue without the event or with it. */
  lemma AppendCoherent(d: Files, m: Manifest, e: Event, k: nat, limit: RecordLimit)
    requires CoherentUnder(d, m, limit) && CleanTail(d, m, limit)
    requires Within(e, limit) && k <= SizeOf(e)
    requires Legal(Records(d, m, limit), e) && Consecutive(Apply(Records(d, m, limit), Appended(d, m, e)))
    ensures var t := m.tailGeneration;
            var d' := d[Segment(t) := d[Segment(t)] + Encode(e)[..k]];
            && CoherentUnder(d', m, limit)
            && Records(d', m, limit)
               == (if k < SizeOf(e) then Records(d, m, limit) else Apply(Records(d, m, limit), Appended(d, m, e)))
            && (k == SizeOf(e) ==> CleanTail(d', m, limit))
  {
    hide Flatten, Consecutive, Encode, SegmentScan, Apply, Legal, HeaderNames, Shape, GoodFrom, ReplayFrom;
    AppendedLog(d, m, e, k, limit);
    var log := LogIn(d, m, limit);
    assert log + [] == log;
    ReplayLast([], log, Appended(d, m, e));
    GoodLast([], log, Appended(d, m, e));
  }

  /** Cutting off what a crash left behind the last whole event changes nothing, and makes the tail clean. */
  lemma TruncateCoherent(d: Files, m: Manifest, limit: RecordLimit)
    requires CoherentUnder(d, m, limit)
    ensures var t := m.tailGeneration;
            var end := SegmentScan(d, t, limit).end;
            && SEGMENT_HEADER_BYTES <= end <= |d[Segment(t)]|
            && var d' := d[Segment(t) := d[Segment(t)][..end]];
            && CoherentUnder(d', m, limit) && CleanTail(d', m, limit)
            && LogIn(d', m, limit) == LogIn(d, m, limit)
  {
    hide Flatten, Good, Consecutive, LogOf, ScanFrom, HeaderNames, Shape;
    var t := m.tailGeneration;
    var b := d[Segment(t)];
    HeaderLength(d, t);
    Truncated(b, SEGMENT_HEADER_BYTES, t, limit);
    var end := SegmentScan(d, t, limit).end;
    TailChanged(d, m, b[..end], limit);
    HeaderPrefix(b[..end], b[end..], t);
    assert b[..end] + b[end..] == b;
  }

  // A new tail.

  /** A segment that holds a header and nothing else. */
  lemma EmptySegment(d: Files, g: u32, startSeq: u32, limit: RecordLimit)
    requires Segment(g) in d && d[Segment(g)] == SegmentHeader(g, startSeq)
    ensures SealedOk(d, g, limit) && SegmentScan(d, g, limit).events == []
  {
    HeaderAccepted(g, startSeq, [], g);
    assert SegmentHeader(g, startSeq) + [] == SegmentHeader(g, startSeq);
  }

  /** Rotation: once the manifest names a fresh, empty tail behind the sealed old one, the log is the same. */
  lemma RotateCoherent(d: Files, m: Manifest, m': Manifest, startSeq: u32, limit: RecordLimit)
    requires CoherentUnder(d, m, limit) && CleanTail(d, m, limit)
    requires m.nextGeneration <= m'.tailGeneration && m'.nextGeneration == m'.tailGeneration + 1
    requires m'.ranges == Sealed(m.ranges, m.tailGeneration) && |m'.ranges| <= MANIFEST_MAX_RANGES
    requires Segment(m'.tailGeneration) in d && d[Segment(m'.tailGeneration)] == SegmentHeader(m'.tailGeneration, startSeq)
    ensures CoherentUnder(d, m', limit) && CleanTail(d, m', limit)
    ensures LogIn(d, m', limit) == LogIn(d, m, limit)
    ensures ActiveOf(m') == ActiveOf(m) + [m'.tailGeneration]
  {
    hide Flatten, Good, Consecutive, SegmentScan, HeaderNames, Sealed, Distinct;
    var n := m'.tailGeneration;
    TailActive(m);
    ShapeGrows(m.ranges, m.tailGeneration, m.nextGeneration, n);
    RotationShape(m.ranges, m.tailGeneration, n);
    SealedFlatten(m.ranges, m.tailGeneration);
    EmptySegment(d, n, startSeq, limit);
    LogLast(d, ActiveOf(m), n, limit);
    assert LogIn(d, m, limit) + [] == LogIn(d, m, limit);
  }

  lemma ShapeGrows(rs: seq<Range>, tail: u32, next: int, next': int)
    requires Shape(rs, tail, next) && next <= next'
    ensures Shape(rs, tail, next')
  {
  }

  /** The first tail of a store. */
  lemma FirstTailCoherent(d: Files, m: Manifest, startSeq: u32, limit: RecordLimit)
    requires m.ranges == [] && m.tailGeneration != 0 && m.nextGeneration == m.tailGeneration + 1
    requires Segment(m.tailGeneration) in d && d[Segment(m.tailGeneration)] == SegmentHeader(m.tailGeneration, startSeq)
    ensures CoherentUnder(d, m, limit) && CleanTail(d, m, limit) && LogIn(d, m, limit) == [] && Records(d, m, limit) == []
  {
    hide SegmentScan, HeaderNames;
    EmptySegment(d, m.tailGeneration, startSeq, limit);
    assert ActiveOf(m) == [] + [m.tailGeneration];
    LogLast(d, [], m.tailGeneration, limit);
    assert LogIn(d, m, limit) == [];
  }

  // Compaction.

  /** Nothing stored before the input is changed by it. */
  predicate SafeInput(d: Files, before: seq<u32>, input: seq<u32>, limit: RecordLimit) {
    KeepsPrefix(LogOf(d, before, limit), LogOf(d, input, limit))
  }

  /** An input at the front of the replay order is always safe. */
  lemma FrontSafe(d: Files, input: seq<u32>, limit: RecordLimit)
    ensures SafeInput(d, [], input, limit)
  {
    FrontKeepsPrefix(LogOf(d, input, limit));
  }

  function GenSet(gens: seq<u32>): set<u32> {
    set g | g in gens
  }

  /** Publishing a compaction of a safe input: the log is rewritten, and every record keeps its sequence, its payload and
      its rank; the records of the input are found at their new places. */
  lemma CompactCoherent(d: Files, m: Manifest, m': Manifest,
                        before: seq<u32>, input: seq<u32>, output: seq<u32>, after: seq<u32>, limit: RecordLimit)
    requires CoherentUnder(d, m, limit)
    requires ActiveOf(m) == before + input + after && ActiveOf(m') == before + output + after
    requires m'.tailGeneration == m.tailGeneration && Shape(m'.ranges, m'.tailGeneration, m'.nextGeneration)
    requires after != [] && after[|after| - 1] == m.tailGeneration
    requires forall g | g in output :: SealedOk(d, g, limit)
    requires Rewritten(LogOf(d, output, limit), Live(Records(d, m, limit), GenSet(input)))
    requires SafeInput(d, before, input, limit)
    ensures CoherentUnder(d, m', limit)
    ensures forall x | x in Records(d, m, limit) && x.gen in GenSet(input) :: x.sequence in Places(LogOf(d, output, limit))
    ensures Records(d, m', limit) == Relocate(Records(d, m, limit), GenSet(input), Places(LogOf(d, output, limit)))
  {
    hide Flatten, SegmentScan, HeaderNames, ReplayFrom, GoodFrom, Rewritten, Live, Places, LogOf, Distinct;
    var A, I, B, C := LogOf(d, before, limit), LogOf(d, input, limit), LogOf(d, after, limit), LogOf(d, output, limit);
    LogConcat(d, before + input, after, limit);
    LogConcat(d, before, input, limit);
    LogConcat(d, before + output, after, limit);
    LogConcat(d, before, output, limit);
    LogStored(d, before, limit);
    LogStored(d, input, limit);
    LogStored(d, after, limit);
    var G := GenSet(input);
    DistinctParts(before + input, after);
    DistinctParts(before, input);
    assert forall g | g in input :: g in before + input;
    CompactionKeepsReplay(A, I, C, B, G);
    forall g | g in Flatten(m'.ranges) ensures SealedOk(d, g, limit) {
      TailActive(m');
      assert g in ActiveOf(m') && g != m'.tailGeneration;
      if g !in output {
        assert g in before || g in after;
        assert g in ActiveOf(m);
        assert g in Flatten(m.ranges);
      }
    }
    RelocatedConsecutive(Records(d, m, limit), G, Places(C));
  }

  lemma RelocatedConsecutive(rs: seq<Entry>, G: set<u32>, p: map<u32, Place>)
    requires Consecutive(rs)
    requires forall x | x in rs && x.gen in G :: x.sequence in p
    ensures Consecutive(Relocate(rs, G, p))
  {
  }

}
