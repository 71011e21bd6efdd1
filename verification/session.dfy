/** The store's state in RAM, what ties it to the files, and how each kind of write carries the tie over. */
module Session {
  import opened Bytes
  import opened Crc
  import opened Codec
  import opened ManifestCodec
  import opened Scan
  import opened LogReplay
  import opened LogCompaction
  import opened Layout
  import opened Disk
  import opened Slots
  import opened Coherence

  type PositiveU32 = n: int | 0 < n < 0x1_0000_0000 witness 1

  datatype Config = Config(
    maxSegmentBytes: PositiveU32,
    maxTotalBytes: u32,      // 0 = unlimited
    drainReserveBytes: u32,
    maxOutputSegments: byte, // 0 = unlimited
    limit: RecordLimit)      // maxRecordBytes

  /** An element of records_. */
  datatype Rec = Rec(sequence: u32, gen: u32, offset: nat, length: nat)

  /** The mutable fields of the store. */
  datatype Ram = Ram(
    tailGen: u32,                 // activeGeneration_, 0 when there is no tail
    tailBytes: nat,               // activeSegmentBytes_
    total: int,                   // totalOnDiskBytes_
    nextGen: u32,                 // nextGeneration_
    nextSeq: u32,                 // nextSequence_
    sealedBytes: map<u32, nat>,   // sealedSegmentBytes_
    cachedSlot: Option<Name>,     // cachedWrittenSlot_
    cachedEpoch: u32,             // cachedWrittenEpoch_
    slotA: nat,                   // manifestSlotBytes_[0]
    slotB: nat,                   // manifestSlotBytes_[1]
    gens: seq<u32>,               // activeGenerations_
    ranges: seq<Range>,           // manifestRanges_
    records: seq<Rec>,            // records_
    affected: set<u32>)           // activeTailAffectedGenerations_

  const UNMOUNTED := Ram(0, 0, 0, 1, 0, map[], None, 0, 0, 0, [], [], [], {})

  function Strip(x: Entry): Rec {
    Rec(x.sequence, x.gen, x.offset, |x.payload|)
  }

  function StripAll(rs: seq<Entry>): (r: seq<Rec>)
    ensures |r| == |rs|
  {
    seq(|rs|, i requires 0 <= i < |rs| => Strip(rs[i]))
  }

  /** The record's event lies inside its segment. */
  predicate RecLocated(d: Files, gens: seq<u32>, r: Rec) {
    && r.gen in gens && Segment(r.gen) in d
    && SEGMENT_HEADER_BYTES + ENQUEUE_HEADER_BYTES <= r.offset
    && r.offset + r.length + EVENT_TRAILER_BYTES <= |d[Segment(r.gen)]|
  }

  predicate RecsApart(x: Rec, y: Rec) {
    || x.gen != y.gen
    || x.offset + x.length + ENQUEUE_OVERHEAD_BYTES <= y.offset
    || y.offset + y.length + ENQUEUE_OVERHEAD_BYTES <= x.offset
  }

  predicate AllApart(rs: seq<Rec>) {
    forall i, j | 0 <= i < j < |rs| :: RecsApart(rs[i], rs[j])
  }

  predicate InOrder(rs: seq<Rec>) {
    && (forall i | 0 <= i < |rs| :: rs[i].sequence == rs[0].sequence + i)
    && (rs != [] ==> rs[0].sequence + |rs| < 0x1_0000_0000)
  }

  /** What readRecord returns for a record: the bytes at its place. */
  function ItemOf(d: Files, r: Rec): Item {
    var b := Content(d, r.gen);
    Item(r.sequence, if r.offset + r.length <= |b| then b[r.offset..r.offset + r.length] else [])
  }

  /** The queue as this session reads it. */
  function Items(d: Files, rs: seq<Rec>): (v: seq<Item>)
    ensures |v| == |rs|
  {
    seq(|rs|, i requires 0 <= i < |rs| => ItemOf(d, rs[i]))
  }

  // What ties RAM to the files in every session.

  function SizeOfFile(d: Files, n: Name): nat {
    if n in d then |d[n]| else 0
  }

  predicate SlotsOk(d: Files, r: Ram) {
    && (r.cachedSlot.Some? ==>
          Winner(d).Some? && r.cachedSlot.value == WinningSlot(d) && r.cachedEpoch == WinningEpoch(d))
    && r.slotA == SizeOfFile(d, SlotA) && r.slotB == SizeOfFile(d, SlotB)
  }

  /** The segment is there, with room for its header. */
  predicate Present(d: Files, g: u32) {
    Segment(g) in d && |d[Segment(g)]| >= SEGMENT_HEADER_BYTES
  }

  predicate LayoutOk(d: Files, r: Ram) {
    if r.tailGen == 0
    then Winner(d).None? && r.tailBytes == 0 && r.ranges == [] && r.gens == [] && r.records == [] && r.nextGen != 0
    else
      && Winner(d).Some?
      && var m := Winner(d).value;
      && m.ranges == r.ranges && m.tailGeneration == r.tailGen && m.nextGeneration <= r.nextGen
      && Shape(m.ranges, m.tailGeneration, m.nextGeneration)
      && r.gens == ActiveOf(m)
      && (forall g | g in r.gens :: Present(d, g))
      && Present(d, r.tailGen) && SEGMENT_HEADER_BYTES <= r.tailBytes <= |d[Segment(r.tailGen)]|
  }

  /** Nothing lies behind the tail's last event. Otherwise a torn end could not be cut off at the mount. */
  predicate Tidy(d: Files, r: Ram) {
    r.tailGen != 0 ==> Segment(r.tailGen) in d && r.tailBytes == |d[Segment(r.tailGen)]|
  }

  /** The size RAM has noted for a segment. */
  function Noted(r: Ram, g: u32): nat {
    if g == r.tailGen then r.tailBytes else if g in r.sealedBytes then r.sealedBytes[g] else 0
  }

  /** The record's event lies within the noted size. */
  predicate RecNoted(r: Ram, x: Rec) {
    x.offset + x.length + EVENT_TRAILER_BYTES <= Noted(r, x.gen)
  }

  predicate RecordsOk(d: Files, r: Ram) {
    && (forall i | 0 <= i < |r.records| :: RecLocated(d, r.gens, r.records[i]))
    && (forall i | 0 <= i < |r.records| :: RecNoted(r, r.records[i]))
    && AllApart(r.records)
    && InOrder(r.records)
  }

  ghost predicate BytesOk(d: Files, r: Ram) {
    && (forall g | g in Flatten(r.ranges) ::
          g in r.sealedBytes && SEGMENT_HEADER_BYTES <= r.sealedBytes[g] <= |Content(d, g)|)
    && r.total >= Total(d)
  }

  ghost predicate SessionOk(d: Files, r: Ram) {
    SlotsOk(d, r) && LayoutOk(d, r) && RecordsOk(d, r) && BytesOk(d, r)
  }

  /** The byte counter and the noted sizes are exact, and no file is left over from a failed publish. */
  ghost predicate ExactOk(d: Files, r: Ram) {
    && r.total == Total(d)
    && (forall g: u32 | Segment(g) in d :: g < r.nextGen)
    && SizesExact(d, r)
  }

  predicate SizesExact(d: Files, r: Ram) {
    forall g | g in Flatten(r.ranges) :: g in r.sealedBytes && r.sealedBytes[g] == |Content(d, g)|
  }

  /** The generations whose records the tail's events pop or replace. */
  function TailTouched(d: Files, m: Manifest, limit: RecordLimit): set<u32> {
    Touched(Replay(LogOf(d, Flatten(m.ranges), limit)), SegmentScan(d, m.tailGeneration, limit).events)
  }

  // What ties RAM to a remount of the files.

  /** Where a scan of the tail's events ends. */
  function TailEnd(d: Files, m: Manifest, limit: RecordLimit): nat {
    SegmentScan(d, m.tailGeneration, limit).end
  }

  /** A remount would rebuild exactly this index and tail, and the tail's dependencies are all recorded. */
  ghost predicate DurableOk(d: Files, r: Ram, limit: RecordLimit) {
    if Winner(d).None? then Blank(d)
    else
      var m := Winner(d).value;
      && CoherentUnder(d, m, limit) && TailEnd(d, m, limit) == r.tailBytes
      && r.records == StripAll(Records(d, m, limit))
      && TailTouched(d, m, limit) <= r.affected
  }

  predicate LengthsOk(rs: seq<Rec>, limit: RecordLimit) {
    forall i | 0 <= i < |rs| :: rs[i].length <= limit
  }

  /** The invariant of a store: always the session part; the durable and the exact part while their flags are up. */
  ghost predicate Sound(d: Files, r: Ram, limit: RecordLimit, durable: bool, exact: bool) {
    && SessionOk(d, r) && LengthsOk(r.records, limit)
    && (durable ==> DurableOk(d, r, limit))
    && (exact ==> ExactOk(d, r))
  }

  lemma StripFacts(rs: seq<Entry>)
    ensures Consecutive(rs) <==> InOrder(StripAll(rs))
    ensures (forall i, j | 0 <= i < j < |rs| :: RecordsApart(rs[i], rs[j])) ==> AllApart(StripAll(rs))
  {
    var recs := StripAll(rs);
    assert forall i | 0 <= i < |rs| :: recs[i] == Strip(rs[i]);
    if rs != [] {
      assert recs[0].sequence == rs[0].sequence;
    }
    if InOrder(recs) {
      assert forall i | 0 <= i < |rs| :: recs[i].sequence == rs[i].sequence;
    }
  }

  lemma StripItems(d: Files, rs: seq<Entry>)
    requires forall x | x in rs :: Located(d, x)
    ensures Items(d, StripAll(rs)) == View(rs)
  {
    forall i | 0 <= i < |rs| ensures Items(d, StripAll(rs))[i] == View(rs)[i] {
      assert rs[i] in rs;
    }
  }

  /** A durable session reads what a remount would read. */
  lemma DurableView(d: Files, r: Ram, limit: RecordLimit)
    requires LayoutOk(d, r) && DurableOk(d, r, limit)
    ensures Coherent(d, limit) && Items(d, r.records) == DiskView(d, limit)
  {
    hide Good, TailEnd, LogOf, Winner;
    if Winner(d).Some? {
      var m := Winner(d).value;
      RecordsLocated(d, ActiveOf(m), limit);
      StripItems(d, Records(d, m, limit));
    }
  }

  /** Every record of a coherent store is located, apart from the others and in order. */
  lemma CoherentRecords(d: Files, m: Manifest, limit: RecordLimit)
    requires CoherentUnder(d, m, limit)
    ensures var recs := StripAll(Records(d, m, limit));
            && (forall i | 0 <= i < |recs| :: RecLocated(d, ActiveOf(m), recs[i]))
            && AllApart(recs) && InOrder(recs)
    ensures Items(d, StripAll(Records(d, m, limit))) == View(Records(d, m, limit))
  {
    hide LogOf, Apply, Flatten, ReplayFrom, GoodFrom, HeaderOk, SealedOk;
    var rs := Records(d, m, limit);
    RecordsLocated(d, ActiveOf(m), limit);
    RecordsDisjoint(d, ActiveOf(m), limit);
    StripFacts(rs);
    StripItems(d, rs);
    forall i | 0 <= i < |rs| ensures RecLocated(d, ActiveOf(m), StripAll(rs)[i]) {
      assert rs[i] in rs;
    }
  }

  // Crash points.

  /** The files hold a coherent, initialised store with one of two queues. */
  ghost predicate Holds(d: Files, limit: RecordLimit, v: seq<Item>, w: seq<Item>) {
    Coherent(d, limit) && Winner(d).Some? && (DiskView(d, limit) == v || DiskView(d, limit) == w)
  }

  /** A crash anywhere in this write leaves a coherent store with the queue v or the queue w. */
  ghost predicate SafeWrite(s: Write, limit: RecordLimit, v: seq<Item>, w: seq<Item>) {
    && Applicable(s.before, s.op)
    && Holds(s.before, limit, v, w)
    && forall k: nat | k <= Length(s.op) :: Holds(Partial(s.before, s.op, k), limit, v, w)
  }

  ghost predicate CrashSafe(steps: seq<Write>, limit: RecordLimit, v: seq<Item>, w: seq<Item>) {
    forall s | s in steps :: SafeWrite(s, limit, v, w)
  }

  lemma CrashSafeWiden(a: seq<Write>, limit: RecordLimit, v: seq<Item>, w: seq<Item>)
    requires CrashSafe(a, limit, v, v)
    ensures CrashSafe(a, limit, v, w)
  {
    hide Coherent, DiskView;
    forall s | s in a ensures SafeWrite(s, limit, v, w) {
      assert SafeWrite(s, limit, v, v);
    }
  }

  /** Between the two traces, a crash anywhere leaves a coherent store with the queue v or the queue w. */
  ghost predicate Recoverable(t0: seq<Write>, t1: seq<Write>, limit: RecordLimit, v: seq<Item>, w: seq<Item>) {
    t0 <= t1 && CrashSafe(t1[|t0|..], limit, v, w)
  }

  lemma RecoverableNone(t: seq<Write>, limit: RecordLimit, v: seq<Item>, w: seq<Item>)
    ensures Recoverable(t, t, limit, v, w)
  {
  }

  lemma RecoverableAdd(t: seq<Write>, steps: seq<Write>, limit: RecordLimit, v: seq<Item>, w: seq<Item>)
    requires CrashSafe(steps, limit, v, w)
    ensures Recoverable(t, t + steps, limit, v, w)
  {
    assert (t + steps)[|t|..] == steps;
  }

  lemma RecoverableJoin(t0: seq<Write>, t1: seq<Write>, t2: seq<Write>, limit: RecordLimit, v: seq<Item>, w: seq<Item>)
    requires Recoverable(t0, t1, limit, v, v) && Recoverable(t1, t2, limit, v, w)
    ensures Recoverable(t0, t2, limit, v, w)
  {
    hide SafeWrite;
    CrashSafeWiden(t1[|t0|..], limit, v, w);
    assert t2[|t0|..] == t1[|t0|..] + t2[|t1|..];
  }

  /** The queue v loses its first n items one by one, and then becomes w: between which two states of it a crash may fall. */
  ghost function Stage(v: seq<Item>, n: nat, w: seq<Item>, i: nat): (seq<Item>, seq<Item>)
    requires i <= n <= |v|
  {
    (v[i..], if i < n then v[i + 1..] else w)
  }

  /** A crash anywhere in this write leaves a coherent store with one of these states. */
  ghost predicate StagedWrite(s: Write, limit: RecordLimit, v: seq<Item>, n: nat, w: seq<Item>)
    requires n <= |v|
  {
    exists i: nat :: i <= n && SafeWrite(s, limit, Stage(v, n, w, i).0, Stage(v, n, w, i).1)
  }

  ghost predicate Staged(t0: seq<Write>, t1: seq<Write>, limit: RecordLimit, v: seq<Item>, n: nat, w: seq<Item>) {
    n <= |v| && t0 <= t1 && forall s | s in t1[|t0|..] :: StagedWrite(s, limit, v, n, w)
  }

  lemma RecoverableStaged(t0: seq<Write>, t1: seq<Write>, limit: RecordLimit, v: seq<Item>, w: seq<Item>)
    ensures Recoverable(t0, t1, limit, v, w) ==> Staged(t0, t1, limit, v, 0, w)
  {
    hide SafeWrite;
    if Recoverable(t0, t1, limit, v, w) {
      assert v[0..] == v;
      forall s | s in t1[|t0|..] ensures StagedWrite(s, limit, v, 0, w) {
        assert SafeWrite(s, limit, Stage(v, 0, w, 0).0, Stage(v, 0, w, 0).1);
      }
    }
  }

  lemma RecoverableDrop(t0: seq<Write>, t1: seq<Write>, limit: RecordLimit, v: seq<Item>)
    requires v != []
    ensures Recoverable(t0, t1, limit, v, v[1..]) ==> Staged(t0, t1, limit, v, 1, v[1..])
  {
    hide SafeWrite;
    if Recoverable(t0, t1, limit, v, v[1..]) {
      assert v[0..] == v && v[0 + 1..] == v[1..];
      forall s | s in t1[|t0|..] ensures StagedWrite(s, limit, v, 1, v[1..]) {
        assert SafeWrite(s, limit, Stage(v, 1, v[1..], 0).0, Stage(v, 1, v[1..], 0).1);
      }
    }
  }

  lemma SafeWiden(s: Write, limit: RecordLimit, v: seq<Item>, w: seq<Item>)
    requires SafeWrite(s, limit, v, v)
    ensures SafeWrite(s, limit, v, w)
  {
    hide Coherent, DiskView;
  }

  /** Some items lost, and then some more. */
  lemma StagedJoin(t0: seq<Write>, t1: seq<Write>, t2: seq<Write>, limit: RecordLimit, v: seq<Item>, n: nat, m: nat, w: seq<Item>)
    requires n <= |v| && Staged(t0, t1, limit, v, n, v[n..]) && Staged(t1, t2, limit, v[n..], m, w)
    ensures Staged(t0, t2, limit, v, n + m, w)
  {
    hide SafeWrite;
    assert t2[|t0|..] == t1[|t0|..] + t2[|t1|..];
    forall s | s in t1[|t0|..] ensures StagedWrite(s, limit, v, n + m, w) {
      assert StagedWrite(s, limit, v, n, v[n..]);
      var i: nat :| i <= n && SafeWrite(s, limit, Stage(v, n, v[n..], i).0, Stage(v, n, v[n..], i).1);
      if i == n { SafeWiden(s, limit, v[n..], Stage(v, n + m, w, n).1); }
      assert SafeWrite(s, limit, Stage(v, n + m, w, i).0, Stage(v, n + m, w, i).1);
    }
    forall s | s in t2[|t1|..] ensures StagedWrite(s, limit, v, n + m, w) {
      assert StagedWrite(s, limit, v[n..], m, w);
      var i: nat :| i <= m && SafeWrite(s, limit, Stage(v[n..], m, w, i).0, Stage(v[n..], m, w, i).1);
      assert v[n..][i..] == v[n + i..] && (i < m ==> v[n..][i + 1..] == v[n + i + 1..]);
      assert SafeWrite(s, limit, Stage(v, n + m, w, n + i).0, Stage(v, n + m, w, n + i).1);
    }
  }

  // Writing files that nothing refers to.

  lemma StrayCoherent(d: Files, d': Files, limit: RecordLimit)
    requires Coherent(d, limit) && Winner(d).Some?
    requires Winner(d') == Winner(d) && Agree(d, d', ActiveOf(Winner(d).value))
    ensures Coherent(d', limit) && DiskView(d', limit) == DiskView(d, limit)
  {
    CoherentAgrees(d, d', Winner(d).value, limit);
  }

  lemma ReferencedPresent(d: Files, limit: RecordLimit)
    requires Coherent(d, limit) && Winner(d).Some?
    ensures forall g | g in ActiveOf(Winner(d).value) :: Segment(g) in d
  {
    hide Flatten, HeaderNames;
    forall g | g in ActiveOf(Winner(d).value) ensures Segment(g) in d {
      Referenced(d, Winner(d).value, limit, g);
    }
  }

  /** Writing, in whole or in part, or removing a segment that the manifest does not list is safe. */
  lemma StrayWriteSafe(d: Files, g: u32, b: seq<byte>, limit: RecordLimit)
    requires Coherent(d, limit) && Winner(d).Some? && g !in ActiveOf(Winner(d).value)
    ensures CrashSafe([Write(d, WriteFile(Segment(g), b))], limit, DiskView(d, limit), DiskView(d, limit))
  {
    hide Winner, Coherent, DiskView;
    var v := DiskView(d, limit);
    forall k: nat | k <= |b| ensures Holds(d[Segment(g) := b[..k]], limit, v, v) {
      var d' := d[Segment(g) := b[..k]];
      WinnerDepends(d, d');
      ReferencedPresent(d, limit);
      StrayCoherent(d, d', limit);
    }
  }

  lemma StrayRemoveSafe(d: Files, g: u32, limit: RecordLimit)
    requires Coherent(d, limit) && Winner(d).Some? && g !in ActiveOf(Winner(d).value)
    ensures CrashSafe([Write(d, Remove(Segment(g)))], limit, DiskView(d, limit), DiskView(d, limit))
    ensures Coherent(d - {Segment(g)}, limit) && DiskView(d - {Segment(g)}, limit) == DiskView(d, limit)
  {
    hide Winner, Coherent, DiskView;
    var d' := d - {Segment(g)};
    WinnerDepends(d, d');
    ReferencedPresent(d, limit);
    StrayCoherent(d, d', limit);
  }

  /** Writing a manifest slot is safe: until it is whole the old manifest counts, and then the new one, which must be
      sound for the same files and hold the same queue. */
  lemma PublishSafe(d: Files, m: Manifest, limit: RecordLimit)
    requires Coherent(d, limit) && Winner(d).Some?
    requires Formed(m) && WinningEpoch(d) + 1 < 0x1_0000_0000
    requires CoherentUnder(d, m, limit) && View(Records(d, m, limit)) == DiskView(d, limit)
    ensures Inactive(d).Some?
    ensures var op := WriteFile(Inactive(d).value, Serialise(Next(d, m)));
            CrashSafe([Write(d, op)], limit, DiskView(d, limit), DiskView(d, limit))
  {
    hide Winner, Serialise, Formed, CoherentUnder, Records, WinningSlot, Inactive;
    FormedSize(m);
    InactiveIsOther(d);
    var slot, data, v := Inactive(d).value, Serialise(Next(d, m)), DiskView(d, limit);
    forall k: nat | k <= |data| ensures Holds(d[slot := data[..k]], limit, v, v) {
      SlotWritten(d, m, k, limit);
    }
  }

  lemma SlotWritten(d: Files, m: Manifest, k: nat, limit: RecordLimit)
    requires Coherent(d, limit) && Winner(d).Some?
    requires Formed(m) && WinningEpoch(d) + 1 < 0x1_0000_0000
    requires Inactive(d).Some? && k <= |Serialise(Next(d, m))|
    requires CoherentUnder(d, m, limit) && View(Records(d, m, limit)) == DiskView(d, limit)
    ensures Holds(d[Inactive(d).value := Serialise(Next(d, m))[..k]], limit, DiskView(d, limit), DiskView(d, limit))
  {
    hide Winner, Serialise, Formed, Records, WinningSlot, CoherentUnder, Inactive;
    FormedSize(m);
    var slot, data := Inactive(d).value, Serialise(Next(d, m));
    var d' := d[slot := data[..k]];
    PublishAtomic(d, m, k);
    InactiveIsOther(d);
    ReferencedPresent(d, limit);
    if k < |data| {
      CoherentAgrees(d, d', Winner(d).value, limit);
    } else {
      EpochIrrelevant(d, m, Next(d, m).epoch, limit);
      SegmentsKept(d, d', Next(d, m), limit);
      CoherentAgrees(d, d', Next(d, m), limit);
    }
  }

  /** The epoch plays no part in what a manifest describes. */
  lemma EpochIrrelevant(d: Files, m: Manifest, e: u32, limit: RecordLimit)
    ensures CoherentUnder(d, m.(epoch := e), limit) <==> CoherentUnder(d, m, limit)
    ensures Records(d, m.(epoch := e), limit) == Records(d, m, limit)
    ensures TailEnd(d, m.(epoch := e), limit) == TailEnd(d, m, limit)
    ensures TailTouched(d, m.(epoch := e), limit) == TailTouched(d, m, limit)
    ensures ActiveOf(m.(epoch := e)) == ActiveOf(m)
  {
  }

  lemma SegmentsKept(d: Files, d': Files, m: Manifest, limit: RecordLimit)
    requires CoherentUnder(d, m, limit)
    requires forall g :: Segment(g) in d ==> Segment(g) in d' && d'[Segment(g)] == d[Segment(g)]
    ensures Agree(d, d', ActiveOf(m))
  {
    hide Flatten, HeaderNames;
    forall g | g in ActiveOf(m) ensures Segment(g) in d {
      Referenced(d, m, limit, g);
    }
  }

  /** Both hold the same segments. */
  ghost predicate SameSegments(d: Files, d': Files) {
    forall g: u32 :: Content(d, g) == Content(d', g) && (Segment(g) in d <==> Segment(g) in d')
  }

  lemma {:induction false} SameLog(d: Files, d': Files, gens: seq<u32>, limit: RecordLimit)
    requires SameSegments(d, d')
    ensures LogOf(d, gens, limit) == LogOf(d', gens, limit)
    decreases |gens|
  {
    hide ScanFrom;
    if gens != [] {
      SameLog(d, d', gens[1..], limit);
    }
  }

  /** Everything the segments mean is the same in both. */
  lemma SameMeaning(d: Files, d': Files, m: Manifest, limit: RecordLimit)
    requires SameSegments(d, d')
    ensures CoherentUnder(d, m, limit) <==> CoherentUnder(d', m, limit)
    ensures Records(d, m, limit) == Records(d', m, limit)
    ensures TailEnd(d, m, limit) == TailEnd(d', m, limit)
    ensures TailTouched(d, m, limit) == TailTouched(d', m, limit)
  {
    hide ScanFrom, HeaderNames, Flatten, GoodFrom, ReplayFrom, Shape, Touched;
    SameLog(d, d', ActiveOf(m), limit);
    SameLog(d, d', Flatten(m.ranges), limit);
    assert forall g: u32 :: SegmentScan(d, g, limit) == SegmentScan(d', g, limit);
    assert forall g: u32 | Segment(g) in d :: d[Segment(g)] == Content(d, g) == Content(d', g) == d'[Segment(g)];
    assert forall g: u32 :: SealedOk(d, g, limit) == SealedOk(d', g, limit);
  }

  /** Records are read from segments that only grow. */
  lemma ItemsStable(d: Files, d': Files, gens: seq<u32>, rs: seq<Rec>)
    requires forall i | 0 <= i < |rs| :: RecLocated(d, gens, rs[i])
    requires forall g | g in gens && Segment(g) in d :: Segment(g) in d' && d[Segment(g)] <= d'[Segment(g)]
    ensures Items(d', rs) == Items(d, rs)
    ensures forall i | 0 <= i < |rs| :: RecLocated(d', gens, rs[i])
  {
    forall i | 0 <= i < |rs| ensures ItemOf(d', rs[i]) == ItemOf(d, rs[i]) && RecLocated(d', gens, rs[i]) {
      var b, b' := d[Segment(rs[i].gen)], d'[Segment(rs[i].gen)];
      assert b == b'[..|b|];
    }
  }

  // Publishing.

  function PublishedFiles(d: Files, m: Manifest): Files
    requires |m.ranges| <= MANIFEST_MAX_RANGES && WinningEpoch(d) + 1 < 0x1_0000_0000 && Inactive(d).Some?
  {
    d[Inactive(d).value := Serialise(Next(d, m))]
  }

  /** What a successful publish does to the fields. */
  function PublishedRam(d: Files, r: Ram, m: Manifest): Ram
    requires |m.ranges| <= MANIFEST_MAX_RANGES && WinningEpoch(d) + 1 < 0x1_0000_0000 && Inactive(d).Some?
  {
    var slot, size := Inactive(d).value, ManifestSize(|m.ranges|);
    r.(total := r.total + size - SizeOfFile(d, slot),
       cachedSlot := Some(slot), cachedEpoch := WinningEpoch(d) + 1,
       slotA := if slot == SlotA then size else r.slotA,
       slotB := if slot == SlotB then size else r.slotB,
       ranges := m.ranges, gens := ActiveOf(m), nextGen := m.nextGeneration)
  }

  lemma PublishedMeaning(d: Files, r: Ram, m: Manifest)
    requires SlotsOk(d, r) && Formed(m) && WinningEpoch(d) + 1 < 0x1_0000_0000 && Inactive(d).Some?
    ensures IsSlot(Inactive(d).value)
    ensures var d', r' := PublishedFiles(d, m), PublishedRam(d, r, m);
            && SlotsOk(d', r') && Winner(d') == Some(Next(d, m)) && SameSegments(d, d')
            && r'.total - Total(d') == r.total - Total(d)
  {
    hide Serialise, Parse, Formed;
    FormedSize(m);
    InactiveIsOther(d);
    var slot, data := Inactive(d).value, Serialise(Next(d, m));
    PublishAtomic(d, m, |data|);
    assert data[..|data|] == data;
    TotalWrite(d, slot, data);
  }

  // A segment that nothing refers to.

  function StrayRam(r: Ram, g: u32, size: nat): Ram {
    r.(total := r.total + size, sealedBytes := r.sealedBytes[g := size])
  }

  /** Writing a segment outside the replay order changes nothing a reader or a remount would see. */
  lemma StraySession(d: Files, r: Ram, g: u32, b: seq<byte>)
    requires SessionOk(d, r) && g !in r.gens
    ensures var d', r' := d[Segment(g) := b], StrayRam(r, g, |b|);
            && SessionOk(d', r') && Items(d', r.records) == Items(d, r.records)
            && Winner(d') == Winner(d) && Inactive(d') == Inactive(d) && WinningEpoch(d') == WinningEpoch(d)
            && (Segment(g) !in d ==> r'.total - Total(d') == r.total - Total(d))
  {
    hide Winner, WinningSlot, Inactive, Items, Shape, Total, AllApart, InOrder, RecLocated;
    var d', r' := d[Segment(g) := b], StrayRam(r, g, |b|);
    WinnerDepends(d, d');
    TotalWrite(d, Segment(g), b);
    ItemsStable(d, d', r.gens, r.records);
    FlattenInGens(d, r);
    TailListed(d, r);
    NotedCarried(d, r, r');
  }

  lemma TailListed(d: Files, r: Ram)
    requires LayoutOk(d, r)
    ensures r.tailGen == 0 ==> r.records == [] && r.gens == []
  {
    hide Winner, Shape;
  }

  /** Records stay within the noted sizes while those only grow. */
  lemma NotedCarried(d: Files, r: Ram, r': Ram)
    requires RecordsOk(d, r) && r'.records == r.records
    requires forall g | g in r.gens :: Noted(r', g) >= Noted(r, g)
    ensures forall i | 0 <= i < |r'.records| :: RecNoted(r', r'.records[i])
  {
    hide AllApart, InOrder, Noted;
    forall i | 0 <= i < |r'.records| ensures RecNoted(r', r'.records[i]) {
      assert RecLocated(d, r.gens, r.records[i]) && RecNoted(r, r.records[i]);
    }
  }

  lemma FlattenInGens(d: Files, r: Ram)
    requires LayoutOk(d, r)
    ensures forall g | g in Flatten(r.ranges) :: g in r.gens
    ensures r.tailGen != 0 ==> r.tailGen in r.gens && r.tailGen !in Flatten(r.ranges)
  {
    hide Flatten;
    if r.tailGen != 0 {
      TailActive(Winner(d).value);
    } else {
      assert Flatten([]) == [] by { FlattenNothing(); }
    }
  }

  lemma FlattenNothing()
    ensures Flatten([]) == []
  {
  }

  lemma StrayDurable(d: Files, r: Ram, g: u32, b: seq<byte>, limit: RecordLimit)
    requires LayoutOk(d, r) && DurableOk(d, r, limit) && r.tailGen != 0 && g !in r.gens
    ensures DurableOk(d[Segment(g) := b], StrayRam(r, g, |b|), limit)
    ensures DiskView(d[Segment(g) := b], limit) == DiskView(d, limit)
    ensures CrashSafe([Write(d, WriteFile(Segment(g), b))], limit, DiskView(d, limit), DiskView(d, limit))
  {
    hide Winner, Records, CoherentUnder, TailTouched;
    var d', m := d[Segment(g) := b], Winner(d).value;
    WinnerDepends(d, d');
    StrayWriteSafe(d, g, b, limit);
    ReferencedPresent(d, limit);
    CoherentAgrees(d, d', m, limit);
    StrayTail(d, d', m, limit);
  }

  lemma StrayTail(d: Files, d': Files, m: Manifest, limit: RecordLimit)
    requires Shape(m.ranges, m.tailGeneration, m.nextGeneration)
    requires Agree(d, d', ActiveOf(m))
    ensures TailEnd(d', m, limit) == TailEnd(d, m, limit)
    ensures TailTouched(d', m, limit) == TailTouched(d, m, limit)
  {
    hide Flatten, ScanFrom, Touched, ReplayFrom, HeaderNames;
    TailActive(m);
    LogAgrees(d, d', Flatten(m.ranges), limit);
  }

  // A new tail.

  function NewTailManifest(ranges: seq<Range>, g: u32): Manifest
    requires g + 1 < 0x1_0000_0000
  {
    Manifest(0, g + 1, ranges, g)
  }

  function NewTailRam(r: Ram, g: u32): Ram {
    r.(tailGen := g, tailBytes := SEGMENT_HEADER_BYTES, affected := {})
  }

  /** A manifest can be published: a slot is free, and its epoch is still a 32-bit number. */
  predicate Publishable(d: Files) {
    Inactive(d).Some? && WinningEpoch(d) + 1 < 0x1_0000_0000
  }

  /** Room in the 32-bit counters for one more generation and one more publish. */
  predicate Headroom(d: Files, r: Ram) {
    r.nextGen + 1 < 0x1_0000_0000 && Publishable(d)
  }

  /** Whether the tail could be sealed within the limit on ranges. */
  predicate RangeRoom(r: Ram) {
    |Sealed(r.ranges, r.tailGen)| <= MANIFEST_MAX_RANGES
  }

  /** The state just after the new segment file is written. */
  function CreatedRam(r: Ram): Ram {
    StrayRam(if r.tailGen != 0 then r.(sealedBytes := r.sealedBytes[r.tailGen := r.tailBytes]) else r,
             r.nextGen, SEGMENT_HEADER_BYTES)
  }

  function CreatedFiles(d: Files, r: Ram, startSeq: u32): Files {
    d[Segment(r.nextGen) := SegmentHeader(r.nextGen, startSeq)]
  }

  lemma NextUnused(d: Files, r: Ram)
    requires LayoutOk(d, r)
    ensures r.nextGen !in r.gens
  {
  }

  lemma Created(d: Files, r: Ram, startSeq: u32)
    requires SessionOk(d, r)
    ensures var d', r' := CreatedFiles(d, r, startSeq), CreatedRam(r);
            && SessionOk(d', r') && Items(d', r.records) == Items(d, r.records)
            && Winner(d') == Winner(d) && Inactive(d') == Inactive(d) && WinningEpoch(d') == WinningEpoch(d)
            && (Segment(r.nextGen) !in d ==> r'.total - Total(d') == r.total - Total(d))
  {
    hide Items, Winner, Inactive, Shape, Flatten, ActiveOf;
    NextUnused(d, r);
    var r0 := if r.tailGen != 0 then r.(sealedBytes := r.sealedBytes[r.tailGen := r.tailBytes]) else r;
    FlattenInGens(d, r);
    NotedCarried(d, r, r0);
    assert SessionOk(d, r0);
    StraySession(d, r0, r.nextGen, SegmentHeader(r.nextGen, startSeq));
  }

  /** The state once the manifest that names the new tail is published. */
  function NewTailFiles(d: Files, r: Ram, startSeq: u32): Files
    requires Headroom(d, r) && RangeRoom(r) && SlotsOk(d, r)
  {
    var d1 := CreatedFiles(d, r, startSeq);
    WinnerDepends(d, d1);
    PublishedFiles(d1, NewTailManifest(Sealed(r.ranges, r.tailGen), r.nextGen))
  }

  function NewTail(d: Files, r: Ram, startSeq: u32): Ram
    requires Headroom(d, r) && RangeRoom(r) && SlotsOk(d, r)
  {
    var d1 := CreatedFiles(d, r, startSeq);
    WinnerDepends(d, d1);
    NewTailRam(PublishedRam(d1, CreatedRam(r), NewTailManifest(Sealed(r.ranges, r.tailGen), r.nextGen)), r.nextGen)
  }

  lemma SealedNothing(ranges: seq<Range>)
    ensures Sealed(ranges, 0) == ranges
  {
  }

  lemma NewTailShape(d: Files, r: Ram)
    requires LayoutOk(d, r) && RangeRoom(r) && Headroom(d, r)
    ensures var rs, g := Sealed(r.ranges, r.tailGen), r.nextGen;
            && g != 0 && Shape(rs, g, g + 1) && Formed(NewTailManifest(rs, g))
            && Active(rs, g) == r.gens + [g] && Flatten(rs) == r.gens
  {
    hide Flatten, Distinct, Winner;
    if r.tailGen == 0 {
      FlattenNothing();
      SealedNothing(r.ranges);
      DistinctOne(r.nextGen);
      assert Active([], r.nextGen) == [] + [r.nextGen] == [r.nextGen];
    } else {
      ShapeGrows(r.ranges, r.tailGen, Winner(d).value.nextGeneration, r.nextGen);
      SealedFlatten(r.ranges, r.tailGen);
      TailActive(Winner(d).value);
      RotationShape(r.ranges, r.tailGen, r.nextGen);
    }
  }

  lemma DistinctOne(g: u32)
    ensures Distinct([g])
  {
  }

  /** Sealing the tail and naming an empty new one: this session reads the same queue. */
  lemma NewTailSession(d: Files, r: Ram, startSeq: u32)
    requires SessionOk(d, r) && RangeRoom(r) && Headroom(d, r)
    ensures var d', r' := NewTailFiles(d, r, startSeq), NewTail(d, r, startSeq);
            && SessionOk(d', r') && Items(d', r.records) == Items(d, r.records)
            && (Segment(r.nextGen) !in d ==> r'.total - Total(d') == r.total - Total(d))
  {
    hide Winner, Inactive, Flatten, Shape, ActiveOf, Serialise, Sealed, Formed, WinningEpoch, SlotsOk, LayoutOk, RecordsOk, Total,
      CreatedFiles, CreatedRam, Items, SameSegments, Next, Noted;
    var d1, r1, g := CreatedFiles(d, r, startSeq), CreatedRam(r), r.nextGen;
    var m := NewTailManifest(Sealed(r.ranges, r.tailGen), g);
    Created(d, r, startSeq);
    NewTailShape(d, r);
    FormedSize(m);
    PublishedMeaning(d1, r1, m);
    var d2, r2 := PublishedFiles(d1, m), NewTail(d, r, startSeq);
    ItemsStableSame(d1, d2, r.records);
    CreatedSame(d, r, startSeq);
    SlotsCarried(d2, PublishedRam(d1, r1, m), r2);
    ActiveSame(m);
    NextSame(d1, m);
    NewTailLayout(d1, d2, r1, r2, m);
    NewTailBytes(d, d2, r, r2, startSeq);
    CreatedNoted(d, r);
    RecordsCarried(d1, d2, r1, r2);
  }

  lemma CreatedNoted(d: Files, r: Ram)
    requires LayoutOk(d, r)
    ensures forall g | g in r.gens :: Noted(CreatedRam(r), g) == Noted(r, g)
  {
    hide Winner, Shape;
    NextUnused(d, r);
  }

  lemma CreatedSame(d: Files, r: Ram, startSeq: u32)
    ensures var r1 := CreatedRam(r);
            && r1.records == r.records && r1.gens == r.gens && r1.ranges == r.ranges && r1.nextGen == r.nextGen
            && r1.tailGen == r.tailGen && r1.tailBytes == r.tailBytes && r1.affected == r.affected && r1.nextSeq == r.nextSeq
    ensures var b := SegmentHeader(r.nextGen, startSeq);
            Segment(r.nextGen) in CreatedFiles(d, r, startSeq) && CreatedFiles(d, r, startSeq)[Segment(r.nextGen)] == b
  {
  }

  lemma NextSame(d: Files, m: Manifest)
    requires WinningEpoch(d) + 1 < 0x1_0000_0000
    ensures Next(d, m).(epoch := m.epoch) == m
  {
  }

  lemma ActiveSame(m: Manifest)
    ensures ActiveOf(m) == Active(m.ranges, m.tailGeneration)
  {
  }

  lemma SlotsCarried(d: Files, r: Ram, r': Ram)
    requires SlotsOk(d, r)
    requires r'.cachedSlot == r.cachedSlot && r'.cachedEpoch == r.cachedEpoch && r'.slotA == r.slotA && r'.slotB == r.slotB
    ensures SlotsOk(d, r')
  {
  }

  lemma RecordsCarried(d: Files, d': Files, r: Ram, r': Ram)
    requires RecordsOk(d, r) && SameSegments(d, d')
    requires r'.records == r.records && forall g | g in r.gens :: g in r'.gens && Noted(r', g) >= Noted(r, g)
    ensures RecordsOk(d', r')
  {
    hide AllApart, InOrder, Noted, RecNoted;
    NotedCarried(d, r, r');
    forall i | 0 <= i < |r'.records| ensures RecLocated(d', r'.gens, r'.records[i]) {
      assert RecLocated(d, r.gens, r.records[i]);
      assert Content(d, r.records[i].gen) == Content(d', r.records[i].gen);
    }
  }

  lemma ItemsStableSame(d: Files, d': Files, rs: seq<Rec>)
    requires SameSegments(d, d')
    ensures Items(d', rs) == Items(d, rs)
  {
  }

  lemma NewTailLayout(d1: Files, d2: Files, r1: Ram, r2: Ram, m: Manifest)
    requires LayoutOk(d1, r1) && SameSegments(d1, d2)
    requires Winner(d2).Some? && Winner(d2).value.(epoch := m.epoch) == m
    requires Shape(m.ranges, m.tailGeneration, m.nextGeneration)
    requires r2.ranges == m.ranges && r2.gens == ActiveOf(m) && r2.tailGen == m.tailGeneration && r2.nextGen == m.nextGeneration
    requires r2.gens == r1.gens + [r2.tailGen] && r2.tailBytes == SEGMENT_HEADER_BYTES
    requires Segment(r2.tailGen) in d1 && |d1[Segment(r2.tailGen)]| == SEGMENT_HEADER_BYTES
    ensures LayoutOk(d2, r2)
  {
    hide Winner, Flatten, Distinct;
    forall g | g in r2.gens ensures Present(d2, g) {
      assert g in r1.gens || g == r2.tailGen;
      assert g in r1.gens ==> Present(d1, g);
      assert Content(d1, g) == Content(d2, g);
    }
    assert Content(d1, r2.tailGen) == Content(d2, r2.tailGen);
  }

  lemma NewTailBytes(d: Files, d2: Files, r: Ram, r2: Ram, startSeq: u32)
    requires SessionOk(d, r) && SameSegments(CreatedFiles(d, r, startSeq), d2)
    requires r2.sealedBytes == CreatedRam(r).sealedBytes && r2.tailGen == r.nextGen
    requires Flatten(r2.ranges) == r.gens
    ensures forall g | g in Flatten(r2.ranges) ::
              g in r2.sealedBytes && SEGMENT_HEADER_BYTES <= r2.sealedBytes[g] <= |Content(d2, g)|
    ensures forall g | g in r.gens :: Noted(r2, g) == Noted(r, g)
    ensures Tidy(d, r) && SizesExact(d, r) ==> SizesExact(d2, r2)
  {
    hide Winner, Shape, RecordsOk, Total, SlotsOk;
    NextUnused(d, r);
    FlattenInGens(d, r);
    forall g | g in r.gens
      ensures g in r2.sealedBytes && SEGMENT_HEADER_BYTES <= r2.sealedBytes[g] <= |Content(d2, g)|
      ensures Noted(r2, g) == Noted(r, g)
      ensures Tidy(d, r) && SizesExact(d, r) ==> r2.sealedBytes[g] == |Content(d2, g)|
    {
      assert Content(d2, g) == Content(CreatedFiles(d, r, startSeq), g) == Content(d, g);
      TailSplit(d, r, g);
    }
  }

  lemma TailSplit(d: Files, r: Ram, g: u32)
    requires LayoutOk(d, r) && g in r.gens
    ensures r.tailGen != 0 && (g == r.tailGen || g in Flatten(r.ranges)) && Present(d, g)
  {
    hide Winner;
    if r.tailGen != 0 {
      TailActive(Winner(d).value);
    }
  }

  /** Sealing the tail and naming an empty new one: a remount finds the same queue, at every crash point. */
  lemma NewTailDurable(d: Files, r: Ram, startSeq: u32, limit: RecordLimit)
    requires SessionOk(d, r) && RangeRoom(r) && Headroom(d, r) && DurableOk(d, r, limit) && Tidy(d, r)
    ensures DurableOk(NewTailFiles(d, r, startSeq), NewTail(d, r, startSeq), limit)
    ensures DiskView(NewTailFiles(d, r, startSeq), limit) == DiskView(d, limit)
    ensures Inactive(CreatedFiles(d, r, startSeq)).Some?
    ensures r.tailGen != 0 ==>
              var d1 := CreatedFiles(d, r, startSeq);
              var m := NewTailManifest(Sealed(r.ranges, r.tailGen), r.nextGen);
              && WinningEpoch(d1) + 1 < 0x1_0000_0000
              && CrashSafe([Write(d, WriteFile(Segment(r.nextGen), SegmentHeader(r.nextGen, startSeq))),
                            Write(d1, WriteFile(Inactive(d1).value, Serialise(Next(d1, m))))],
                           limit, DiskView(d, limit), DiskView(d, limit))
  {
    hide Winner, Inactive, Flatten, Shape, ActiveOf, Serialise, Sealed, Formed, WinningEpoch, CoherentUnder, Records, TailTouched,
      CleanTail, TailEnd, SegmentHeader;
    var d1, r1, g := CreatedFiles(d, r, startSeq), CreatedRam(r), r.nextGen;
    var m := NewTailManifest(Sealed(r.ranges, r.tailGen), g);
    Created(d, r, startSeq);
    NewTailShape(d, r);
    FormedSize(m);
    PublishedMeaning(d1, r1, m);
    var d2 := PublishedFiles(d1, m);
    var m' := Next(d1, m);
    EpochIrrelevant(d1, m, m'.epoch, limit);
    SameMeaning(d1, d2, m', limit);
    EmptyTailTouched(d1, m, startSeq, limit);
    if r.tailGen == 0 {
      FirstTailRanges(r, m);
      FirstTailCoherent(d1, m, startSeq, limit);
    } else {
      RotatedLog(d, r, startSeq, limit);
      PublishSafe(d1, m, limit);
    }
  }

  /** Before its publish the manifest of the new tail already describes the files soundly, with the same records. */
  lemma RotatedLog(d: Files, r: Ram, startSeq: u32, limit: RecordLimit)
    requires SessionOk(d, r) && RangeRoom(r) && Headroom(d, r) && DurableOk(d, r, limit) && Tidy(d, r) && r.tailGen != 0
    ensures var d1 := CreatedFiles(d, r, startSeq);
            var m := NewTailManifest(Sealed(r.ranges, r.tailGen), r.nextGen);
            && Winner(d1) == Winner(d)
            && CoherentUnder(d1, m, limit) && Records(d1, m, limit) == Records(d1, Winner(d).value, limit)
            && Records(d1, m, limit) == Records(d, Winner(d).value, limit)
            && Coherent(d1, limit) && DiskView(d1, limit) == DiskView(d, limit)
            && CrashSafe([Write(d, WriteFile(Segment(r.nextGen), SegmentHeader(r.nextGen, startSeq)))], limit,
                         DiskView(d, limit), DiskView(d, limit))
  {
    hide Winner, Inactive, Flatten, ActiveOf, Sealed, CoherentUnder, Records, TailTouched, CleanTail, TailEnd, SegmentHeader, Shape,
      RecordsOk, BytesOk, SlotsOk;
    var d1, g := CreatedFiles(d, r, startSeq), r.nextGen;
    var m := NewTailManifest(Sealed(r.ranges, r.tailGen), g);
    NextUnused(d, r);
    TailPresent(d, r);
    WinnerDepends(d, d1);
    StrayDurable(d, r, g, SegmentHeader(g, startSeq), limit);
    WinnerManifest(d, r);
    RotateReady(d, d1, r, g, limit);
    RotateCoherent(d1, Winner(d).value, m, startSeq, limit);
    RecordsByLog(d1, Winner(d).value, m, limit);
    RecordsStray(d, r, g, SegmentHeader(g, startSeq), limit);
  }

  lemma WinnerManifest(d: Files, r: Ram)
    requires LayoutOk(d, r) && r.tailGen != 0
    ensures Winner(d).Some?
    ensures Winner(d).value.ranges == r.ranges && Winner(d).value.tailGeneration == r.tailGen
    ensures Winner(d).value.nextGeneration <= r.nextGen
  {
    hide Winner, Shape;
  }

  lemma RecordsStray(d: Files, r: Ram, g: u32, b: seq<byte>, limit: RecordLimit)
    requires LayoutOk(d, r) && DurableOk(d, r, limit) && r.tailGen != 0 && g !in r.gens
    ensures Records(d[Segment(g) := b], Winner(d).value, limit) == Records(d, Winner(d).value, limit)
  {
    hide Winner, CoherentUnder, Records, TailTouched, TailEnd;
    ReferencedPresent(d, limit);
    CoherentAgrees(d, d[Segment(g) := b], Winner(d).value, limit);
  }

  lemma FirstTailRanges(r: Ram, m: Manifest)
    requires r.tailGen == 0 && r.ranges == [] && m.ranges == Sealed(r.ranges, r.tailGen)
    ensures m.ranges == []
  {
  }

  /** With nothing behind its last event a durable tail is clean. */
  lemma TidyClean(d: Files, r: Ram, m: Manifest, limit: RecordLimit)
    requires CoherentUnder(d, m, limit) && TailEnd(d, m, limit) == r.tailBytes
    requires Segment(m.tailGeneration) in d && r.tailBytes == |d[Segment(m.tailGeneration)]|
    ensures CleanTail(d, m, limit)
  {
    hide Flatten, ScanFrom, Records, LogIn, Shape, HeaderNames;
    HeaderLength(d, m.tailGeneration);
    CleanEnd(d[Segment(m.tailGeneration)], SEGMENT_HEADER_BYTES, m.tailGeneration, limit);
  }

  lemma RotateReady(d: Files, d1: Files, r: Ram, g: u32, limit: RecordLimit)
    requires LayoutOk(d, r) && Tidy(d, r) && r.tailGen != 0 && g != r.tailGen
    requires DurableOk(d1, StrayRam(r, g, SEGMENT_HEADER_BYTES), limit)
    requires Winner(d).Some? && Winner(d1) == Winner(d)
    requires Segment(r.tailGen) in d && Segment(r.tailGen) in d1 && d1[Segment(r.tailGen)] == d[Segment(r.tailGen)]
    ensures CoherentUnder(d1, Winner(d).value, limit) && CleanTail(d1, Winner(d).value, limit)
  {
    hide Winner, Shape, CoherentUnder, CleanTail, TailEnd, Records, TailTouched, ActiveOf, StripAll;
    TidyClean(d1, r, Winner(d).value, limit);
  }

  lemma RecordsByLog(d: Files, m: Manifest, m': Manifest, limit: RecordLimit)
    requires LogIn(d, m, limit) == LogIn(d, m', limit)
    ensures Records(d, m, limit) == Records(d, m', limit)
  {
  }

  lemma EmptyTailTouched(d: Files, m: Manifest, startSeq: u32, limit: RecordLimit)
    requires Segment(m.tailGeneration) in d && d[Segment(m.tailGeneration)] == SegmentHeader(m.tailGeneration, startSeq)
    ensures TailTouched(d, m, limit) == {} && TailEnd(d, m, limit) == SEGMENT_HEADER_BYTES
  {
    hide ReplayFrom, LogOf, Flatten;
    EmptySegment(d, m.tailGeneration, startSeq, limit);
  }

  // Appending an event to the tail.

  /** The first index holding sequence s, or the length when there is none. */
  function FindRec(rs: seq<Rec>, s: u32): (i: nat)
    ensures i <= |rs|
    ensures i < |rs| ==> rs[i].sequence == s
    ensures forall k | 0 <= k < i :: rs[k].sequence != s
  {
    if rs == [] || rs[0].sequence == s then 0 else 1 + FindRec(rs[1..], s)
  }

  /** The events the store writes in this state: the next sequence in order, a POP of the front, a REWRITE of a live record. */
  predicate Allowed(rs: seq<Rec>, e: Event) {
    match e
    case Enqueue(s, _) => s + 1 < 0x1_0000_0000 && (rs != [] ==> s == rs[|rs| - 1].sequence + 1)
    case Pop(s) => rs != [] && rs[0].sequence == s
    case Rewrite(s, _) => FindRec(rs, s) < |rs|
  }

  /** The index after the event is written at offset off of generation g. */
  function EventRecs(rs: seq<Rec>, e: Event, g: u32, off: nat): seq<Rec>
    requires Allowed(rs, e)
  {
    match e
    case Enqueue(s, p) => rs + [Rec(s, g, off + ENQUEUE_HEADER_BYTES, |p|)]
    case Pop(_) => rs[1..]
    case Rewrite(s, p) => rs[FindRec(rs, s) := Rec(s, g, off + ENQUEUE_HEADER_BYTES, |p|)]
  }

  /** The queue after the event. */
  function EventItems(v: seq<Item>, rs: seq<Rec>, e: Event): seq<Item>
    requires Allowed(rs, e) && |v| == |rs|
  {
    match e
    case Enqueue(s, p) => v + [Item(s, p)]
    case Pop(_) => v[1..]
    case Rewrite(s, p) => v[FindRec(rs, s) := Item(s, p)]
  }

  /** The generation of the record the event pops or replaces. */
  function EventTouched(rs: seq<Rec>, e: Event): set<u32>
    requires Allowed(rs, e)
  {
    match e
    case Enqueue(_, _) => {}
    case Pop(_) => {rs[0].gen}
    case Rewrite(s, _) => {rs[FindRec(rs, s)].gen}
  }

  function AppendedRam(r: Ram, e: Event): Ram
    requires Allowed(r.records, e)
  {
    r.(tailBytes := r.tailBytes + SizeOf(e), total := r.total + SizeOf(e),
       records := EventRecs(r.records, e, r.tailGen, r.tailBytes),
       affected := r.affected + EventTouched(r.records, e))
  }

  /** The event written at the end that RAM knows of. Bytes that could not be cut off behind that end are overwritten, or left
      over where they reach further. */
  function AppendedFiles(d: Files, r: Ram, e: Event): Files
    requires Segment(r.tailGen) in d && r.tailBytes <= |d[Segment(r.tailGen)]| && Encodable(e)
  {
    d[Segment(r.tailGen) := Overlay(d[Segment(r.tailGen)], r.tailBytes, Encode(e))]
  }

  lemma OverlayParts(b: seq<byte>, n: nat, y: seq<byte>)
    requires n <= |b|
    ensures Overlay(b, n, y) == (b[..n] + y) + b[if n + |y| < |b| then n + |y| else |b|..]
    ensures |b| <= |Overlay(b, n, y)| <= |b| + |y| && n + |y| <= |Overlay(b, n, y)|
    ensures n == |b| ==> Overlay(b, n, y) == b + y
    ensures forall k: nat | k <= n :: Overlay(b, n, y)[..k] == b[..k]
    ensures Overlay(b, n, y)[n..n + |y|] == y
  {
  }

  lemma {:induction false} FindStripped(rs: seq<Entry>, s: u32)
    ensures FindRec(StripAll(rs), s) == Find(rs, s)
  {
    if rs != [] {
      assert StripAll(rs)[1..] == StripAll(rs[1..]);
      FindStripped(rs[1..], s);
    }
  }

  /** An event the store writes is legal against the replayed records, and does to them what it does to the index. */
  lemma EventReplayed(rs: seq<Entry>, l: Logged)
    requires Consecutive(rs) && Allowed(StripAll(rs), l.event)
    ensures Legal(rs, l.event) && Consecutive(Apply(rs, l))
    ensures StripAll(Apply(rs, l)) == EventRecs(StripAll(rs), l.event, l.gen, l.offset)
    ensures View(Apply(rs, l)) == EventItems(View(rs), StripAll(rs), l.event)
    ensures TouchedBy(rs, l.event) == EventTouched(StripAll(rs), l.event)
  {
    var recs := StripAll(rs);
    match l.event
    case Enqueue(s, p) =>
      assert StripAll(rs + [Logs(l)]) == StripAll(rs) + [Strip(Logs(l))];
      assert rs != [] ==> recs[|rs| - 1].sequence == rs[|rs| - 1].sequence;
    case Pop(s) =>
      assert recs[0].sequence == rs[0].sequence;
      assert StripAll(rs[1..]) == StripAll(rs)[1..];
      assert View(rs[1..]) == View(rs)[1..];
    case Rewrite(s, p) =>
      FindStripped(rs, s);
      var i := Find(rs, s);
      assert StripAll(rs[i := Logs(l)]) == StripAll(rs)[i := Strip(Logs(l))];
      assert View(rs[i := Logs(l)]) == View(rs)[i := Item(s, p)];
  }

  lemma TailPresent(d: Files, r: Ram)
    requires LayoutOk(d, r) && r.tailGen != 0
    ensures r.tailGen in r.gens && Segment(r.tailGen) in d && SEGMENT_HEADER_BYTES <= r.tailBytes <= |d[Segment(r.tailGen)]|
    ensures Winner(d).Some?
  {
    hide Winner;
    TailActive(Winner(d).value);
  }

  /** A record whose event's bytes are the same in both files reads the same. */
  lemma RecKept(d: Files, d': Files, gens: seq<u32>, x: Rec, n: nat)
    requires RecLocated(d, gens, x) && x.offset + x.length + EVENT_TRAILER_BYTES <= n <= |d[Segment(x.gen)]|
    requires Segment(x.gen) in d' && n <= |d'[Segment(x.gen)]| && d'[Segment(x.gen)][..n] == d[Segment(x.gen)][..n]
    ensures RecLocated(d', gens, x) && ItemOf(d', x) == ItemOf(d, x)
  {
    var b, b' := d[Segment(x.gen)], d'[Segment(x.gen)];
    assert b[x.offset..x.offset + x.length] == b[..n][x.offset..x.offset + x.length];
    assert b'[x.offset..x.offset + x.length] == b'[..n][x.offset..x.offset + x.length];
  }

  /** An event written at the noted end of the tail leaves every record where it was. */
  lemma AppendLocated(d: Files, r: Ram, e: Event)
    requires LayoutOk(d, r) && RecordsOk(d, r) && r.tailGen != 0 && Encodable(e)
    ensures Segment(r.tailGen) in d
    ensures var d' := AppendedFiles(d, r, e);
            && Items(d', r.records) == Items(d, r.records)
            && (forall i | 0 <= i < |r.records| :: RecLocated(d', r.gens, r.records[i]))
            && (forall i | 0 <= i < |r.records| && r.records[i].gen == r.tailGen ::
                  r.records[i].offset + r.records[i].length + EVENT_TRAILER_BYTES <= r.tailBytes)
  {
    hide Shape, Winner, Encode, AllApart, InOrder, ItemOf, Overlay, RecLocated;
    TailPresent(d, r);
    var d' := AppendedFiles(d, r, e);
    OverlayParts(d[Segment(r.tailGen)], r.tailBytes, Encode(e));
    forall i | 0 <= i < |r.records|
      ensures RecLocated(d', r.gens, r.records[i]) && ItemOf(d', r.records[i]) == ItemOf(d, r.records[i])
      ensures r.records[i].gen == r.tailGen ==>
                r.records[i].offset + r.records[i].length + EVENT_TRAILER_BYTES <= r.tailBytes
    {
      var x := r.records[i];
      assert RecLocated(d, r.gens, x) && RecNoted(r, x);
      RecExtent(d, r.gens, x);
      RecKept(d, d', r.gens, x, if x.gen == r.tailGen then r.tailBytes else |d[Segment(x.gen)]|);
    }
  }

  lemma RecExtent(d: Files, gens: seq<u32>, x: Rec)
    requires RecLocated(d, gens, x)
    ensures x.gen in gens && Segment(x.gen) in d && x.offset + x.length + EVENT_TRAILER_BYTES <= |d[Segment(x.gen)]|
  {
  }

  lemma AppendRecords(d: Files, r: Ram, e: Event)
    requires LayoutOk(d, r) && RecordsOk(d, r) && r.tailGen != 0 && Encodable(e) && Allowed(r.records, e)
    ensures Segment(r.tailGen) in d
    ensures RecordsOk(AppendedFiles(d, r, e), AppendedRam(r, e))
    ensures Items(AppendedFiles(d, r, e), AppendedRam(r, e).records) == EventItems(Items(d, r.records), r.records, e)
  {
    hide Shape, Winner, Encode, ActiveOf, LayoutOk, RecLocated, RecsApart, ItemOf, Overlay, AppendedFiles, RecNoted;
    TailPresent(d, r);
    AppendLocated(d, r, e);
    var d', rs, r' := AppendedFiles(d, r, e), r.records, AppendedRam(r, e);
    AppendNoted(d, r, e);
    match e {
      case Pop(_) =>
        FrontDropped(d', rs);
      case Enqueue(s, p) =>
        AppendNew(d, r, e);
        RecordPushed(d', rs, Rec(s, r.tailGen, r.tailBytes + ENQUEUE_HEADER_BYTES, |p|));
      case Rewrite(s, p) =>
        AppendNew(d, r, e);
        RecordReplaced(d', rs, FindRec(rs, s), Rec(s, r.tailGen, r.tailBytes + ENQUEUE_HEADER_BYTES, |p|));
    }
  }

  lemma AppendNoted(d: Files, r: Ram, e: Event)
    requires RecordsOk(d, r) && Allowed(r.records, e)
    ensures var r' := AppendedRam(r, e);
            forall i | 0 <= i < |r'.records| :: RecNoted(r', r'.records[i])
  {
    hide AllApart, InOrder, RecLocated;
    var r' := AppendedRam(r, e);
    forall i | 0 <= i < |r'.records| ensures RecNoted(r', r'.records[i]) {
      assert forall k | 0 <= k < |r.records| :: RecNoted(r, r.records[k]);
    }
  }

  lemma FrontDropped(d: Files, rs: seq<Rec>)
    requires rs != [] && AllApart(rs) && InOrder(rs)
    ensures AllApart(rs[1..]) && InOrder(rs[1..]) && Items(d, rs[1..]) == Items(d, rs)[1..]
  {
    hide RecsApart, ItemOf;
    assert forall i | 0 <= i < |rs| - 1 :: rs[1..][i] == rs[i + 1];
  }

  lemma RecordPushed(d: Files, rs: seq<Rec>, x: Rec)
    requires AllApart(rs) && InOrder(rs) && (forall i | 0 <= i < |rs| :: RecsApart(rs[i], x))
    requires x.sequence + 1 < 0x1_0000_0000 && (rs != [] ==> x.sequence == rs[|rs| - 1].sequence + 1)
    ensures AllApart(rs + [x]) && InOrder(rs + [x]) && Items(d, rs + [x]) == Items(d, rs) + [ItemOf(d, x)]
  {
    hide RecsApart, ItemOf;
  }

  lemma RecordReplaced(d: Files, rs: seq<Rec>, k: nat, x: Rec)
    requires k < |rs| && AllApart(rs) && InOrder(rs) && (forall i | 0 <= i < |rs| :: RecsApart(rs[i], x))
    requires x.sequence == rs[k].sequence
    ensures AllApart(rs[k := x]) && InOrder(rs[k := x]) && Items(d, rs[k := x]) == Items(d, rs)[k := ItemOf(d, x)]
  {
    hide ItemOf;
  }

  lemma AppendNew(d: Files, r: Ram, e: Event)
    requires LayoutOk(d, r) && RecordsOk(d, r) && r.tailGen != 0 && !e.Pop? && Encodable(e)
    ensures Segment(r.tailGen) in d
    ensures var x := Rec(e.sequence, r.tailGen, r.tailBytes + ENQUEUE_HEADER_BYTES, |e.payload|);
            && RecLocated(AppendedFiles(d, r, e), r.gens, x)
            && ItemOf(AppendedFiles(d, r, e), x) == Item(e.sequence, e.payload)
            && (forall i | 0 <= i < |r.records| :: RecsApart(r.records[i], x))
  {
    hide Shape, Winner, AllApart, InOrder, Encode, ActiveOf, Overlay;
    TailPresent(d, r);
    var b, n := d[Segment(r.tailGen)], r.tailBytes;
    OverlayParts(b, n, Encode(e));
    AppendLocated(d, r, e);
    FlattenInGens(d, r);
    PayloadPlace(e);
    var c := AppendedFiles(d, r, e)[Segment(r.tailGen)];
    assert c[n + 16..n + 16 + |e.payload|] == c[n..n + |Encode(e)|][16..16 + |e.payload|];
  }

  lemma PayloadPlace(e: Event)
    requires !e.Pop? && Encodable(e)
    ensures Encode(e)[16..16 + |e.payload|] == e.payload
  {
    if e.Enqueue? {
      RecordFields(ENQUEUE_MAGIC, e.sequence, e.payload);
    } else {
      RecordFields(REWRITE_MAGIC, e.sequence, e.payload);
    }
  }

  /** This session after an appended event. */
  lemma AppendSession(d: Files, r: Ram, e: Event)
    requires SessionOk(d, r) && r.tailGen != 0 && Encodable(e) && Allowed(r.records, e)
    ensures Segment(r.tailGen) in d
    ensures var d', r' := AppendedFiles(d, r, e), AppendedRam(r, e);
            && SessionOk(d', r') && Items(d', r'.records) == EventItems(Items(d, r.records), r.records, e)
            && r'.total - Total(d') >= r.total - Total(d)
            && (Tidy(d, r) ==> Tidy(d', r') && r'.total - Total(d') == r.total - Total(d))
  {
    hide Winner, WinningSlot, Encode, RecordsOk, Items, Shape, Allowed, EventRecs, EventItems, EventTouched, ActiveOf, Overlay,
      Total;
    TailPresent(d, r);
    AppendRecords(d, r, e);
    var d', r' := AppendedFiles(d, r, e), AppendedRam(r, e);
    OverlayParts(d[Segment(r.tailGen)], r.tailBytes, Encode(e));
    WinnerDepends(d, d');
    FlattenInGens(d, r);
    TotalWrite(d, Segment(r.tailGen), d'[Segment(r.tailGen)]);
    assert forall g | g in r.gens :: Present(d', g) by {
      assert forall g | g in r.gens :: Present(d, g);
    }
    assert LayoutOk(d', r');
    assert forall g: u32 | g != r.tailGen :: Content(d', g) == Content(d, g);
  }

  /** What is left over behind an event of n bytes, once it is written at the tail's end, does not begin with an event. */
  predicate Quiet(d: Files, r: Ram, n: nat, limit: RecordLimit) {
    var b := Content(d, r.tailGen);
    r.tailBytes + n >= |b| || !NextEvent(b, r.tailBytes + n, limit).Got?
  }

  /** A remount after an appended event. When nothing was left over behind the tail's end this is certain; otherwise a remount
      finds this session exactly when what will be left over behind the event does not begin with an event. */
  lemma AppendDurable(d: Files, r: Ram, e: Event, limit: RecordLimit)
    requires SessionOk(d, r) && r.tailGen != 0 && DurableOk(d, r, limit)
    requires Within(e, limit) && Allowed(r.records, e)
    ensures Segment(r.tailGen) in d && r.tailBytes <= |d[Segment(r.tailGen)]|
    ensures DurableOk(AppendedFiles(d, r, e), AppendedRam(r, e), limit) <==> Quiet(d, r, SizeOf(e), limit)
    ensures Tidy(d, r) ==> Quiet(d, r, SizeOf(e), limit)
  {
    hide Winner, Encode, RecordsOk, SlotsOk, BytesOk, Shape, Allowed, EventRecs, EventItems, EventTouched, ActiveOf, CoherentUnder,
      Records, Apply, TailEnd, Flatten, Overlay, NextEvent;
    TailPresent(d, r);
    WinnerManifest(d, r);
    var m, d', r' := Winner(d).value, AppendedFiles(d, r, e), AppendedRam(r, e);
    var l := Logged(e, r.tailGen, r.tailBytes);
    WinnerDepends(d, d');
    RecordsConsecutive(d, m, limit);
    EventReplayed(Records(d, m, limit), l);
    AppendOver(d, r, m, e, limit);
    OverlayParts(d[Segment(r.tailGen)], r.tailBytes, Encode(e));
  }

  /** The scan of the tail ends behind the event if and only if what is left over is quiet. */
  lemma AppendEnds(d: Files, r: Ram, e: Event, limit: RecordLimit)
    requires Segment(r.tailGen) in d && SEGMENT_HEADER_BYTES <= r.tailBytes <= |d[Segment(r.tailGen)]| && Within(e, limit)
    requires SegmentScan(d, r.tailGen, limit).end == r.tailBytes
    ensures SegmentScan(AppendedFiles(d, r, e), r.tailGen, limit).end == r.tailBytes + SizeOf(e) <==> Quiet(d, r, SizeOf(e), limit)
  {
    hide Encode, ScanFrom, Overlay, Quiet, NextEvent;
    var b, n := d[Segment(r.tailGen)], r.tailBytes;
    var c := AppendedFiles(d, r, e)[Segment(r.tailGen)];
    OverlayParts(b, n, Encode(e));
    OverScan(b, n, e, c, r.tailGen, limit);
    ScanNone(c, n + SizeOf(e), r.tailGen, limit);
    QuietAfter(d, r, e, c, limit);
  }

  /** The log after an event has been written over the end of the tail. */
  lemma AppendOver(d: Files, r: Ram, m: Manifest, e: Event, limit: RecordLimit)
    requires CoherentUnder(d, m, limit) && m.tailGeneration == r.tailGen && TailEnd(d, m, limit) == r.tailBytes
    requires Segment(r.tailGen) in d && SEGMENT_HEADER_BYTES <= r.tailBytes <= |d[Segment(r.tailGen)]|
    requires Within(e, limit)
    requires Legal(Records(d, m, limit), e) && Consecutive(Apply(Records(d, m, limit), Logged(e, r.tailGen, r.tailBytes)))
    ensures var d', l := AppendedFiles(d, r, e), Logged(e, r.tailGen, r.tailBytes);
            && (TailEnd(d', m, limit) == r.tailBytes + SizeOf(e) <==> Quiet(d, r, SizeOf(e), limit))
            && (TailEnd(d', m, limit) == r.tailBytes + SizeOf(e) ==>
                  && CoherentUnder(d', m, limit)
                  && Records(d', m, limit) == Apply(Records(d, m, limit), l)
                  && TailTouched(d', m, limit) == TailTouched(d, m, limit) + TouchedBy(Records(d, m, limit), e))
  {
    hide Encode, ScanFrom, HeaderNames, Flatten, TouchedBy, Touched, ReplayFrom, GoodFrom, LogOf, Consecutive, Apply, Legal,
      Overlay, Shape, Quiet, NextEvent;
    var t, n, l := m.tailGeneration, r.tailBytes, Logged(e, r.tailGen, r.tailBytes);
    var b, d' := d[Segment(t)], AppendedFiles(d, r, e);
    var c := d'[Segment(t)];
    HeaderLength(d, t);
    OverlayParts(b, n, Encode(e));
    OverScan(b, n, e, c, t, limit);
    AppendEnds(d, r, e, limit);
    ScanNone(c, n + SizeOf(e), t, limit);
    TailChanged(d, m, c, limit);
    TailActive(m);
    LogAgrees(d, d', Flatten(m.ranges), limit);
    var pre, tail := LogOf(d, Flatten(m.ranges), limit), SegmentScan(d, t, limit).events;
    if TailEnd(d', m, limit) == n + SizeOf(e) {
      assert SegmentScan(d', t, limit).events == tail + [l];
      assert pre + (tail + [l]) == (pre + tail) + [l];
      ReplayConcat([], pre, tail);
      TouchedLast(Replay(pre), tail, l);
      ReplayLast([], pre + tail, l);
      GoodLast([], pre + tail, l);
    }
  }

  /** The bytes behind the event are those that lay there before. */
  lemma QuietAfter(d: Files, r: Ram, e: Event, c: seq<byte>, limit: RecordLimit)
    requires Segment(r.tailGen) in d && r.tailBytes <= |d[Segment(r.tailGen)]| && Encodable(e)
    requires c == Overlay(d[Segment(r.tailGen)], r.tailBytes, Encode(e))
    ensures var off := r.tailBytes + SizeOf(e);
            off <= |c| && (Quiet(d, r, SizeOf(e), limit) <==> off == |c| || !NextEvent(c, off, limit).Got?)
  {
    hide NextEvent, Encode, Overlay;
    var b, n, y := d[Segment(r.tailGen)], r.tailBytes, Encode(e);
    OverlayParts(b, n, y);
    if n + |y| < |b| {
      var p := b[..n] + y;
      assert c == p + b[n + |y|..] && b == b[..n + |y|] + b[n + |y|..];
      NextBehind(b[..n + |y|], p, b[n + |y|..], limit);
    }
  }

  /** What an event is does not depend on the bytes before it. */
  lemma NextBehind(p: seq<byte>, q: seq<byte>, x: seq<byte>, limit: RecordLimit)
    requires |p| == |q| && x != []
    ensures NextEvent(p + x, |p|, limit) == NextEvent(q + x, |p|, limit)
  {
    hide De16, De32, Crc32, PopHeader, RecordHeader;
    var b, c := p + x, q + x;
    Shift(p, x, 0);
    Shift(q, x, 0);
    Shift(p, x, 4);
    Shift(q, x, 4);
    Shift(p, x, 6);
    Shift(q, x, 6);
    Shift(p, x, 8);
    Shift(q, x, 8);
    Shift(p, x, 12);
    Shift(q, x, 12);
    Shift(p, x, 16);
    Shift(q, x, 16);
    if |x| >= 16 {
      var n: nat := De32(x, 12);
      Shift(p, x, 16 + n);
      Shift(q, x, 16 + n);
      Shift(p, x, 20 + n);
      Shift(q, x, 20 + n);
      if |x| >= 24 + n {
        assert b[|p| + 16..|p| + 16 + n] == x[16..16 + n] == c[|p| + 16..|p| + 16 + n];
      }
    }
  }

  /** Scanning a segment in which an event was written over the end of its last event, and bytes may be left over behind. */
  lemma OverScan(b: seq<byte>, n: nat, e: Event, c: seq<byte>, gen: u32, limit: RecordLimit)
    requires SEGMENT_HEADER_BYTES <= n <= |b| && ScanFrom(b, SEGMENT_HEADER_BYTES, gen, limit).end == n && Within(e, limit)
    requires n + SizeOf(e) <= |c| && c == (b[..n] + Encode(e)) + c[n + SizeOf(e)..]
    ensures var s, t := ScanFrom(b, SEGMENT_HEADER_BYTES, gen, limit), ScanFrom(c, SEGMENT_HEADER_BYTES, gen, limit);
            var rest := ScanFrom(c, n + SizeOf(e), gen, limit);
            t == Scanned(s.events + [Logged(e, gen, n)] + rest.events, rest.end, rest.stop)
    ensures HeaderNames(c, gen) == HeaderNames(b, gen)
  {
    hide Encode, ScanFrom, HeaderNames;
    var p, x := b[..n] + Encode(e), c[n + SizeOf(e)..];
    Truncated(b, SEGMENT_HEADER_BYTES, gen, limit);
    AppendScan(b[..n], e, SEGMENT_HEADER_BYTES, gen, limit);
    ScanExtend(p, x, SEGMENT_HEADER_BYTES, gen, limit);
    OverHeader(b, n, c, gen) by { assert c[..n] == b[..n]; }
  }

  lemma OverHeader(b: seq<byte>, n: nat, c: seq<byte>, gen: u32)
    requires SEGMENT_HEADER_BYTES <= n <= |b| && n <= |c| && c[..n] == b[..n]
    ensures HeaderNames(c, gen) == HeaderNames(b, gen)
  {
    hide HeaderNames;
    HeaderPrefix(b[..n], b[n..], gen);
    HeaderPrefix(c[..n], c[n..], gen);
    assert b == b[..n] + b[n..] && c == c[..n] + c[n..];
  }

  /** A scan that ends where it starts finds nothing, and a scan at the end of the file ends there. */
  lemma ScanNone(b: seq<byte>, off: nat, gen: u32, limit: RecordLimit)
    requires off <= |b|
    ensures ScanFrom(b, off, gen, limit).end == off <==> ScanFrom(b, off, gen, limit).events == []
    ensures ScanFrom(b, off, gen, limit).end == off <==> off == |b| || !NextEvent(b, off, limit).Got?
  {
    hide NextEvent;
    if off < |b| && NextEvent(b, off, limit).Got? {
      GotSize(b, off, limit);
      CleanEnd(b, off + NextEvent(b, off, limit).size, gen, limit);
    }
  }

  /** Every crash point of an appended event, with nothing left over behind the tail's end. */
  lemma AppendCrash(d: Files, r: Ram, e: Event, limit: RecordLimit)
    requires SessionOk(d, r) && r.tailGen != 0 && DurableOk(d, r, limit) && Tidy(d, r)
    requires Within(e, limit) && Allowed(r.records, e)
    ensures DiskView(AppendedFiles(d, r, e), limit) == EventItems(DiskView(d, limit), r.records, e)
    ensures CrashSafe([Write(d, WriteAt(Segment(r.tailGen), r.tailBytes, Encode(e)))], limit,
                      DiskView(d, limit), EventItems(DiskView(d, limit), r.records, e))
  {
    hide Winner, Encode, RecordsOk, SlotsOk, BytesOk, Shape, Allowed, EventRecs, EventItems, EventTouched, ActiveOf, CoherentUnder,
      Records, Apply, CleanTail, Flatten, Content, TailEnd, Overlay;
    TailPresent(d, r);
    WinnerManifest(d, r);
    var m := Winner(d).value;
    TidyClean(d, r, m, limit);
    var rs, l := Records(d, m, limit), Appended(d, m, e);
    assert SizeOf(e) == |Encode(e)|;
    assert Content(d, r.tailGen) == d[Segment(r.tailGen)] by { ContentOf(d, r.tailGen); }
    RecordsConsecutive(d, m, limit);
    EventReplayed(rs, l);
    forall k: nat | k <= |Encode(e)|
      ensures Holds(Partial(d, WriteAt(Segment(r.tailGen), r.tailBytes, Encode(e)), k), limit,
                    DiskView(d, limit), EventItems(DiskView(d, limit), r.records, e))
    {
      AppendPoint(d, r, m, e, k, limit);
    }
    AppendPoint(d, r, m, e, SizeOf(e), limit);
    OverlayParts(d[Segment(r.tailGen)], r.tailBytes, Encode(e));
    assert Encode(e)[..SizeOf(e)] == Encode(e);
  }

  lemma ContentOf(d: Files, g: u32)
    requires Segment(g) in d
    ensures Content(d, g) == d[Segment(g)]
  {
  }

  lemma RecordsConsecutive(d: Files, m: Manifest, limit: RecordLimit)
    requires CoherentUnder(d, m, limit)
    ensures Consecutive(Records(d, m, limit))
  {
  }

  lemma AppendPoint(d: Files, r: Ram, m: Manifest, e: Event, k: nat, limit: RecordLimit)
    requires Winner(d) == Some(m) && m.tailGeneration == r.tailGen && CoherentUnder(d, m, limit) && CleanTail(d, m, limit)
    requires Segment(r.tailGen) in d && |d[Segment(r.tailGen)]| == r.tailBytes
    requires Within(e, limit) && k <= SizeOf(e)
    requires Legal(Records(d, m, limit), e) && Consecutive(Apply(Records(d, m, limit), Appended(d, m, e)))
    ensures var op := WriteAt(Segment(r.tailGen), r.tailBytes, Encode(e));
            && Partial(d, op, k) == d[Segment(r.tailGen) := d[Segment(r.tailGen)] + Encode(e)[..k]]
            && Winner(Partial(d, op, k)) == Some(m)
            && Holds(Partial(d, op, k), limit, DiskView(d, limit), View(Apply(Records(d, m, limit), Appended(d, m, e))))
            && (k == SizeOf(e) ==> DiskView(Partial(d, op, k), limit) == View(Apply(Records(d, m, limit), Appended(d, m, e))))
  {
    hide Winner, Encode, CoherentUnder, Records, Apply, Legal, CleanTail, Consecutive;
    var b, x := d[Segment(r.tailGen)], Encode(e)[..k];
    assert b[..r.tailBytes] + x + [] == b + x;
    var d' := d[Segment(r.tailGen) := b + x];
    WinnerDepends(d, d');
    AppendCoherent(d, m, e, k, limit);
  }

  lemma CreatedOnce(r: Ram)
    requires r.tailGen != 0 ==> r.tailGen in r.sealedBytes && r.sealedBytes[r.tailGen] == r.tailBytes
    ensures CreatedRam(r) == StrayRam(r, r.nextGen, SEGMENT_HEADER_BYTES)
  {
    if r.tailGen != 0 {
      assert r.sealedBytes[r.tailGen := r.tailBytes] == r.sealedBytes;
    }
  }

  lemma SoundParts(d: Files, r: Ram, limit: RecordLimit, durable: bool, exact: bool)
    requires Sound(d, r, limit, durable, exact)
    ensures SlotsOk(d, r) && LayoutOk(d, r) && (Winner(d).Some? <==> r.tailGen != 0)
    ensures r.tailGen != 0 ==> Inactive(d).Some?
    ensures durable ==> Coherent(d, limit) && DiskView(d, limit) == Items(d, r.records)
  {
    hide Winner, RecordsOk, BytesOk, Shape, Items, Inactive, WinningSlot, Coherent, DiskView, CoherentUnder, CleanTail, ExactOk;
    InactiveIsOther(d);
    if durable {
      DurableView(d, r, limit);
    }
  }

  /** The first part of starting a tail: the segment is there, and nothing refers to it yet. */
  lemma CreatedSound(d: Files, r: Ram, startSeq: u32, limit: RecordLimit, durable: bool, exact: bool)
    requires Sound(d, r, limit, durable, exact)
    ensures var d', r' := CreatedFiles(d, r, startSeq), CreatedRam(r);
            && Sound(d', r', limit, durable && r.tailGen != 0, false) && SlotsOk(d', r')
            && Items(d', r.records) == Items(d, r.records)
            && Inactive(d') == Inactive(d) && WinningEpoch(d') == WinningEpoch(d)
            && (durable && r.tailGen != 0 ==>
                  CrashSafe([Write(d, WriteFile(Segment(r.nextGen), SegmentHeader(r.nextGen, startSeq)))], limit,
                            Items(d, r.records), Items(d, r.records)))
    ensures SlotsOk(d, r) && LayoutOk(d, r) && (Winner(d).Some? <==> r.tailGen != 0)
    ensures r.tailGen != 0 ==> Inactive(d).Some?
  {
    hide Winner, Inactive, Items, SegmentHeader, DurableOk, CrashSafe, LayoutOk, SlotsOk, RecordsOk, BytesOk, ExactOk, WinningEpoch,
      CreatedRam, CreatedFiles;
    SoundParts(d, r, limit, durable, exact);
    Created(d, r, startSeq);
    CreatedSame(d, r, startSeq);
    if durable && r.tailGen != 0 {
      CreatedDurable(d, r, startSeq, limit);
    }
  }

  lemma CreatedDurable(d: Files, r: Ram, startSeq: u32, limit: RecordLimit)
    requires SessionOk(d, r) && DurableOk(d, r, limit) && r.tailGen != 0
    ensures DurableOk(CreatedFiles(d, r, startSeq), CreatedRam(r), limit)
    ensures CrashSafe([Write(d, WriteFile(Segment(r.nextGen), SegmentHeader(r.nextGen, startSeq)))], limit,
                      Items(d, r.records), Items(d, r.records))
  {
    hide Winner, Inactive, Items, SegmentHeader, CoherentUnder, TailTouched, CleanTail, Records, CrashSafe, RecordsOk, BytesOk;
    NextUnused(d, r);
    StrayDurable(d, r, r.nextGen, SegmentHeader(r.nextGen, startSeq), limit);
    DurableView(d, r, limit);
  }

  /** Starting a tail as a whole. What may be left over behind the sealed tail's last event stays there. */
  lemma NewTailState(d: Files, r: Ram, startSeq: u32, limit: RecordLimit, durable: bool, exact: bool)
    requires Sound(d, r, limit, durable, exact) && RangeRoom(r) && Headroom(d, r)
    ensures var d', r' := NewTailFiles(d, r, startSeq), NewTail(d, r, startSeq);
            var d1 := CreatedFiles(d, r, startSeq);
            var m := NewTailManifest(Sealed(r.ranges, r.tailGen), r.nextGen);
            && Sound(d', r', limit, durable && Tidy(d, r), exact && Tidy(d, r)) && Tidy(d', r')
            && r'.records == r.records && Items(d', r'.records) == Items(d, r.records)
            && Inactive(d1).Some? && WinningEpoch(d1) + 1 < 0x1_0000_0000
            && (durable && Tidy(d, r) && r.tailGen != 0 ==>
                  CrashSafe([Write(d, WriteFile(Segment(r.nextGen), SegmentHeader(r.nextGen, startSeq))),
                             Write(d1, WriteFile(Inactive(d1).value, Serialise(Next(d1, m))))],
                            limit, Items(d, r.records), Items(d, r.records)))
  {
    hide Winner, Inactive, Items, SegmentHeader, CrashSafe, SessionOk, DurableOk, Serialise, Sealed, Formed, Total, WinningEpoch,
      Tidy;
    NewTailSession(d, r, startSeq);
    Created(d, r, startSeq);
    NewTailTidy(d, r, startSeq);
    if durable && Tidy(d, r) {
      NewTailDurable(d, r, startSeq, limit);
      SessionLayout(d, r);
      DurableView(d, r, limit);
    }
    if exact && Tidy(d, r) {
      NewTailExact(d, r, startSeq);
    }
  }

  lemma NewTailTidy(d: Files, r: Ram, startSeq: u32)
    requires SessionOk(d, r) && RangeRoom(r) && Headroom(d, r)
    ensures Tidy(NewTailFiles(d, r, startSeq), NewTail(d, r, startSeq))
  {
    hide Winner, SegmentHeader, Serialise, Sealed, Total, LayoutOk, RecordsOk, BytesOk;
    WinnerDepends(d, CreatedFiles(d, r, startSeq));
    InactiveIsOther(CreatedFiles(d, r, startSeq));
  }

  /** Sealing the tail of a durable session: the store still mounts, within the mount limits, if and only if nothing was left
      over behind the tail's last event. */
  lemma UntidyRotation(d: Files, r: Ram, startSeq: u32, limit: RecordLimit)
    requires Sound(d, r, limit, true, false) && RangeRoom(r) && Headroom(d, r) && r.tailGen != 0
    ensures var d' := NewTailFiles(d, r, startSeq);
            Mountable(d', limit) <==> Tidy(d, r) && WithinMountLimits(d')
  {
    hide Sound, Mountable, WithinMountLimits, Tidy, NewTailFiles, NewTail, Winner, Inactive, Items, Coherent, DiskView, Records;
    SoundParts(d, r, limit, true, false);
    var d', r' := NewTailFiles(d, r, startSeq), NewTail(d, r, startSeq);
    NewTailState(d, r, startSeq, limit, true, false);
    if Tidy(d, r) {
      SoundParts(d', r', limit, true, false);
      CoherentMounts(d', limit);
    } else if Mountable(d', limit) {
      UntidySealed(d, r, startSeq, limit);
    }
  }

  lemma UntidySealed(d: Files, r: Ram, startSeq: u32, limit: RecordLimit)
    requires Sound(d, r, limit, true, false) && RangeRoom(r) && Headroom(d, r) && r.tailGen != 0
    requires Mountable(NewTailFiles(d, r, startSeq), limit)
    ensures Tidy(d, r)
  {
    hide Winner, Inactive, Items, SegmentHeader, Serialise, Sealed, Formed, Total, WinningEpoch, Flatten, Shape, Records, LogIn,
      ScanFrom, HeaderNames, StripAll, Touched, RecordsOk, BytesOk, NewTail, SlotsOk, CreatedFiles, Next, SpanTotal;
    var d1, d' := CreatedFiles(d, r, startSeq), NewTailFiles(d, r, startSeq);
    var m := NewTailManifest(Sealed(r.ranges, r.tailGen), r.nextGen);
    Created(d, r, startSeq);
    NewTailShape(d, r);
    FormedSize(m);
    PublishedMeaning(d1, CreatedRam(r), m);
    NextSame(d1, m);
    ActiveSame(m);
    NewTailAgrees(d, r, startSeq);
    TailPresent(d, r);
    WinnerManifest(d, r);
    var k :| 0 <= k < |r.gens| && r.gens[k] == r.tailGen;
    var gens := ActiveOf(Winner(d').value);
    assert gens == r.gens + [r.nextGen];
    assert SegmentAccepted(d', gens[k], k + 1 == |gens|, limit);
    CleanEnd(d[Segment(r.tailGen)], SEGMENT_HEADER_BYTES, r.tailGen, limit);
  }

  lemma SessionLayout(d: Files, r: Ram)
    requires SessionOk(d, r)
    ensures SlotsOk(d, r) && LayoutOk(d, r) && RecordsOk(d, r) && BytesOk(d, r)
  {
  }

  lemma NewTailExact(d: Files, r: Ram, startSeq: u32)
    requires SessionOk(d, r) && RangeRoom(r) && Headroom(d, r) && ExactOk(d, r) && Tidy(d, r)
    requires NewTail(d, r, startSeq).total - Total(NewTailFiles(d, r, startSeq)) == r.total - Total(d)
    ensures ExactOk(NewTailFiles(d, r, startSeq), NewTail(d, r, startSeq))
  {
    hide Winner, SegmentHeader, Serialise, Sealed, Total, RecordsOk, BytesOk, Flatten, Shape, SlotsOk, ActiveOf, SizesExact, Formed,
      Next, WinningEpoch, Tidy, SameSegments, Inactive;
    var d1 := CreatedFiles(d, r, startSeq);
    var m := NewTailManifest(Sealed(r.ranges, r.tailGen), r.nextGen);
    Created(d, r, startSeq);
    NewTailShape(d, r);
    FormedSize(m);
    PublishedMeaning(d1, CreatedRam(r), m);
    NewTailBytes(d, NewTailFiles(d, r, startSeq), r, NewTail(d, r, startSeq), startSeq);
    NewTailBelow(d1, NewTailFiles(d, r, startSeq), r.nextGen);
  }

  lemma NewTailBelow(d: Files, d': Files, next: int)
    requires SameSegments(d, d') && forall g: u32 | Segment(g) in d :: g <= next
    ensures forall g: u32 | Segment(g) in d' :: g < next + 1
  {
  }

  lemma StartedFormed(d: Files, r: Ram, limit: RecordLimit, durable: bool, exact: bool)
    requires Sound(d, r, limit, durable, exact) && RangeRoom(r) && (r.nextGen as int) + 1 < 0x1_0000_0000
    ensures Formed(Manifest(0, r.nextGen + 1, Sealed(r.ranges, r.tailGen), r.nextGen))
  {
    hide Winner, Flatten, Distinct, DurableOk, ExactOk;
    if r.tailGen == 0 {
      SealedNothing(r.ranges);
    } else {
      SealedFlatten(r.ranges, r.tailGen);
      TailActive(Winner(d).value);
    }
  }

  lemma RecoverableTwo(t: seq<Write>, a: Write, b: Write, limit: RecordLimit, v: seq<Item>, w: seq<Item>)
    requires CrashSafe([a, b], limit, v, w)
    ensures Recoverable(t, t + [a] + [b], limit, v, w)
  {
    assert t + [a] + [b] == t + [a, b];
    RecoverableAdd(t, [a, b], limit, v, w);
  }

  function LastSequence(rs: seq<Rec>): u32
    requires rs != []
  {
    rs[|rs| - 1].sequence
  }

  /** The sequence a rotation writes into the new segment's header. */
  function BaseSequence(rs: seq<Rec>): u32 {
    if rs == [] then 0 else (LastSequence(rs) + 1) % 0x1_0000_0000
  }

  lemma SealedForm(rs: seq<Range>, tail: u32)
    ensures rs != [] ==> rs[|rs| - 1 := Range(rs[|rs| - 1].startGen, tail)] == rs[..|rs| - 1] + [Range(rs[|rs| - 1].startGen, tail)]
  {
  }

  /** Noting the tail's size among the sealed segments early, as rotation does. */
  lemma TailNoted(d: Files, r: Ram, limit: RecordLimit, durable: bool, exact: bool)
    requires Sound(d, r, limit, durable, exact) && r.tailGen != 0
    ensures var r' := r.(sealedBytes := r.sealedBytes[r.tailGen := r.tailBytes]);
            && Sound(d, r', limit, durable, exact)
            && Items(d, r'.records) == Items(d, r.records)
            && (Headroom(d, r) <==> Headroom(d, r')) && (RangeRoom(r) <==> RangeRoom(r')) && (Tidy(d, r) <==> Tidy(d, r'))
            && (Headroom(d, r) && RangeRoom(r) ==>
                  NewTail(d, r', BaseSequence(r.records)) == NewTail(d, r, BaseSequence(r.records)))
            && (r.records != [] ==> BaseSequence(r.records) == LastSequence(r.records) + 1)
    ensures Winner(d).Some? && Inactive(d).Some?
  {
    hide Winner, Inactive, Total, CoherentUnder, Records, TailTouched, TailEnd, WinningSlot, AllApart, Publishable, Items;
    SoundParts(d, r, limit, durable, exact);
    FlattenInGens(d, r);
    NotedCarried(d, r, r.(sealedBytes := r.sealedBytes[r.tailGen := r.tailBytes]));
    var s := r.sealedBytes[r.tailGen := r.tailBytes];
    assert s[r.tailGen := r.tailBytes] == s;
  }

  // Growth of the store on disk.

  function Max0(n: int): nat { if n < 0 then 0 else n }

  /** The tail has events and another n bytes would not fit. */
  predicate MustRotate(cfg: Config, r: Ram, n: nat) {
    r.tailBytes > SEGMENT_HEADER_BYTES && r.tailBytes + n > cfg.maxSegmentBytes
  }

  /** The size of the slot written next, as far as the cache tells; the smaller one when it does not. */
  function InactiveSize(r: Ram): nat {
    if r.cachedSlot == Some(SlotA) then r.slotB
    else if r.cachedSlot == Some(SlotB) then r.slotA
    else if r.slotA <= r.slotB then r.slotA else r.slotB
  }

  /** appendGrowthBytes for an event of n bytes. */
  function AppendGrowth(cfg: Config, r: Ram, n: nat): nat {
    if r.tailBytes != 0 && !MustRotate(cfg, r, n) then n
    else
      var prospective := |r.ranges| + (if MustRotate(cfg, r, n) then 1 else 0);
      n + SEGMENT_HEADER_BYTES + Max0(ManifestSize(prospective) - InactiveSize(r))
  }

  /** The growth estimate never undercounts what a new tail costs: the segment header and the manifest written over the
      slot that does not count. */
  lemma NewTailGrowth(cfg: Config, d: Files, r: Ram, n: nat, startSeq: u32)
    requires SlotsOk(d, r) && LayoutOk(d, r) && RangeRoom(r) && Headroom(d, r)
    requires MustRotate(cfg, r, n) || r.tailGen == 0
    ensures NewTail(d, r, startSeq).total + n <= r.total + AppendGrowth(cfg, r, n)
    ensures NewTail(d, r, startSeq).tailBytes == SEGMENT_HEADER_BYTES && NewTail(d, r, startSeq).tailGen == r.nextGen != 0
  {
    hide Winner, SegmentHeader, Serialise, Parse, Flatten, Shape, WinningSlot;
    NewTailShape(d, r);
    var d1 := CreatedFiles(d, r, startSeq);
    WinnerDepends(d, d1);
    InactiveIsOther(d);
    assert |Sealed(r.ranges, r.tailGen)| <= |r.ranges| + (if r.tailGen != 0 then 1 else 0);
  }

  /** Nor does it overcount by much. Where the tail takes the event, it is exact. Where a new tail is due, it is the new segment's
      header alone, or too high by no more than one range, which it adds even where the old tail joins the last one, and by what
      the slot estimate misses: nothing once a manifest was written in this session. */
  lemma GrowthTight(cfg: Config, d: Files, r: Ram, n: nat, startSeq: u32)
    requires SlotsOk(d, r) && LayoutOk(d, r) && RangeRoom(r) && Headroom(d, r)
    ensures if r.tailGen != 0 && (r.tailBytes == SEGMENT_HEADER_BYTES || r.tailBytes + n <= cfg.maxSegmentBytes)
            then AppendGrowth(cfg, r, n) == n
            else
              var cost, missed := NewTail(d, r, startSeq).total - r.total, SizeOfFile(d, Inactive(d).value) - InactiveSize(r);
              var joined := if |Sealed(r.ranges, r.tailGen)| == |r.ranges| && r.tailGen != 0 then RANGE_ENTRY_BYTES else 0;
              && missed >= 0 && (r.cachedSlot.Some? ==> missed == 0)
              && (AppendGrowth(cfg, r, n) == n + SEGMENT_HEADER_BYTES || AppendGrowth(cfg, r, n) == n + cost + joined + missed)
  {
    hide Winner, SegmentHeader, Serialise, Parse, Flatten, Shape;
    var d1 := CreatedFiles(d, r, startSeq);
    WinnerDepends(d, d1);
    InactiveIsOther(d);
    InactiveIsOther(d1);
  }

  /** A store that counts as full really is: with the event, the reserve, and a new tail where one is due, which costs its header
      or what it really adds and the slack above, it would go over its cap. */
  lemma FullMeans(cfg: Config, d: Files, r: Ram, n: nat, startSeq: u32)
    requires SlotsOk(d, r) && LayoutOk(d, r) && RangeRoom(r) && Headroom(d, r) && !Fits(cfg, r, n)
    ensures cfg.maxTotalBytes != 0
    ensures var room := cfg.maxTotalBytes - cfg.drainReserveBytes - r.total - n;
            if r.tailGen != 0 && (r.tailBytes == SEGMENT_HEADER_BYTES || r.tailBytes + n <= cfg.maxSegmentBytes) then room < 0
            else
              || room < SEGMENT_HEADER_BYTES
              || room < NewTail(d, r, startSeq).total - r.total + RANGE_ENTRY_BYTES + SizeOfFile(d, Inactive(d).value) - InactiveSize(r)
  {
    hide AppendGrowth, Inactive, SlotsOk, LayoutOk, Headroom, RangeRoom, NewTail, InactiveSize, Sealed, SizeOfFile;
    GrowthTight(cfg, d, r, n, startSeq);
  }

  /** The total once a tail with room for n bytes is there. */
  predicate Prepared(cfg: Config, r: Ram, r': Ram, n: nat) {
    && r'.tailGen != 0 && r'.records == r.records
    && r'.total + n <= r.total + AppendGrowth(cfg, r, n)
  }

  lemma KeptGrowth(cfg: Config, r: Ram, n: nat)
    ensures r.tailBytes != 0 && !MustRotate(cfg, r, n) ==> AppendGrowth(cfg, r, n) == n
  {
  }

  /** An appended event as a whole. */
  lemma AppendState(d: Files, r: Ram, e: Event, limit: RecordLimit, durable: bool, exact: bool)
    requires Sound(d, r, limit, durable, exact) && r.tailGen != 0
    requires Within(e, limit) && Allowed(r.records, e)
    ensures Segment(r.tailGen) in d && r.tailBytes <= |d[Segment(r.tailGen)]|
    ensures var d', r' := AppendedFiles(d, r, e), AppendedRam(r, e);
            && Sound(d', r', limit, durable && Quiet(d, r, SizeOf(e), limit), exact && Tidy(d, r))
            && (Tidy(d, r) && durable ==> Quiet(d, r, SizeOf(e), limit))
            && (Tidy(d, r) ==> Tidy(d', r'))
            && Items(d', r'.records) == EventItems(Items(d, r.records), r.records, e)
            && (Winner(d').Some? <==> Winner(d).Some?)
            && (durable && Tidy(d, r) ==>
                  CrashSafe([Write(d, WriteAt(Segment(r.tailGen), r.tailBytes, Encode(e)))], limit,
                            Items(d, r.records), Items(d', r'.records)))
  {
    hide Winner, Items, SessionOk, DurableOk, CrashSafe, Encode, EventItems, EventRecs, EventTouched, Allowed, Total, ExactOk,
      Quiet, Tidy, AppendedFiles, Overlay;
    SoundParts(d, r, limit, durable, exact);
    TailPresent(d, r);
    AppendSession(d, r, e);
    AppendLengths(r, e, limit);
    SoundParts(AppendedFiles(d, r, e), AppendedRam(r, e), limit, false, false);
    if durable {
      AppendDurable(d, r, e, limit);
      if Tidy(d, r) {
        AppendCrash(d, r, e, limit);
        ViewAfter(d, r, e, limit);
      }
    }
    if exact && Tidy(d, r) {
      AppendExact(d, r, e);
    }
  }

  lemma ViewAfter(d: Files, r: Ram, e: Event, limit: RecordLimit)
    requires Sound(d, r, limit, true, false) && Allowed(r.records, e)
    ensures EventItems(DiskView(d, limit), r.records, e) == EventItems(Items(d, r.records), r.records, e)
  {
    hide SlotsOk, RecordsOk, BytesOk, DurableOk, DiskView, Items;
    DurableView(d, r, limit);
  }

  lemma AppendLengths(r: Ram, e: Event, limit: RecordLimit)
    requires LengthsOk(r.records, limit) && Within(e, limit) && Allowed(r.records, e)
    ensures LengthsOk(AppendedRam(r, e).records, limit)
  {
  }

  lemma AppendExact(d: Files, r: Ram, e: Event)
    requires LayoutOk(d, r) && r.tailGen != 0 && Tidy(d, r)
    requires Segment(r.tailGen) in d && Encodable(e) && Allowed(r.records, e) && ExactOk(d, r)
    requires AppendedRam(r, e).total - Total(AppendedFiles(d, r, e)) == r.total - Total(d)
    ensures ExactOk(AppendedFiles(d, r, e), AppendedRam(r, e))
  {
    hide Encode, Total, Overlay, Winner, Shape;
    FlattenInGens(d, r);
    assert forall g: u32 | g != r.tailGen :: Content(AppendedFiles(d, r, e), g) == Content(d, g);
  }

  /** A new tail leaves the bytes of the listed segments as they are. */
  lemma NewTailAgrees(d: Files, r: Ram, startSeq: u32)
    requires SlotsOk(d, r) && LayoutOk(d, r)
    ensures Agree(d, d, r.gens) && Agree(d, CreatedFiles(d, r, startSeq), r.gens)
    ensures RangeRoom(r) && Headroom(d, r) ==> Agree(d, NewTailFiles(d, r, startSeq), r.gens)
  {
    hide Winner, Serialise, SegmentHeader, Inactive, WinningEpoch, SlotsOk, Flatten, Sealed;
    NextUnused(d, r);
    if RangeRoom(r) && Headroom(d, r) {
      InactiveName(d);
      NewTailIs(d, r, startSeq);
    }
  }

  lemma InactiveName(d: Files)
    ensures Inactive(d).Some? ==> !Inactive(d).value.Segment?
  {
    hide Winner, WinningSlot;
    InactiveIsOther(d);
  }

  lemma SoundAgrees(d: Files, r: Ram, limit: RecordLimit, durable: bool, exact: bool)
    requires Sound(d, r, limit, durable, exact)
    ensures Agree(d, d, r.gens)
  {
    hide SlotsOk, RecordsOk, BytesOk, DurableOk, ExactOk, Winner, Shape;
  }

  // The queue as a list of items, without the index.

  /** The first index holding sequence s, or the length when there is none. */
  function FindItem(v: seq<Item>, s: u32): (i: nat)
    ensures i <= |v|
    ensures i < |v| ==> v[i].sequence == s
    ensures forall k | 0 <= k < i :: v[k].sequence != s
  {
    if v == [] || v[0].sequence == s then 0 else 1 + FindItem(v[1..], s)
  }

  /** The queue allows the event. */
  predicate Permits(v: seq<Item>, e: Event) {
    match e
    case Enqueue(s, _) => s + 1 < 0x1_0000_0000 && (v != [] ==> s == v[|v| - 1].sequence + 1)
    case Pop(s) => v != [] && v[0].sequence == s
    case Rewrite(s, _) => FindItem(v, s) < |v|
  }

  /** The queue after the event. */
  function Queued(v: seq<Item>, e: Event): seq<Item>
    requires Permits(v, e)
  {
    match e
    case Enqueue(s, p) => v + [Item(s, p)]
    case Pop(_) => v[1..]
    case Rewrite(s, p) => v[FindItem(v, s) := Item(s, p)]
  }

  lemma ItemSequenceOf(d: Files, rs: seq<Rec>, i: nat)
    requires i < |rs|
    ensures Items(d, rs)[i].sequence == rs[i].sequence
  {
  }

  lemma {:induction false} FindIsFind(d: Files, rs: seq<Rec>, s: u32)
    ensures FindItem(Items(d, rs), s) == FindRec(rs, s)
  {
    hide ItemOf;
    if rs != [] {
      ItemSequenceOf(d, rs, 0);
      assert Items(d, rs)[1..] == Items(d, rs[1..]);
      FindIsFind(d, rs[1..], s);
    }
  }

  /** A live record may be rewritten, in its place. */
  lemma RewritePermitted(d: Files, rs: seq<Rec>, s: u32, payload: seq<byte>)
    ensures var v, k := Items(d, rs), FindRec(rs, s);
            && FindItem(v, s) == k <= |v|
            && (k < |v| ==> Permits(v, Rewrite(s, payload)) && Queued(v, Rewrite(s, payload)) == v[k := Item(s, payload)])
  {
    FindIsFind(d, rs, s);
  }

  /** What the index allows, and does, is what the queue allows, and does. */
  lemma ItemsDecide(d: Files, rs: seq<Rec>, e: Event)
    ensures Permits(Items(d, rs), e) <==> Allowed(rs, e)
    ensures Allowed(rs, e) ==> EventItems(Items(d, rs), rs, e) == Queued(Items(d, rs), e)
  {
    hide ItemOf;
    match e {
      case Enqueue(_, _) => if rs != [] { ItemSequenceOf(d, rs, |rs| - 1); }
      case Pop(_) => if rs != [] { ItemSequenceOf(d, rs, 0); }
      case Rewrite(s, _) => FindIsFind(d, rs, s);
    }
  }

  /** With the event's bytes and the reserve the store stays within its cap. */
  predicate Fits(cfg: Config, r: Ram, n: nat) {
    cfg.maxTotalBytes == 0 || r.total + AppendGrowth(cfg, r, n) + cfg.drainReserveBytes <= cfg.maxTotalBytes
  }

  lemma AppendedTotal(cfg: Config, r: Ram, r1: Ram, e: Event, n: nat)
    requires Prepared(cfg, r, r1, n) && Fits(cfg, r, n) && n == SizeOf(e) && Allowed(r1.records, e)
    ensures cfg.maxTotalBytes != 0 ==> AppendedRam(r1, e).total + cfg.drainReserveBytes <= cfg.maxTotalBytes
  {
    hide AppendGrowth, EventRecs, EventTouched;
  }

  lemma RecoverableWiden(t0: seq<Write>, t1: seq<Write>, limit: RecordLimit, v: seq<Item>, w: seq<Item>)
    requires Recoverable(t0, t1, limit, v, v)
    ensures Recoverable(t0, t1, limit, v, w)
  {
    CrashSafeWiden(t1[|t0|..], limit, v, w);
  }

  lemma PreparedTail(cfg: Config, r: Ram, r': Ram, n: nat)
    requires Prepared(cfg, r, r', n)
    ensures r'.tailGen != 0 && r'.records == r.records
  {
  }

  lemma IndexInOrder(d: Files, r: Ram, limit: RecordLimit, durable: bool, exact: bool)
    requires Sound(d, r, limit, durable, exact)
    ensures InOrder(r.records)
    ensures forall i | 0 <= i < |r.records| :: Items(d, r.records)[i].sequence == r.records[i].sequence
  {
    hide SlotsOk, LayoutOk, BytesOk, DurableOk, ExactOk, AllApart;
  }

  /** In a queue without gaps a sequence is found at its distance from the front. */
  lemma FindBounds(v: seq<Item>, s: u32, head: u32)
    requires v != [] ==> v[0].sequence == head
    requires forall i | 0 <= i < |v| :: v[i].sequence == head + i
    ensures FindItem(v, s) == if head <= s < head + |v| then s - head else |v|
  {
    if head <= s < head + |v| {
      assert v[s - head].sequence == s;
    }
  }

  lemma ReadInside(d: Files, r: Ram, limit: RecordLimit, durable: bool, exact: bool, i: nat)
    requires Sound(d, r, limit, durable, exact) && i < |r.records|
    ensures var x := r.records[i];
            && Segment(x.gen) in d && x.offset + x.length <= |d[Segment(x.gen)]|
            && Items(d, r.records)[i].payload == d[Segment(x.gen)][x.offset..x.offset + x.length]
  {
    hide SlotsOk, LayoutOk, BytesOk, DurableOk, ExactOk, AllApart, InOrder;
    assert RecLocated(d, r.gens, r.records[i]);
  }

  lemma AppendedTail(r: Ram, e: Event)
    requires Allowed(r.records, e)
    ensures AppendedRam(r, e).tailGen == r.tailGen
  {
  }

  lemma RecoverableOne(t: seq<Write>, a: Write, limit: RecordLimit, v: seq<Item>)
    ensures CrashSafe([a], limit, v, v) ==> Recoverable(t, t + [a], limit, v, v)
  {
    if CrashSafe([a], limit, v, v) {
      RecoverableAdd(t, [a], limit, v, v);
    }
  }

  /** Without a cap everything fits. */
  lemma Uncapped(cfg: Config, r: Ram, n: nat)
    ensures cfg.maxTotalBytes == 0 ==> Fits(cfg, r, n)
  {
  }

  /** The byte counter never undercounts what is on disk. */
  lemma SoundTotal(d: Files, r: Ram, limit: RecordLimit, durable: bool, exact: bool)
    requires Sound(d, r, limit, durable, exact)
    ensures Total(d) <= r.total && (exact ==> Total(d) == r.total)
  {
    hide SlotsOk, LayoutOk, RecordsOk, DurableOk, Total;
  }

  lemma CreatedTidy(d: Files, r: Ram, startSeq: u32)
    requires LayoutOk(d, r)
    ensures Tidy(d, r) ==> Tidy(CreatedFiles(d, r, startSeq), CreatedRam(r))
  {
    hide Winner, Shape;
    NextUnused(d, r);
    if r.tailGen != 0 {
      TailPresent(d, r);
    }
  }

  /** A new tail has to be started before an event of n bytes. */
  predicate Due(cfg: Config, r: Ram, n: nat) {
    r.tailGen == 0 || MustRotate(cfg, r, n)
  }

  /** The tail can take an event of n bytes, or a new tail can be started. */
  predicate Ready(cfg: Config, d: Files, r: Ram, n: nat) {
    Due(cfg, r, n) ==> RangeRoom(r) && Headroom(d, r)
  }

  /** The parts of starting a tail. */
  lemma NewTailIs(d: Files, r: Ram, startSeq: u32)
    requires SlotsOk(d, r)
    ensures Headroom(d, r) <==> r.nextGen + 1 < 0x1_0000_0000 && Inactive(d).Some? && WinningEpoch(d) + 1 < 0x1_0000_0000
    ensures Inactive(CreatedFiles(d, r, startSeq)) == Inactive(d)
    ensures WinningEpoch(CreatedFiles(d, r, startSeq)) == WinningEpoch(d)
    ensures Publishable(CreatedFiles(d, r, startSeq)) <==> Inactive(d).Some? && WinningEpoch(d) + 1 < 0x1_0000_0000
    ensures Headroom(d, r) && RangeRoom(r) ==>
              var d1, g := CreatedFiles(d, r, startSeq), r.nextGen;
              var m := Manifest(0, g + 1, Sealed(r.ranges, r.tailGen), g);
              && NewTailFiles(d, r, startSeq) == PublishedFiles(d1, m)
              && NewTail(d, r, startSeq)
                 == PublishedRam(d1, CreatedRam(r), m).(tailGen := g, tailBytes := SEGMENT_HEADER_BYTES, affected := {})
              && NewTailManifest(Sealed(r.ranges, r.tailGen), g) == m
  {
    hide Winner, Sealed, Serialise, SegmentHeader, CreatedRam;
    WinnerDepends(d, CreatedFiles(d, r, startSeq));
  }

  lemma NewTailNamed(d: Files, r: Ram, startSeq: u32)
    requires LayoutOk(d, r) && SlotsOk(d, r) && Headroom(d, r) && RangeRoom(r)
    ensures NewTail(d, r, startSeq).tailGen == r.nextGen != 0
  {
    hide Winner, Serialise, SegmentHeader, Flatten, Distinct, Shape;
    NewTailShape(d, r);
  }

  lemma RoomIs(r: Ram)
    ensures RangeRoom(r) <==> |Sealed(r.ranges, r.tailGen)| <= MANIFEST_MAX_RANGES
  {
  }

  // How the layout moves while nothing is compacted.

  /** What taking an event of n bytes does to the layout: nothing, or one new tail behind the old one. */
  predicate Advances(cfg: Config, r: Ram, r': Ram, n: nat) {
    && r'.nextSeq == r.nextSeq
    && if Due(cfg, r, n)
       then r'.ranges == Sealed(r.ranges, r.tailGen) && r'.tailGen == r.nextGen && r'.nextGen == r.nextGen + 1
            && r'.cachedSlot.Some? && (r.tailGen == 0 ==> r'.cachedEpoch == 1)
            && (r.cachedSlot.Some? ==> r'.cachedEpoch == r.cachedEpoch + 1)
       else r'.ranges == r.ranges && r'.tailGen == r.tailGen && r'.nextGen == r.nextGen
            && r'.cachedSlot == r.cachedSlot && r'.cachedEpoch == r.cachedEpoch
  }

  lemma GrewNext(cfg: Config, r: Ram, r': Ram, n: nat)
    requires Grew(cfg, r, r', n)
    ensures r'.nextSeq == r.nextSeq
  {
    hide Due, Sealed;
  }

  lemma AdvancesKept(cfg: Config, r: Ram, n: nat)
    ensures !Due(cfg, r, n) ==> Advances(cfg, r, r, n)
  {
    hide Sealed;
  }

  lemma AdvancesNew(cfg: Config, d: Files, r: Ram, n: nat, startSeq: u32)
    requires SlotsOk(d, r) && LayoutOk(d, r) && Headroom(d, r) && RangeRoom(r) && Due(cfg, r, n)
    ensures Advances(cfg, r, NewTail(d, r, startSeq), n)
  {
    hide Inactive, Sealed, Serialise, SegmentHeader, ActiveOf, Winner, Shape;
    NewTailIs(d, r, startSeq);
  }

  lemma AdvancesOn(cfg: Config, r: Ram, r1: Ram, n: nat, e: Event)
    requires Advances(cfg, r, r1, n) && Allowed(r1.records, e)
    ensures Advances(cfg, r, AppendedRam(r1, e), n)
  {
    hide EventRecs, EventTouched, Sealed, Due;
  }

  /** The store has only ever grown, one generation after the other, and has used up no more than n generations and epochs. */
  predicate Grown(r: Ram, n: nat) {
    && r.nextGen <= n + 1 && r.nextGen == r.tailGen + 1
    && r.ranges == (if r.tailGen <= 1 then [] else [Range(1, r.tailGen - 1)])
    && (r.tailGen != 0 ==> r.cachedSlot.Some? && r.cachedEpoch <= n)
  }

  /** Such a store always has room to grow on. */
  lemma GrownReady(cfg: Config, d: Files, r: Ram, n: nat, bytes: nat)
    requires SlotsOk(d, r) && LayoutOk(d, r) && Inactive(d).Some? && Grown(r, n) && n + 2 < 0x1_0000_0000
    ensures Ready(cfg, d, r, bytes)
  {
    hide Inactive, Winner, Shape;
    GrownSealed(r, n);
  }

  lemma GrownSealed(r: Ram, n: nat)
    requires Grown(r, n)
    ensures Sealed(r.ranges, r.tailGen) == if r.tailGen == 0 then [] else [Range(1, r.tailGen)]
  {
  }

  lemma GrownAdvances(cfg: Config, r: Ram, r': Ram, n: nat, bytes: nat)
    requires Grown(r, n) && Advances(cfg, r, r', bytes) && (r.tailGen == 0 ==> r.cachedSlot.None?)
    ensures Grown(r', n + 1)
  {
    hide Due;
    GrownSealed(r, n);
  }

  // Sizes of segments.

  /** No segment that the store writes is larger: the configured size, or a header and one POP where that is more. */
  function SegmentBound(cfg: Config): nat {
    if cfg.maxSegmentBytes < SEGMENT_HEADER_BYTES + POP_EVENT_BYTES then SEGMENT_HEADER_BYTES + POP_EVENT_BYTES else cfg.maxSegmentBytes
  }

  /** Each record has room in a segment of its own. */
  predicate AllFitting(cfg: Config, v: seq<Item>) {
    forall x | x in v :: SEGMENT_HEADER_BYTES + ENQUEUE_OVERHEAD_BYTES + |x.payload| <= cfg.maxSegmentBytes
  }

  /** What an event of n bytes does to the tail, in bytes: a tail that already holds events and has no room for it is left for a
      new one, and so is no tail at all; otherwise the tail grows by it. */
  predicate TailTook(cfg: Config, r: Ram, r': Ram, n: nat) {
    if r.tailGen == 0 || (r.tailBytes > SEGMENT_HEADER_BYTES && r.tailBytes + n > cfg.maxSegmentBytes)
    then r'.tailGen != r.tailGen && r'.tailBytes == SEGMENT_HEADER_BYTES + n
    else r'.tailGen == r.tailGen && r'.tailBytes == r.tailBytes + n
  }

  /** Both: the layout and the tail's size after an event of n bytes. */
  predicate Grew(cfg: Config, r: Ram, r': Ram, n: nat) {
    Advances(cfg, r, r', n) && TailTook(cfg, r, r', n)
  }

  /** The tail made ready for an event of n bytes. */
  predicate TailReady(cfg: Config, r: Ram, r': Ram, n: nat) {
    if r.tailGen == 0 || (r.tailBytes > SEGMENT_HEADER_BYTES && r.tailBytes + n > cfg.maxSegmentBytes)
    then r'.tailGen != r.tailGen && r'.tailBytes == SEGMENT_HEADER_BYTES
    else r'.tailGen == r.tailGen && r'.tailBytes == r.tailBytes
  }

  lemma TailReadyKept(cfg: Config, r: Ram, n: nat)
    ensures !Due(cfg, r, n) ==> TailReady(cfg, r, r, n)
  {
  }

  lemma TailReadyNew(cfg: Config, d: Files, r: Ram, n: nat, startSeq: u32)
    requires SlotsOk(d, r) && LayoutOk(d, r) && Headroom(d, r) && RangeRoom(r) && Due(cfg, r, n)
    ensures TailReady(cfg, r, NewTail(d, r, startSeq), n)
  {
    hide Inactive, Sealed, Serialise, SegmentHeader, Winner, Flatten, Distinct;
    NewTailIs(d, r, startSeq);
    NewTailNamed(d, r, startSeq);
    TailBelow(d, r);
  }

  lemma TailBelow(d: Files, r: Ram)
    requires LayoutOk(d, r)
    ensures r.tailGen < r.nextGen
  {
    hide Winner, Flatten, Distinct;
    if r.tailGen != 0 {
      TailActive(Winner(d).value);
    }
  }

  lemma TailReadyOn(cfg: Config, r: Ram, r1: Ram, e: Event)
    requires TailReady(cfg, r, r1, SizeOf(e)) && Allowed(r1.records, e)
    ensures TailTook(cfg, r, AppendedRam(r1, e), SizeOf(e))
  {
    hide EventRecs, EventTouched;
  }

  /** An event that fits a segment of its own, with the header, leaves the tail within the configured size. */
  lemma TookWithin(cfg: Config, d: Files, r: Ram, r': Ram, n: nat)
    requires LayoutOk(d, r) && Grew(cfg, r, r', n)
    ensures SEGMENT_HEADER_BYTES + n <= cfg.maxSegmentBytes ==> r'.tailBytes <= cfg.maxSegmentBytes
    ensures r'.tailBytes <= cfg.maxSegmentBytes || r'.tailBytes == SEGMENT_HEADER_BYTES + n
    ensures SEGMENT_HEADER_BYTES + n <= SegmentBound(cfg) ==> r'.tailBytes <= SegmentBound(cfg)
  {
    hide Winner, Shape;
  }

  lemma ReadyWithin(cfg: Config, d: Files, r: Ram, r1: Ram, n: nat)
    requires LayoutOk(d, r) && TailReady(cfg, r, r1, n) && SEGMENT_HEADER_BYTES + n <= SegmentBound(cfg)
    ensures r1.tailBytes + n <= SegmentBound(cfg)
  {
    hide Winner, Shape;
  }

  /** All that an appended event does to the index's sizes, tail and layout, seen from before its tail was made ready. */
  lemma AppendedAfter(cfg: Config, d: Files, r: Ram, r1: Ram, e: Event, durable: bool, exact: bool)
    requires Allowed(r1.records, e) && Sound(d, AppendedRam(r1, e), cfg.limit, durable, exact)
    requires Prepared(cfg, r, r1, SizeOf(e)) && Advances(cfg, r, r1, SizeOf(e)) && TailReady(cfg, r, r1, SizeOf(e))
    ensures var r' := AppendedRam(r1, e);
            && r'.tailGen != 0 && Grew(cfg, r, r', SizeOf(e)) && Total(d) <= r'.total
            && (Fits(cfg, r, SizeOf(e)) && cfg.maxTotalBytes != 0 ==> r'.total + cfg.drainReserveBytes <= cfg.maxTotalBytes)
  {
    hide Sound, AppendedRam, Fits, Advances, TailReady, TailTook, Prepared, Total, Allowed;
    SoundTotal(d, AppendedRam(r1, e), cfg.limit, durable, exact);
    PreparedTail(cfg, r, r1, SizeOf(e));
    AppendedTail(r1, e);
    AdvancesOn(cfg, r, r1, SizeOf(e), e);
    TailReadyOn(cfg, r, r1, e);
    if Fits(cfg, r, SizeOf(e)) {
      AppendedTotal(cfg, r, r1, e, SizeOf(e));
    }
  }

  /** Records that are dropped, added or replaced leave the rest fitting. */
  lemma FittingKept(cfg: Config, v: seq<Item>, e: Event)
    requires AllFitting(cfg, v) && Permits(v, e)
    requires !e.Pop? ==> SEGMENT_HEADER_BYTES + SizeOf(e) <= cfg.maxSegmentBytes
    ensures AllFitting(cfg, Queued(v, e))
  {
    hide FindItem;
    var w := Queued(v, e);
    forall x | x in w ensures SEGMENT_HEADER_BYTES + ENQUEUE_OVERHEAD_BYTES + |x.payload| <= cfg.maxSegmentBytes {
      assert e.Pop? ==> x in v;
      if !e.Pop? && x !in v {
        assert x.payload == e.payload;
      }
    }
  }

  lemma BoundCovers(cfg: Config, e: Event)
    requires !e.Pop? ==> SEGMENT_HEADER_BYTES + SizeOf(e) <= cfg.maxSegmentBytes
    ensures SEGMENT_HEADER_BYTES + SizeOf(e) <= SegmentBound(cfg)
  {
  }

  lemma TidyQuiet(d: Files, r: Ram, n: nat, limit: RecordLimit)
    requires Tidy(d, r) && r.tailGen != 0
    ensures Quiet(d, r, n, limit)
  {
    hide NextEvent;
  }
}
