/** The append-log store. */
module Store {
  import opened Bytes
  import opened Codec
  import opened ManifestCodec
  import opened Scan
  import opened LogReplay
  import opened Layout
  import opened Disk
  import opened Slots
  import opened Coherence
  import opened Session
  import opened SessionCompaction
  import opened Packing
  import opened Sorting
  import opened Collecting
  import opened CompactionOutput
  import opened CompactionStep
  import opened Selection
  import opened Mounting

  datatype Code =
    | WriteFailed
    | DataCorrupt
    | RangeLimitExceeded
    | RecordTooLarge
    | QueueFull
    | QueueEmpty
    | SequenceExhausted
    | InvalidIndex
    | InvalidRecord
    | CrcMismatch
    | InvalidArgument
    | CounterExhausted // a generation or an epoch would leave 32 bits

  /** NoOp also counts as success. */
  datatype Status = Ok | NoOp | Failed(code: Code)

  /** A write failed, no manifest slot is usable, or a counter is exhausted. */
  predicate Stalled(st: Status) {
    st == Failed(WriteFailed) || st == Failed(DataCorrupt) || st == Failed(CounterExhausted)
  }

  /** A failure for any other reason than a full store. */
  predicate Hard(st: Status) {
    st.Failed? && st.code != QueueFull
  }

  /** What a run of compaction steps did. */
  datatype CompactResult = CompactResult(
    status: Status,
    stepsRun: nat,
    compactions: nat,
    noOps: nat,
    inputSegments: nat,
    outputSegments: nat,
    moreWorkLikely: bool)

  /** Why no new tail could be started although no call failed. */
  ghost predicate Excused(d: Files, r: Ram, st: Status) {
    if !RangeRoom(r) then st == Failed(RangeLimitExceeded)
    else !Headroom(d, r) && (st == Failed(CounterExhausted) || (Inactive(d).None? && st == Failed(DataCorrupt)))
  }

  /** The record is too large for the store, or for a segment of its own. */
  predicate TooLarge(cfg: Config, record: seq<byte>) {
    |record| > cfg.limit || SEGMENT_HEADER_BYTES + ENQUEUE_OVERHEAD_BYTES + |record| > cfg.maxSegmentBytes
  }

  /** A record within the record limit is too large exactly when a segment that holds nothing but its event would be. */
  lemma TooLargeExact(cfg: Config, record: seq<byte>, sequence: u32, gen: u32, startSeq: u32)
    requires |record| <= cfg.limit && sequence < 0xFFFF_FFFF
    ensures TooLarge(cfg, record) <==>
              |SegmentHeader(gen, startSeq) + Codec.Encode(Enqueue(sequence, record))| > cfg.maxSegmentBytes
    ensures TooLarge(cfg, record) <==>
              |SegmentHeader(gen, startSeq) + Codec.Encode(Rewrite(sequence, record))| > cfg.maxSegmentBytes
  {
  }

  /** Everything a store's next steps depend on. */
  datatype Snap = Snap(files: Files, faults: seq<bool>, trace: seq<Write>, ram: Ram, durable: bool, exact: bool)

  /** What compaction keeps between two moments, with the stretches it took: the queue, in this session always and for a remount
      exactly as long as every stretch is safe, at every crash point; a tidy end; the bound on segments; and without failing calls
      the exact byte counter. */
  ghost predicate Kept(cfg: Config, a: Snap, b: Snap, taken: seq<Stretch>) {
    && Items(b.files, b.ram.records) == Items(a.files, a.ram.records)
    && AllGenuine(taken)
    && a.trace <= b.trace
    && (a.ram.tailGen != 0 ==> b.ram.tailGen != 0)
    && (b.durable ==>
          && a.durable && AllSafe(taken, cfg.limit)
          && Recoverable(a.trace, b.trace, cfg.limit, Items(a.files, a.ram.records), Items(a.files, a.ram.records)))
    && (Tidy(a.files, a.ram) ==> Tidy(b.files, b.ram) && b.durable == (a.durable && AllSafe(taken, cfg.limit)))
    && (true !in a.faults ==> true !in b.faults && (Tidy(a.files, a.ram) ==> b.exact == a.exact))
    && (SmallStore(a.files, a.trace, SegmentBound(cfg)) && AllFitting(cfg, Items(a.files, a.ram.records)) ==>
          SmallStore(b.files, b.trace, SegmentBound(cfg)))
  }

  /** The segments of all stretches taken. */
  ghost function InputCount(taken: seq<Stretch>): int {
    if taken == [] then 0
    else InputCount(taken[..|taken| - 1]) + (taken[|taken| - 1].input.endGen - taken[|taken| - 1].input.startGen + 1)
  }

  lemma InputCountMore(taken: seq<Stretch>, step: seq<Stretch>)
    ensures step == [] ==> InputCount(taken + step) == InputCount(taken)
    ensures |step| == 1 ==> InputCount(taken + step) == InputCount(taken) + (step[0].input.endGen - step[0].input.startGen + 1)
  {
    if step == [] {
      assert taken + step == taken;
    } else if |step| == 1 {
      assert (taken + step)[..|taken|] == taken;
    }
  }

  /** No file is left of the generations of a range. */
  ghost predicate Gone(d: Files, input: Range) {
    forall g: u32 | InRange(g, input) :: Segment(g) !in d
  }

  /** A segment file that is not listed. */
  ghost predicate Dangling(d: Files, gens: seq<u32>, g: u32) {
    g !in gens && Segment(g) in d
  }

  /** The store is full for an event of n bytes: it does not fit, and nothing is left to compact. */
  ghost predicate Full(cfg: Config, r: Ram, n: nat) {
    !Fits(cfg, r, n) && NothingLeft(cfg, r, false)
  }

  /** What every operation keeps between two moments, with the stretches its compactions took, whether or not it succeeds. */
  ghost predicate Held(cfg: Config, a: Snap, b: Snap, taken: seq<Stretch>, st: Status) {
    && AllGenuine(taken)
    && a.trace <= b.trace
    && (a.ram.tailGen != 0 ==> b.ram.tailGen != 0)
    && (b.durable ==> a.durable && AllSafe(taken, cfg.limit))
    && (Tidy(a.files, a.ram) ==> Tidy(b.files, b.ram))
    && (Tidy(a.files, a.ram) && (st.Ok? || a.ram.tailGen != 0) ==> b.durable == (a.durable && AllSafe(taken, cfg.limit)))
    && (Inactive(a.files).Some? ==> Inactive(b.files).Some?)
    && (true !in a.faults ==>
          true !in b.faults && (Inactive(a.files).Some? && Tidy(a.files, a.ram) ==> b.exact == a.exact))
    && (SmallStore(a.files, a.trace, SegmentBound(cfg)) && AllFitting(cfg, Items(a.files, a.ram.records)) ==>
          SmallStore(b.files, b.trace, SegmentBound(cfg)) && AllFitting(cfg, Items(b.files, b.ram.records)))
  }

  /** A crash anywhere between two moments of a tidy session that is durable at the end finds the queue of one or the other. */
  ghost predicate Crashable(cfg: Config, a: Snap, b: Snap) {
    b.durable && Tidy(a.files, a.ram) && a.ram.tailGen != 0 ==>
      Recoverable(a.trace, b.trace, cfg.limit, Items(a.files, a.ram.records), Items(b.files, b.ram.records))
  }

  lemma HeldNone(cfg: Config, a: Snap, st: Status)
    ensures Held(cfg, a, a, [], st) && Crashable(cfg, a, a)
  {
    hide Items, SmallStore, AllFitting, Tidy, Inactive;
    StretchesNone(cfg.limit);
    RecoverableNone(a.trace, cfg.limit, Items(a.files, a.ram.records), Items(a.files, a.ram.records));
  }

  /** Compaction alone. */
  lemma KeptHeld(cfg: Config, a: Snap, b: Snap, taken: seq<Stretch>, st: Status)
    requires Kept(cfg, a, b, taken) && (Inactive(a.files).Some? ==> Inactive(b.files).Some?)
    ensures Held(cfg, a, b, taken, st) && Crashable(cfg, a, b)
  {
    hide Items, SmallStore, AllFitting, Tidy, Recoverable, AllSafe, AllGenuine, Inactive;
  }

  lemma HeldJoin(cfg: Config, a: Snap, b: Snap, c: Snap, s: seq<Stretch>, t: seq<Stretch>, st: Status, st': Status)
    requires Held(cfg, a, b, s, st) && Held(cfg, b, c, t, st') && (st.Ok? || a.ram.tailGen != 0)
    ensures Held(cfg, a, c, s + t, st')
  {
    hide Items, SmallStore, AllFitting, Tidy, AllSafe, AllGenuine, Inactive;
    StretchesJoin(s, t, cfg.limit);
  }

  /** Compaction, and then an operation. */
  lemma KeptThenHeld(cfg: Config, a: Snap, b: Snap, c: Snap, s: seq<Stretch>, t: seq<Stretch>, st: Status)
    requires Kept(cfg, a, b, s) && (Inactive(a.files).Some? ==> Inactive(b.files).Some?)
    requires Held(cfg, b, c, t, st) && Crashable(cfg, b, c)
    requires a.ram.tailGen == 0 ==> b.ram.tailGen == 0
    ensures Held(cfg, a, c, s + t, st) && Crashable(cfg, a, c)
  {
    hide Items, SmallStore, AllFitting, Tidy, Recoverable, AllSafe, AllGenuine, Inactive;
    StretchesJoin(s, t, cfg.limit);
    if c.durable && Tidy(a.files, a.ram) && a.ram.tailGen != 0 {
      RecoverableJoin(a.trace, b.trace, c.trace, cfg.limit, Items(a.files, a.ram.records), Items(c.files, c.ram.records));
    }
  }

  /** An operation that leaves the queue as it is, and then one that does not. */
  lemma StillThenHeld(cfg: Config, a: Snap, b: Snap, c: Snap, st: Status)
    requires Held(cfg, a, b, [], Ok) && Crashable(cfg, a, b) && Items(b.files, b.ram.records) == Items(a.files, a.ram.records)
    requires Held(cfg, b, c, [], st) && Crashable(cfg, b, c)
    ensures Held(cfg, a, c, [], st) && Crashable(cfg, a, c)
  {
    hide Items, SmallStore, AllFitting, Tidy, Recoverable, Inactive;
    StretchesNone(cfg.limit);
    if c.durable && Tidy(a.files, a.ram) && a.ram.tailGen != 0 {
      RecoverableJoin(a.trace, b.trace, c.trace, cfg.limit, Items(a.files, a.ram.records), Items(c.files, c.ram.records));
    }
  }

  /** The same where the queue loses its first n items one by one on the way: a crash finds it between two of these states. */
  ghost predicate Dropping(cfg: Config, a: Snap, b: Snap, n: nat) {
    b.durable && Tidy(a.files, a.ram) && a.ram.tailGen != 0 ==>
      Staged(a.trace, b.trace, cfg.limit, Items(a.files, a.ram.records), n, Items(b.files, b.ram.records))
  }

  lemma CrashDropping(cfg: Config, a: Snap, b: Snap)
    requires Crashable(cfg, a, b)
    ensures Dropping(cfg, a, b, 0)
  {
    hide Items, Tidy, Recoverable, Staged;
    RecoverableStaged(a.trace, b.trace, cfg.limit, Items(a.files, a.ram.records), Items(b.files, b.ram.records));
  }

  /** A POP is the loss of one item. */
  lemma PopDropping(cfg: Config, a: Snap, b: Snap)
    requires Crashable(cfg, a, b)
    requires Items(a.files, a.ram.records) != [] && Items(b.files, b.ram.records) == Items(a.files, a.ram.records)[1..]
    ensures Dropping(cfg, a, b, 1)
  {
    hide Items, Tidy, Recoverable, Staged;
    RecoverableDrop(a.trace, b.trace, cfg.limit, Items(a.files, a.ram.records));
  }

  /** Two operations in a row. */
  lemma DroppingJoin(cfg: Config, a: Snap, b: Snap, c: Snap, n: nat, m: nat, s: seq<Stretch>, t: seq<Stretch>, st: Status, st': Status)
    requires Held(cfg, a, b, s, st) && Dropping(cfg, a, b, n)
    requires n <= |Items(a.files, a.ram.records)| && Items(b.files, b.ram.records) == Items(a.files, a.ram.records)[n..]
    requires Held(cfg, b, c, t, st') && Dropping(cfg, b, c, m)
    ensures Dropping(cfg, a, c, n + m)
  {
    hide Items, SmallStore, AllFitting, Tidy, Staged, Inactive, AllSafe, AllGenuine;
    if c.durable && Tidy(a.files, a.ram) && a.ram.tailGen != 0 {
      StagedJoin(a.trace, b.trace, c.trace, cfg.limit, Items(a.files, a.ram.records), n, m, Items(c.files, c.ram.records));
    }
  }

  lemma KeptParts(cfg: Config, a: Snap, b: Snap, taken: seq<Stretch>)
    requires Kept(cfg, a, b, taken)
    ensures Items(b.files, b.ram.records) == Items(a.files, a.ram.records) && (a.ram.tailGen != 0 ==> b.ram.tailGen != 0)
    ensures true !in a.faults ==> true !in b.faults
  {
    hide Items, SmallStore, AllFitting, Tidy, Recoverable, AllSafe, AllGenuine;
  }

  lemma HeldParts(cfg: Config, a: Snap, b: Snap, taken: seq<Stretch>, st: Status)
    requires Held(cfg, a, b, taken, st)
    ensures (a.ram.tailGen != 0 ==> b.ram.tailGen != 0) && (Inactive(a.files).Some? ==> Inactive(b.files).Some?)
    ensures true !in a.faults ==> true !in b.faults
    ensures AllGenuine(taken) && a.trace <= b.trace
  {
    hide Items, SmallStore, AllFitting, Tidy, AllSafe, AllGenuine, Inactive;
  }

  lemma KeptNone(cfg: Config, a: Snap)
    ensures Kept(cfg, a, a, [])
  {
    hide Items, SmallStore, AllFitting, Tidy;
    StretchesNone(cfg.limit);
    RecoverableNone(a.trace, cfg.limit, Items(a.files, a.ram.records), Items(a.files, a.ram.records));
  }

  lemma KeptJoin(cfg: Config, a: Snap, b: Snap, c: Snap, s: seq<Stretch>, t: seq<Stretch>)
    requires Kept(cfg, a, b, s) && Kept(cfg, b, c, t)
    ensures Kept(cfg, a, c, s + t)
  {
    hide Items, SmallStore, AllFitting, Tidy, Recoverable, AllSafe, AllGenuine;
    StretchesJoin(s, t, cfg.limit);
    if c.durable {
      RecoverableJoin(a.trace, b.trace, c.trace, cfg.limit, Items(a.files, a.ram.records), Items(a.files, a.ram.records));
    }
  }

  class AppendLogStore {
    const cfg: Config
    const fs: FileSystem

    /** The fields of the store, kept as one record. */
    var ram: Ram

    /** A remount would find what this session sees. Lost when a compaction dropped an event that an earlier record
        still needed, or when the very first publish failed. */
    ghost var durable: bool
    /** The byte counter is exact. Lost when a publish failed after its segment file was written. */
    ghost var exact: bool

    constructor (cfg: Config, fs: FileSystem)
      ensures this.cfg == cfg && this.fs == fs && ram == UNMOUNTED && !durable && !exact
    {
      this.cfg, this.fs, ram := cfg, fs, UNMOUNTED;
      durable, exact := false, false;
    }

    ghost predicate Valid()
      reads this, fs
    {
      Sound(fs.files, ram, cfg.limit, durable, exact)
    }

    /** The queue as this session reads it. */
    ghost function Contents(): seq<Item>
      reads this, fs
    {
      Items(fs.files, ram.records)
    }

    /** publishManifest: write the slot that does not count, then take the manifest over into RAM. */
    method Publish(m: Manifest) returns (st: Status)
      requires SlotsOk(fs.files, ram) && Formed(m)
      modifies this, fs
      ensures durable == old(durable) && exact == old(exact)
      ensures st.Ok? ==>
        && old(Publishable(fs.files))
        && fs.files == old(PublishedFiles(fs.files, m))
        && ram == old(PublishedRam(fs.files, ram, m))
        && fs.trace == old(fs.trace) + [Write(old(fs.files), old(Op.WriteFile(Inactive(fs.files).value, Serialise(Next(fs.files, m)))))]
      ensures !st.Ok? ==> Stalled(st) && ram == old(ram) && fs.files == old(fs.files) && fs.trace == old(fs.trace)
      ensures old(fs.Faultless()) ==> fs.Faultless() && (st.Ok? <==> old(Publishable(fs.files)))
      ensures old(fs.Faultless()) && !st.Ok? ==> st == Failed(if old(SlotFree()) then CounterExhausted else DataCorrupt)
      ensures old(SmallFiles()) ==> SmallFiles()
    {
      hide Serialise, Parse, Formed, Winner, Inactive, ActiveOf, SlotsOk, SmallStore;
      FormedSize(m);
      InactiveName(fs.files);
      var writeSlot, winningEpoch := ChooseSlot();
      if writeSlot.None? { return Failed(DataCorrupt); }
      if (winningEpoch as int) + 1 >= 0x1_0000_0000 { return Failed(CounterExhausted); }
      var toWrite := m.(epoch := winningEpoch + 1);
      var data := SerialiseManifest(toWrite);
      var slot := writeSlot.value;
      var oldSize := if slot in fs.files then |fs.files[slot]| else 0;
      var ok := fs.WriteFile(slot, data);
      if !ok { return Failed(WriteFailed); }
      Adopt(toWrite, slot, |data|, oldSize);
      ActiveSame(m);
      ActiveSame(toWrite);
      return Ok;
    }

    /** The bookkeeping behind a manifest write: counters, slot cache, and the manifest's fields. */
    method Adopt(m: Manifest, slot: Name, size: nat, oldSize: nat)
      modifies this
      ensures durable == old(durable) && exact == old(exact)
      ensures ram == old(ram).(
        total := old(ram).total + size - oldSize,
        cachedSlot := Some(slot), cachedEpoch := m.epoch,
        slotA := if slot == SlotA then size else old(ram).slotA,
        slotB := if slot == SlotB then size else old(ram).slotB,
        ranges := m.ranges, gens := ActiveOf(m), nextGen := m.nextGeneration)
    {
      hide ActiveOf, Valid;
      ram := ram.(total := ram.total + size - oldSize);
      var gens := Expand(m);
      ram := ram.(ranges := m.ranges, gens := gens, nextGen := m.nextGeneration);
      ram := ram.(cachedSlot := Some(slot), cachedEpoch := m.epoch);
      if slot == SlotA {
        ram := ram.(slotA := size);
      } else if slot == SlotB {
        ram := ram.(slotB := size);
      }
    }

    /** The slot to write and the epoch to exceed: from the cache, or by probing both slots. */
    method ChooseSlot() returns (writeSlot: Option<Name>, winningEpoch: u32)
      requires SlotsOk(fs.files, ram)
      ensures writeSlot == Inactive(fs.files) && winningEpoch == WinningEpoch(fs.files)
    {
      hide Parse, ReadSlot;
      InactiveIsOther(fs.files);
      if ram.cachedSlot.Some? {
        return Some(Slots.Other(ram.cachedSlot.value)), ram.cachedEpoch;
      }
      var a := ProbeSlot(SlotA);
      var b := ProbeSlot(SlotB);
      var winning := ChooseWinning(a, b);
      return ChooseInactive(SlotA in fs.files, a, SlotB in fs.files, b), if winning.Some? then winning.value.epoch else 0;
    }

    /** A manifest published before can be followed by another. */
    ghost predicate Initialised()
      reads fs
    {
      Winner(fs.files).Some?
    }

    /** There is a slot for the next manifest: not so only when slot files are there but none of them is valid. */
    ghost predicate SlotFree()
      reads fs
    {
      Inactive(fs.files).Some?
    }

    /** Nothing is left over behind the tail's last event. */
    ghost predicate Tidied()
      reads this, fs
    {
      Tidy(fs.files, ram)
    }

    /** No segment file, now or at any point of the writes so far, is larger than the store's own bound. */
    ghost predicate SmallFiles()
      reads fs
    {
      fs.Small(SegmentBound(cfg))
    }

    /** The same, and every record has room in a segment of its own: compaction then keeps the bound. */
    ghost predicate Small()
      reads this, fs
    {
      SmallFiles() && AllFitting(cfg, Contents())
    }

    /** writeSegmentFileTracked for a file that must be new: whatever it may overwrite is not subtracted. */
    method WriteSegment(g: u32, data: seq<byte>) returns (ok: bool)
      modifies this, fs
      ensures durable == old(durable) && exact == old(exact)
      ensures ok ==> ram == old(StrayRam(ram, g, |data|)) && fs.files == old(fs.files)[Segment(g) := data]
                     && fs.trace == old(fs.trace) + [Write(old(fs.files), Op.WriteFile(Segment(g), data))]
      ensures !ok ==> ram == old(ram) && fs.files == old(fs.files) && fs.trace == old(fs.trace)
      ensures old(fs.Faultless()) ==> fs.Faultless() && ok
      ensures old(SmallFiles()) && |data| <= SegmentBound(cfg) ==> SmallFiles()
    {
      hide Valid;
      ok := fs.WriteFile(Segment(g), data);
      if ok {
        ram := ram.(total := ram.total + |data|, sealedBytes := ram.sealedBytes[g := |data|]);
      }
    }

    /** createSegment for the next generation: an empty segment that nothing refers to yet. */
    method CreateSegment(startSeq: u32) returns (st: Status)
      requires Valid()
      requires ram.tailGen != 0 ==> ram.tailGen in ram.sealedBytes && ram.sealedBytes[ram.tailGen] == ram.tailBytes
      modifies this, fs
      ensures durable == old(durable) && exact == old(exact)
      ensures st.Ok? ==>
        && (ram.nextGen as int) + 1 < 0x1_0000_0000 && WinningEpoch(old(fs.files)) + 1 < 0x1_0000_0000
        && fs.files == CreatedFiles(old(fs.files), old(ram), startSeq) && ram == CreatedRam(old(ram))
        && fs.trace == old(fs.trace) + [Write(old(fs.files), Op.WriteFile(Segment(ram.nextGen), SegmentHeader(ram.nextGen, startSeq)))]
      ensures !st.Ok? ==> Stalled(st) && ram == old(ram) && fs.files == old(fs.files) && fs.trace == old(fs.trace)
      ensures old(fs.Faultless()) ==>
        fs.Faultless()
        && if (old(ram).nextGen as int) + 1 < 0x1_0000_0000 && WinningEpoch(old(fs.files)) + 1 < 0x1_0000_0000 then st.Ok?
           else st == Failed(CounterExhausted)
      ensures old(SmallFiles()) ==> SmallFiles()
    {
      hide FileSystem.Small, Sound, Items, SegmentHeader, WinningEpoch, Inactive, SlotsOk;
      CreatedOnce(ram);
      SoundParts(fs.files, ram, cfg.limit, durable, exact);
      var _, epoch := ChooseSlot();
      if (ram.nextGen as int) + 1 >= 0x1_0000_0000 || (epoch as int) + 1 >= 0x1_0000_0000 {
        return Failed(CounterExhausted);
      }
      var ok := WriteSegment(ram.nextGen, SegmentHeader(ram.nextGen, startSeq));
      st := if ok then Ok else Failed(WriteFailed);
    }

    /** Publish the manifest that names the segment just created as the tail. d, r and t are what was before it. */
    method NameTail(newRanges: seq<Range>, startSeq: u32, ghost d: Files, ghost r: Ram, ghost t: seq<Write>) returns (st: Status)
      requires Sound(d, r, cfg.limit, durable, exact) && newRanges == Sealed(r.ranges, r.tailGen) && RangeRoom(r)
      requires (r.nextGen as int) + 1 < 0x1_0000_0000 && WinningEpoch(d) + 1 < 0x1_0000_0000
      requires fs.files == CreatedFiles(d, r, startSeq) && ram == CreatedRam(r)
      requires fs.trace == t + [Write(d, Op.WriteFile(Segment(r.nextGen), SegmentHeader(r.nextGen, startSeq)))]
      modifies this, fs
      ensures Valid() && ram.records == r.records && Contents() == Items(d, r.records)
      ensures st.Ok? ==>
        && Headroom(d, r) && SlotsOk(d, r) && ram == NewTail(d, r, startSeq) && Tidied() && SlotFree()
        && durable == (old(durable) && Tidy(d, r)) && exact == (old(exact) && Tidy(d, r))
        && Agree(d, fs.files, r.gens)
      ensures durable && r.tailGen != 0 ==> Recoverable(t, fs.trace, cfg.limit, Items(d, r.records), Items(d, r.records))
      ensures t <= fs.trace
      ensures !st.Ok? ==> Stalled(st) && fs.files == old(fs.files) && ram == old(ram)
                          && durable == (old(durable) && r.tailGen != 0) && !exact
      ensures old(fs.Faultless()) ==>
        fs.Faultless() && if Headroom(d, r) then st.Ok? else Inactive(d).None? && st == Failed(DataCorrupt)
      ensures old(SmallFiles()) ==> SmallFiles()
    {
      hide FileSystem.Small, Sound, Items, Winner, Inactive, Sealed, SegmentHeader, Serialise, Formed, SlotsOk, CreatedRam,
        CreatedFiles, CrashSafe, Recoverable, WinningEpoch, PublishedFiles, PublishedRam, Agree, Tidy, NewTail, NewTailFiles,
        NewTailRam, Headroom, Publishable;
      CreatedSound(d, r, startSeq, cfg.limit, durable, exact);
      NewTailIs(d, r, startSeq);
      NewTailAgrees(d, r, startSeq);
      CreatedSame(d, r, startSeq);
      StartedFormed(d, r, cfg.limit, durable, exact);
      var g := ram.nextGen;
      ghost var d1, v := fs.files, Items(d, r.records);
      var m := Manifest(0, g + 1, newRanges, g);
      FormedSize(m);
      st := Publish(m);
      if st.Ok? {
        ram := ram.(tailGen := g, tailBytes := SEGMENT_HEADER_BYTES, affected := {});
        NewTailState(d, r, startSeq, cfg.limit, durable, exact);
        durable, exact := durable && Tidy(d, r), exact && Tidy(d, r);
        SoundParts(fs.files, ram, cfg.limit, durable, exact);
        NewTailNamed(d, r, startSeq);
        if durable && r.tailGen != 0 {
          RecoverableTwo(t, Write(d, Op.WriteFile(Segment(g), SegmentHeader(g, startSeq))),
                         Write(d1, Op.WriteFile(Inactive(d1).value, Serialise(Next(d1, m)))), cfg.limit, v, v);
        }
      } else {
        durable, exact := durable && r.tailGen != 0, false;
        if durable {
          RecoverableAdd(t, [Write(d, Op.WriteFile(Segment(g), SegmentHeader(g, startSeq)))], cfg.limit, v, v);
        }
      }
    }

    /** Write an empty segment and publish it as the tail, with the ranges given. */
    method StartTail(newRanges: seq<Range>, startSeq: u32) returns (st: Status)
      requires Valid()
      requires newRanges == Sealed(ram.ranges, ram.tailGen) && |newRanges| <= MANIFEST_MAX_RANGES
      requires ram.tailGen != 0 ==> ram.tailGen in ram.sealedBytes && ram.sealedBytes[ram.tailGen] == ram.tailBytes
      modifies this, fs
      ensures Valid() && ram.records == old(ram).records && Contents() == old(Contents())
      ensures st.Ok? ==> Headroom(old(fs.files), old(ram)) && ram == NewTail(old(fs.files), old(ram), startSeq) && Tidied()
      ensures !st.Ok? ==> Stalled(st) && (ram == old(ram) || ram == CreatedRam(old(ram))) && (old(Tidied()) ==> Tidied())
      ensures st.Ok? ==> durable == (old(durable) && old(Tidied()))
      ensures !st.Ok? ==> (durable ==> old(durable)) && (old(durable) && old(ram).tailGen != 0 ==> durable)
      ensures durable && old(ram).tailGen != 0 ==> Recoverable(old(fs.trace), fs.trace, cfg.limit, old(Contents()), old(Contents()))
      ensures Agree(old(fs.files), fs.files, old(ram).gens)
      ensures old(fs.trace) <= fs.trace
      ensures exact ==> old(exact)
      ensures old(SlotFree()) ==> SlotFree()
      ensures old(fs.Faultless()) ==>
        fs.Faultless() && if Headroom(old(fs.files), old(ram)) then st.Ok? else Excused(old(fs.files), old(ram), st)
      ensures old(fs.Faultless() && SlotFree() && Tidied()) ==> exact == old(exact)
      ensures old(SmallFiles()) ==> SmallFiles()
    {
      hide FileSystem.Small, Sound, Items, Winner, Inactive, Sealed, SegmentHeader, SlotsOk, CreatedRam, CreatedFiles, CrashSafe,
        Recoverable, WinningEpoch, Agree, Tidy, NewTail, Headroom, Publishable;
      ghost var d, r, t, v := fs.files, ram, fs.trace, Contents();
      CreatedSound(d, r, startSeq, cfg.limit, durable, exact);
      CreatedTidy(d, r, startSeq);
      CreatedSame(d, r, startSeq);
      NewTailIs(d, r, startSeq);
      NewTailAgrees(d, r, startSeq);
      RecoverableNone(t, cfg.limit, v, v);
      st := CreateSegment(startSeq);
      if st.Ok? {
        st := NameTail(newRanges, startSeq, d, r, t);
      }
    }

    /** rotateSegment: seal the tail and start a new one. */
    method Rotate() returns (st: Status)
      requires Valid() && ram.tailGen != 0
      modifies this, fs
      ensures Valid() && ram.records == old(ram).records && Contents() == old(Contents())
      ensures st.Ok? ==> durable == (old(durable) && old(Tidied())) && Tidied()
      ensures !st.Ok? ==> durable == old(durable) && (old(Tidied()) ==> Tidied())
      ensures durable ==> Recoverable(old(fs.trace), fs.trace, cfg.limit, old(Contents()), old(Contents()))
      ensures Agree(old(fs.files), fs.files, old(ram).gens)
      ensures st.Ok? ==> RangeRoom(old(ram)) && Headroom(old(fs.files), old(ram))
                         && ram == NewTail(old(fs.files), old(ram), BaseSequence(old(ram).records))
      ensures !st.Ok? ==> Hard(st) && ram.tailGen == old(ram).tailGen && ram.tailBytes == old(ram).tailBytes
      ensures !RangeRoom(old(ram)) <==> st == Failed(RangeLimitExceeded)
      ensures !RangeRoom(old(ram)) ==> ram == old(ram) && fs.files == old(fs.files)
      ensures old(fs.trace) <= fs.trace
      ensures exact ==> old(exact)
      ensures SlotFree()
      ensures old(fs.Faultless()) ==> fs.Faultless() && (old(Tidied()) ==> exact == old(exact))
      ensures old(fs.Faultless()) ==>
        if RangeRoom(old(ram)) && Headroom(old(fs.files), old(ram)) then st.Ok? else Excused(old(fs.files), old(ram), st)
      ensures old(SmallFiles()) ==> SmallFiles()
    {
      hide FileSystem.Small, Sound, Items, Winner, Inactive, NewTail, CreatedRam, Recoverable, Headroom, Agree, Sealed, Tidy,
        Publishable;
      ghost var r := ram;
      RoomIs(r);
      SoundAgrees(fs.files, r, cfg.limit, durable, exact);
      SoundParts(fs.files, r, cfg.limit, durable, exact);
      var newRanges := SealRanges();
      if |newRanges| > MANIFEST_MAX_RANGES {
        RecoverableNone(fs.trace, cfg.limit, Contents(), Contents());
        return Failed(RangeLimitExceeded);
      }
      NoteTail();
      var baseSeq := if ram.records == [] then 0 else LastSequence(ram.records) + 1;
      st := StartTail(newRanges, baseSeq);
    }

    /** Note the tail's size among the sealed segments. */
    method NoteTail()
      requires Valid() && ram.tailGen != 0
      modifies this`ram
      ensures Valid() && ram == old(ram).(sealedBytes := old(ram).sealedBytes[old(ram).tailGen := old(ram).tailBytes])
      ensures Contents() == old(Contents()) && Tidied() == old(Tidied()) && SlotFree()
      ensures Headroom(fs.files, ram) == Headroom(fs.files, old(ram)) && RangeRoom(ram) == RangeRoom(old(ram))
      ensures SlotsOk(fs.files, ram) && SlotsOk(fs.files, old(ram))
      ensures Headroom(fs.files, ram) && RangeRoom(ram) ==>
        NewTail(fs.files, ram, BaseSequence(ram.records)) == NewTail(fs.files, old(ram), BaseSequence(ram.records))
      ensures ram.records != [] ==> BaseSequence(ram.records) == LastSequence(ram.records) + 1
      ensures CreatedRam(ram).tailGen == ram.tailGen && CreatedRam(ram).tailBytes == ram.tailBytes
    {
      hide Sound, Items, Winner, Inactive, NewTail, CreatedRam, Headroom, Sealed, Tidy;
      ghost var r := ram;
      TailNoted(fs.files, r, cfg.limit, durable, exact);
      ram := ram.(sealedBytes := ram.sealedBytes[ram.tailGen := ram.tailBytes]);
      CreatedSame(fs.files, ram, 0);
      SoundParts(fs.files, r, cfg.limit, durable, exact);
      SoundParts(fs.files, ram, cfg.limit, durable, exact);
    }

    /** The ranges with the tail sealed behind them. */
    method SealRanges() returns (newRanges: seq<Range>)
      requires ram.tailGen != 0
      ensures newRanges == Sealed(ram.ranges, ram.tailGen)
    {
      newRanges := ram.ranges;
      if newRanges != [] && (newRanges[|newRanges| - 1].endGen as int) + 1 == ram.tailGen {
        newRanges := newRanges[|newRanges| - 1 := Range(newRanges[|newRanges| - 1].startGen, ram.tailGen)];
      } else {
        newRanges := newRanges + [Range(ram.tailGen, ram.tailGen)];
      }
      SealedForm(ram.ranges, ram.tailGen);
    }

    /** ensureActiveSegment: the first tail of a store. */
    method EnsureActive(baseSeq: u32) returns (st: Status)
      requires Valid()
      modifies this, fs
      ensures Valid() && ram.records == old(ram).records && Contents() == old(Contents())
      ensures old(ram).tailGen != 0 ==> st.Ok? && Now() == old(Now())
      ensures old(ram).tailGen == 0 && st.Ok? ==>
                RangeRoom(old(ram)) && Headroom(old(fs.files), old(ram)) && ram == NewTail(old(fs.files), old(ram), baseSeq)
                && durable == old(durable)
      ensures old(Tidied()) ==> Tidied()
      ensures !st.Ok? ==> Hard(st)
      ensures durable ==> old(durable)
      ensures old(fs.trace) <= fs.trace
      ensures exact ==> old(exact)
      ensures old(SlotFree()) ==> SlotFree()
      ensures old(fs.Faultless()) ==> fs.Faultless()
      ensures old(fs.Faultless()) && old(ram).tailGen == 0 ==>
        RangeRoom(old(ram)) && if Headroom(old(fs.files), old(ram)) then st.Ok? else Excused(old(fs.files), old(ram), st)
      ensures old(fs.Faultless() && SlotFree() && Tidied()) ==> exact == old(exact)
      ensures old(SmallFiles()) ==> SmallFiles()
    {
      hide FileSystem.Small, Sound, Items, Winner, Inactive, NewTail, CreatedRam, Recoverable, Headroom;
      SoundParts(fs.files, ram, cfg.limit, durable, exact);
      RangesBound(fs.files, ram);
      if ram.tailBytes == 0 {
        SealedNothing(ram.ranges);
        st := StartTail(ram.ranges, baseSeq);
      } else {
        st := Ok;
      }
    }

    /** Make room for an event of n bytes: rotate a full tail, or start the first one. */
    method PrepareTail(n: nat, baseSeq: u32) returns (st: Status)
      requires Valid()
      modifies this, fs
      ensures Valid() && Held(cfg, old(Now()), Now(), [], st)
      ensures Crashable(cfg, old(Now()), Now())
      ensures ram.records == old(ram).records && Contents() == old(Contents())
      ensures st.Ok? ==> Prepared(cfg, old(ram), ram, n) && Advances(cfg, old(ram), ram, n) && TailReady(cfg, old(ram), ram, n)
      ensures st.Ok? && SEGMENT_HEADER_BYTES + n <= SegmentBound(cfg) ==> ram.tailBytes + n <= SegmentBound(cfg)
      ensures st.Ok? ==> durable == (old(durable) && (Due(cfg, old(ram), n) ==> old(Tidied())))
      ensures !Due(cfg, old(ram), n) ==> st.Ok? && Now() == old(Now())
      ensures st.Ok? && Due(cfg, old(ram), n) ==> Tidied()
      ensures !st.Ok? ==> Hard(st)
      ensures old(fs.Faultless()) ==>
        fs.Faultless() && if Ready(cfg, old(fs.files), old(ram), n) then st.Ok? else Excused(old(fs.files), old(ram), st)
    {
      hide Sound, Items, Winner, Inactive, NewTail, CreatedRam, Headroom, AppendGrowth, Recoverable, RangeRoom, Advances, TailReady,
        SmallStore, SegmentBound, AllFitting;
      StretchesNone(cfg.limit);
      ghost var d, r := fs.files, ram;
      SoundParts(d, r, cfg.limit, durable, exact);
      RecoverableNone(fs.trace, cfg.limit, Contents(), Contents());
      if ram.tailBytes > SEGMENT_HEADER_BYTES && ram.tailBytes + n > cfg.maxSegmentBytes {
        st := Rotate();
      } else {
        KeptGrowth(cfg, r, n);
        AdvancesKept(cfg, r, n);
        TailReadyKept(cfg, r, n);
        st := EnsureActive(baseSeq);
      }
      if st.Ok? && (r.tailGen == 0 || MustRotate(cfg, r, n)) {
        ghost var startSeq := if r.tailGen == 0 then baseSeq else BaseSequence(r.records);
        NewTailGrowth(cfg, d, r, n, startSeq);
        AdvancesNew(cfg, d, r, n, startSeq);
        TailReadyNew(cfg, d, r, n, startSeq);
      }
      if st.Ok? && SEGMENT_HEADER_BYTES + n <= SegmentBound(cfg) {
        ReadyWithin(cfg, d, r, ram, n);
      }
    }

    /** Bring the index, the sizes and the dependencies up to date with an event written to the tail. */
    method IndexEvent(e: Event)
      requires Allowed(ram.records, e)
      modifies this`ram
      ensures ram == AppendedRam(old(ram), e)
    {
      hide FindRec;
      ghost var r := ram;
      var i := 0;
      if e.Rewrite? {
        i := IndexOf(e.sequence);
      }
      match e {
        case Enqueue(s, p) =>
          ram := ram.(records := ram.records + [Rec(s, ram.tailGen, ram.tailBytes + ENQUEUE_HEADER_BYTES, |p|)]);
        case Rewrite(s, p) =>
          ram := ram.(affected := ram.affected + {ram.records[i].gen});
          ram := ram.(records := ram.records[i := Rec(s, ram.tailGen, ram.tailBytes + ENQUEUE_HEADER_BYTES, |p|)]);
        case Pop(_) =>
          ram := ram.(affected := ram.affected + {ram.records[0].gen});
          ram := ram.(records := ram.records[1..]);
      }
      ram := ram.(tailBytes := ram.tailBytes + SizeOf(e), total := ram.total + SizeOf(e));
      assert r.affected + {} == r.affected;
    }

    /** Write at the end of the tail. */
    method WriteTail(data: seq<byte>) returns (ok: bool)
      requires Segment(ram.tailGen) in fs.files && ram.tailBytes <= |fs.files[Segment(ram.tailGen)]|
      modifies fs
      ensures ok ==>
        && fs.files == Done(old(fs.files), Op.WriteAt(Segment(ram.tailGen), ram.tailBytes, data))
        && fs.trace == old(fs.trace) + [Write(old(fs.files), Op.WriteAt(Segment(ram.tailGen), ram.tailBytes, data))]
      ensures !ok ==> fs.files == old(fs.files) && fs.trace == old(fs.trace)
      ensures old(fs.Faultless()) ==> fs.Faultless() && ok
      ensures old(SmallFiles()) && ram.tailBytes + |data| <= SegmentBound(cfg) ==> SmallFiles()
    {
      hide FileSystem.Small, SegmentBound, Valid;
      ok := fs.WriteAt(Segment(ram.tailGen), ram.tailBytes, data);
    }

    /** Write one event at the end of the tail and bring the index up to date. */
    method AppendEvent(e: Event) returns (st: Status)
      requires Valid() && ram.tailGen != 0 && Within(e, cfg.limit) && Allowed(ram.records, e)
      modifies this, fs
      ensures Valid()
      ensures st.Ok? ==> ram == AppendedRam(old(ram), e) && Contents() == EventItems(old(Contents()), old(ram).records, e)
      ensures st.Ok? ==> durable == (old(durable) && old(Quiet(fs.files, ram, SizeOf(e), cfg.limit))) && exact == (old(exact) && old(Tidied()))
      ensures !st.Ok? ==> st == Failed(WriteFailed) && ram == old(ram) && Contents() == old(Contents())
                          && durable == old(durable) && exact == old(exact)
      ensures old(Tidied()) ==> Tidied() && durable == old(durable) && exact == old(exact)
      ensures old(durable && Tidied()) ==> Recoverable(old(fs.trace), fs.trace, cfg.limit, old(Contents()), Contents())
      ensures old(fs.trace) <= fs.trace
      ensures SlotFree()
      ensures old(fs.Faultless()) ==> fs.Faultless() && st.Ok?
      ensures old(SmallFiles()) && old(ram).tailBytes + SizeOf(e) <= SegmentBound(cfg) ==> SmallFiles()
    {
      hide SmallFiles, SegmentBound, Sound, Items, Encode, EventItems, CrashSafe, Quiet, Tidy, Overlay, Winner, Inactive;
      ghost var d, r, t, v := fs.files, ram, fs.trace, Contents();
      AppendState(d, r, e, cfg.limit, durable, exact);
      SoundParts(d, r, cfg.limit, durable, exact);
      var data := Encode(e);
      RecoverableNone(t, cfg.limit, v, v);
      var ok := WriteTail(data);
      if !ok { return Failed(WriteFailed); }
      IndexEvent(e);
      DoneOver(d, Segment(r.tailGen), r.tailBytes, data);
      durable, exact := durable && Quiet(d, r, SizeOf(e), cfg.limit), exact && Tidy(d, r);
      SoundParts(fs.files, ram, cfg.limit, durable, exact);
      if durable && Tidy(d, r) {
        RecoverableAdd(t, [Write(d, Op.WriteAt(Segment(r.tailGen), r.tailBytes, data))], cfg.limit, v, Contents());
      }
      return Ok;
    }

    /** The place of a live sequence in the index. */
    method IndexOf(s: u32) returns (i: nat)
      ensures i == FindRec(ram.records, s)
    {
      i := 0;
      while i < |ram.records| && ram.records[i].sequence != s
        invariant 0 <= i <= |ram.records|
        invariant FindRec(ram.records, s) == i + FindRec(ram.records[i..], s)
      {
        i := i + 1;
      }
    }

    method ProbeSlot(slot: Name) returns (m: Option<Manifest>)
      ensures m == ReadSlot(fs.files, slot)
    {
      if slot in fs.files {
        m := ParseManifest(fs.files[slot]);
      } else {
        m := None;
      }
    }

    /** applyManifestToRam: the generations of every range in order, then the tail. */
    static method Expand(m: Manifest) returns (gens: seq<u32>)
      ensures gens == ActiveOf(m)
    {
      hide Gens, Flatten;
      gens := [];
      FlattenNothing();
      assert m.ranges[..0] == [];
      var i := 0;
      while i < |m.ranges|
        invariant 0 <= i <= |m.ranges|
        invariant gens == Flatten(m.ranges[..i])
      {
        var one := ExpandRange(m.ranges[i]);
        gens := gens + one;
        FlattenConcat(m.ranges[..i], [m.ranges[i]]);
        FlattenOne(m.ranges[i]);
        assert m.ranges[..i + 1] == m.ranges[..i] + [m.ranges[i]];
        i := i + 1;
      }
      assert m.ranges[..i] == m.ranges;
      if m.tailGeneration != 0 {
        gens := gens + [m.tailGeneration];
      }
    }

    static method ExpandRange(r: Range) returns (gens: seq<u32>)
      ensures gens == Gens(r)
    {
      gens := [];
      var g: int := r.startGen;
      while g <= r.endGen
        invariant r.startGen <= g && g - r.startGen <= |Gens(r)|
        invariant gens == Gens(r)[..g - r.startGen]
      {
        gens := gens + [g];
        g := g + 1;
      }
    }

    // Compaction.

    /** findParentRangeIdx. */
    method FindParent(startGen: u32, endGen: u32) returns (i: nat)
      ensures i == if startGen > endGen then |ram.ranges| else ParentIndex(ram.ranges, startGen, endGen)
    {
      if startGen > endGen { return |ram.ranges|; }
      i := 0;
      while i < |ram.ranges|
        invariant 0 <= i <= |ram.ranges|
        invariant ParentIndex(ram.ranges, startGen, endGen) == i + ParentIndex(ram.ranges[i..], startGen, endGen)
      {
        var r := ram.ranges[i];
        if r.startGen <= startGen && endGen <= r.endGen { return i; }
        assert ram.ranges[i..][1..] == ram.ranges[i + 1..];
        i := i + 1;
      }
      assert ram.ranges[i..] == [];
    }

    /** Whether a live record is stored in these generations. */
    method AnyLive(input: Range) returns (has: bool)
      ensures has == HasLive(ram.records, input)
    {
      var i := 0;
      while i < |ram.records|
        invariant 0 <= i <= |ram.records|
        invariant forall k | 0 <= k < i :: !InRange(ram.records[k].gen, input)
      {
        if input.startGen <= ram.records[i].gen <= input.endGen { return true; }
        i := i + 1;
      }
      has := false;
    }

    /** collectLiveRecords: the payloads of the input, read segment by segment, then sorted by sequence. */
    method CollectLive(input: Range) returns (st: Status, out: seq<Item>)
      requires RecordsOk(fs.files, ram) && input.startGen <= input.endGen
      ensures st.Ok? && out == Items(fs.files, LiveRecs(ram.records, input))
    {
      hide Items, ItemOf, Stored, RecordsOk, Grouped;
      var byGen := GroupByGen(ram.records, input);
      out := [];
      ghost var found: seq<Rec> := [];
      StoredNone(ram.records, input.startGen);
      ItemsNone(fs.files);
      var g: int := input.startGen;
      while g <= input.endGen
        invariant input.startGen <= g <= input.endGen + 1
        invariant multiset(found) == multiset(Stored(ram.records, input.startGen, g))
        invariant out == Items(fs.files, found)
      {
        GroupedAt(byGen, ram.records, input, g);
        ghost var here := Stored(ram.records, g, g + 1);
        if g in byGen {
          var items;
          st, items := ReadSegmentRecords(g, byGen[g]);
          if !st.Ok? { assert false; return; }
          out := out + items;
          ItemsSplit(fs.files, found, here);
        } else {
          assert found + here == found;
        }
        StoredSplit(ram.records, input.startGen, g, g + 1);
        BagJoin(found, Stored(ram.records, input.startGen, g), here);
        found := found + here;
        g := g + 1;
      }
      StoredIsLive(ram.records, input);
      var collected := out;
      out := SortBy(collected, SequenceOf);
      RecordsInOrder(fs.files, ram);
      CollectedSorted(fs.files, ram.records, input, found, out);
      st := Ok;
    }

    /** The payloads of some records of one segment. A record that reaches past its file is an error, which never comes. */
    method ReadSegmentRecords(g: u32, recs: seq<Rec>) returns (st: Status, items: seq<Item>)
      requires RecordsOk(fs.files, ram) && forall x | x in recs :: x in ram.records && x.gen == g
      ensures st.Ok? && items == Items(fs.files, recs)
    {
      hide AllApart, InOrder;
      items := [];
      var i := 0;
      while i < |recs|
        invariant 0 <= i <= |recs|
        invariant items == Items(fs.files, recs[..i])
      {
        RecordLocated(fs.files, ram, recs[i]);
        var b := fs.files[Segment(g)];
        if recs[i].offset + recs[i].length > |b| { assert false; return Failed(DataCorrupt), items; }
        items := items + [Item(recs[i].sequence, b[recs[i].offset..recs[i].offset + recs[i].length])];
        assert recs[..i + 1] == recs[..i] + [recs[i]];
        ItemsSplit(fs.files, recs[..i], [recs[i]]);
        i := i + 1;
      }
      assert recs[..i] == recs;
      st := Ok;
    }

    /** Write the output segments. Nothing refers to them yet. */
    method WriteOutputs(live: seq<Item>, segs: seq<OutputSeg>) returns (st: Status, reps: seq<Rec>)
      requires Valid() && ram.tailGen != 0
      requires SegsOk(segs, live, ram.nextGen, cfg.limit)
      modifies this, fs
      ensures Valid() && durable == old(durable) && !exact && Contents() == old(Contents())
      ensures ram == old(ram).(total := ram.total, sealedBytes := ram.sealedBytes)
      ensures st.Ok? || st == Failed(WriteFailed)
      ensures st.Ok? ==>
        && Written(old(fs.files), old(ram), fs.files, ram, live, segs, |segs|, cfg.limit, durable, old(exact))
        && EnqueuesOnly(LogOf(fs.files, NewGens(ram.nextGen, |segs|), cfg.limit))
        && reps == Reps(LogOf(fs.files, NewGens(ram.nextGen, |segs|), cfg.limit))
      ensures durable ==> Recoverable(old(fs.trace), fs.trace, cfg.limit, old(Contents()), old(Contents()))
      ensures Tidied() == old(Tidied())
      ensures old(fs.trace) <= fs.trace
      ensures old(fs.Faultless()) ==> fs.Faultless() && st.Ok?
      ensures old(SmallFiles()) && (forall k | 0 <= k < |segs| :: SegmentSize(PayloadSizes(live), segs[k].indices) <= SegmentBound(cfg)) ==>
        SmallFiles()
    {
      hide FileSystem.Small, SegmentSize, PayloadSizes, SegmentBound, Tidy, Sound, Items, Written, NewGens, LogOf, CrashSafe,
        Recoverable, Reps, EnqueuesOnly, SegmentBytes, Pick, AllWithin, InBounds, EventsOf;
      ghost var d0, r0, t0, v, e := fs.files, ram, fs.trace, Contents(), exact;
      WrittenNone(d0, r0, live, segs, cfg.limit, durable, e);
      RecoverableNone(t0, cfg.limit, v, v);
      reps := [];
      exact := false;
      WrittenSound(d0, r0, d0, r0, live, segs, 0, cfg.limit, durable, e);
      var k := 0;
      while k < |segs|
        invariant 0 <= k <= |segs|
        invariant durable == old(durable) && !exact
        invariant Valid() && Contents() == v && ram == r0.(total := ram.total, sealedBytes := ram.sealedBytes)
        invariant Written(d0, r0, fs.files, ram, live, segs, k, cfg.limit, durable, e)
        invariant Tidied() == old(Tidied())
        invariant EnqueuesOnly(LogOf(fs.files, NewGens(r0.nextGen, k), cfg.limit))
        invariant reps == Reps(LogOf(fs.files, NewGens(r0.nextGen, k), cfg.limit))
        invariant durable ==> Recoverable(t0, fs.trace, cfg.limit, v, v)
        invariant t0 <= fs.trace
        invariant old(SmallFiles()) && (forall j | 0 <= j < |segs| :: SegmentSize(PayloadSizes(live), segs[j].indices) <= SegmentBound(cfg)) ==>
          SmallFiles()
        invariant old(fs.Faultless()) ==> fs.Faultless()
      {
        var seg := segs[k];
        ghost var d, r, t := fs.files, ram, fs.trace;
        WrittenSound(d0, r0, d, r, live, segs, k, cfg.limit, durable, e);
        WrittenStep(d0, r0, d, r, live, segs, k, cfg.limit, durable, e, live[seg.indices[0]].sequence);
        var segData, segReps := BuildSegment(live, seg, cfg.limit);
        WrittenSize(seg.gen, live[seg.indices[0]].sequence, live, seg.indices, cfg.limit);
        var ok := WriteSegment(seg.gen, segData);
        if !ok { return Failed(WriteFailed), reps; }
        WrittenSound(d0, r0, fs.files, ram, live, segs, k + 1, cfg.limit, durable, e);
        AddedReps(LogOf(d, NewGens(r0.nextGen, k), cfg.limit), seg.gen, Pick(live, seg.indices), cfg.limit, segReps);
        reps := reps + segReps;
        if durable {
          RecoverableAdd(t, [Write(d, Op.WriteFile(Segment(seg.gen), segData))], cfg.limit, v, v);
          RecoverableJoin(t0, t, fs.trace, cfg.limit, v, v);
        }
        k := k + 1;
      }
      st := Ok;
    }

    /** The ranges with the input replaced: erase the parent, then insert what remains of it and the output. */
    static method SpliceRanges(ranges: seq<Range>, i: nat, input: Range, out: seq<Range>) returns (r: seq<Range>, outputIdx: nat)
      requires i < |ranges| && ranges[i].startGen <= input.startGen <= input.endGen <= ranges[i].endGen && |out| <= 1
      ensures r == Spliced(ranges, i, input, out) && outputIdx == i + |LeftOf(ranges[i], input)|
      ensures out != [] ==> outputIdx < |r|
    {
      hide InsertRange;
      var parent := ranges[i];
      ghost var head, rest := ranges[..i], ranges[i + 1..];
      r := ranges[..i] + ranges[i + 1..];
      var insertAt := i;
      if parent.startGen < input.startGen {
        var left := Range(parent.startGen, input.startGen - 1);
        InsertedAfter(head, rest, left);
        r := InsertRange(r, insertAt, left);
        insertAt := insertAt + 1;
        head := head + [left];
      }
      outputIdx := insertAt;
      if out != [] {
        InsertedAfter(head, rest, out[0]);
        r := InsertRange(r, insertAt, out[0]);
        insertAt := insertAt + 1;
        head := head + [out[0]];
      }
      assert head == ranges[..i] + LeftOf(parent, input) + out;
      if input.endGen < parent.endGen {
        var right := Range(input.endGen + 1, parent.endGen);
        InsertedAfter(head, rest, right);
        r := InsertRange(r, insertAt, right);
        head := head + [right];
      }
      assert head == ranges[..i] + LeftOf(parent, input) + out + RightOf(parent, input);
    }

    /** Join the output range with its right and its left neighbour where they are adjacent. */
    static method MergeAround(ranges: seq<Range>, outputIdx: nat) returns (r: seq<Range>)
      requires outputIdx < |ranges|
      ensures r == Merged(ranges, outputIdx)
    {
      r := ranges;
      if outputIdx + 1 < |r| && (r[outputIdx].endGen as int) + 1 == r[outputIdx + 1].startGen {
        r := r[outputIdx := Range(r[outputIdx].startGen, r[outputIdx + 1].endGen)];
        r := r[..outputIdx + 1] + r[outputIdx + 2..];
      }
      assert r == JoinAt(ranges, outputIdx);
      if outputIdx > 0 && (r[outputIdx - 1].endGen as int) + 1 == r[outputIdx].startGen {
        ghost var was := r;
        r := r[outputIdx - 1 := Range(r[outputIdx - 1].startGen, r[outputIdx].endGen)];
        r := r[..outputIdx] + r[outputIdx + 1..];
        assert r == JoinAt(was, outputIdx - 1);
      }
    }

    /** cleanupInputSegments: remove the retired segment files. While this runs, the state to come has the records and
        dependencies given. */
    method Cleanup(input: Range, ghost records': seq<Rec>, ghost affected': set<u32>)
      requires ram.tailGen != 0 && input.startGen <= input.endGen
      requires Sound(fs.files, ram.(records := records', affected := affected'), cfg.limit, durable, exact)
      requires forall g: u32 | InRange(g, input) ::
                 && g !in ram.gens && g in ram.sealedBytes && ram.sealedBytes[g] <= |Content(fs.files, g)|
                 && (exact ==> ram.sealedBytes[g] == |Content(fs.files, g)|)
      modifies this, fs
      ensures durable == old(durable) && exact == old(exact)
      ensures Sound(fs.files, ram.(records := records', affected := affected'), cfg.limit, durable, exact)
      ensures ram == old(ram).(total := ram.total, sealedBytes := ram.sealedBytes)
      ensures forall g: u32 | !InRange(g, input) :: KeptSize(old(ram).sealedBytes, ram.sealedBytes, g)
      ensures Items(fs.files, records') == Items(old(fs.files), records')
      ensures durable ==> Recoverable(old(fs.trace), fs.trace, cfg.limit, Items(fs.files, records'), Items(fs.files, records'))
      ensures old(Tidied()) ==> Tidied()
      ensures old(fs.trace) <= fs.trace
      ensures old(fs.Faultless()) ==> fs.Faultless() && Gone(fs.files, input)
      ensures old(SmallFiles()) ==> SmallFiles()
    {
      hide FileSystem.Small, Sound, Items, Recoverable, CrashSafe, Content;
      ghost var t0, v := fs.trace, Items(fs.files, records');
      RecoverableNone(t0, cfg.limit, v, v);
      var g: int := input.startGen;
      while g <= input.endGen
        invariant input.startGen <= g <= input.endGen + 1
        invariant durable == old(durable) && exact == old(exact)
        invariant ram == old(ram).(total := ram.total, sealedBytes := ram.sealedBytes)
        invariant Sound(fs.files, ram.(records := records', affected := affected'), cfg.limit, durable, exact)
        invariant forall h: u32 | InRange(h, input) && g <= h ::
          h in ram.sealedBytes && ram.sealedBytes[h] <= |Content(fs.files, h)| && (exact ==> ram.sealedBytes[h] == |Content(fs.files, h)|)
        invariant old(Tidied()) ==> Tidied()
        invariant forall h: u32 | !InRange(h, input) :: KeptSize(old(ram).sealedBytes, ram.sealedBytes, h)
        invariant Items(fs.files, records') == v
        invariant durable ==> Recoverable(t0, fs.trace, cfg.limit, v, v)
        invariant t0 <= fs.trace
        invariant old(SmallFiles()) ==> SmallFiles()
        invariant old(fs.Faultless()) ==> fs.Faultless() && forall h: u32 | InRange(h, input) && h < g :: Segment(h) !in fs.files
      {
        ghost var t := fs.trace;
        RemoveRetired(g, records', affected');
        if durable { RecoverableJoin(t0, t, fs.trace, cfg.limit, v, v); }
        g := g + 1;
      }
    }

    /** Remove one retired segment file, where that call does not fail. */
    method RemoveRetired(g: u32, ghost records': seq<Rec>, ghost affected': set<u32>)
      requires ram.tailGen != 0 && Sound(fs.files, ram.(records := records', affected := affected'), cfg.limit, durable, exact)
      requires g !in ram.gens && g in ram.sealedBytes && ram.sealedBytes[g] <= |Content(fs.files, g)|
      requires exact ==> ram.sealedBytes[g] == |Content(fs.files, g)|
      modifies this, fs
      ensures durable == old(durable) && exact == old(exact)
      ensures Sound(fs.files, ram.(records := records', affected := affected'), cfg.limit, durable, exact)
      ensures ram == old(ram).(total := ram.total, sealedBytes := ram.sealedBytes)
      ensures forall h: u32 | h != g :: KeptSize(old(ram).sealedBytes, ram.sealedBytes, h) && Content(fs.files, h) == old(Content(fs.files, h))
      ensures Items(fs.files, records') == Items(old(fs.files), records')
      ensures durable ==> Recoverable(old(fs.trace), fs.trace, cfg.limit, Items(fs.files, records'), Items(fs.files, records'))
      ensures old(Tidied()) ==> Tidied()
      ensures fs.files == old(fs.files) || fs.files == old(fs.files) - {Segment(g)}
      ensures old(fs.trace) <= fs.trace
      ensures old(fs.Faultless()) ==> fs.Faultless() && Segment(g) !in fs.files
      ensures old(SmallFiles()) ==> SmallFiles()
    {
      hide FileSystem.Small, Sound, Items, Recoverable, CrashSafe, Content;
      ghost var d, t, v := fs.files, fs.trace, Items(fs.files, records');
      RecoverableNone(t, cfg.limit, v, v);
      RemovedState(d, ram.(records := records', affected := affected'), g, cfg.limit, durable, exact);
      ContentWithout(d, g);
      var size := if g in ram.sealedBytes then ram.sealedBytes[g] else 0;
      var ok := fs.Remove(Segment(g));
      if ok {
        ram := ram.(total := ram.total - size, sealedBytes := ram.sealedBytes - {g});
        if durable {
          RecoverableAdd(t, [Write(d, Op.Remove(Segment(g)))], cfg.limit, v, v);
        }
      }
    }

    /** The retired generations leave the tail's dependencies. */
    method EraseAffected(input: Range)
      requires input.startGen <= input.endGen
      modifies this
      ensures durable == old(durable) && exact == old(exact)
      ensures ram == old(ram).(affected := old(ram).affected - InputSet(input))
    {
      InputSetRange(input);
      var g: int := input.startGen;
      while g <= input.endGen
        invariant input.startGen <= g <= input.endGen + 1
        invariant ram == old(ram).(affected := ram.affected)
        invariant forall h: u32 :: h in ram.affected <==> h in old(ram).affected && !(input.startGen <= h < g)
        invariant durable == old(durable) && exact == old(exact)
      {
        ram := ram.(affected := ram.affected - {g});
        g := g + 1;
      }
    }

    /** Every record of the input takes the place of its rewritten copy. */
    method ReplaceRecords(input: Range, reps: seq<Rec>)
      modifies this
      ensures durable == old(durable) && exact == old(exact)
      ensures ram == old(ram).(records := Replaced(old(ram).records, input, reps))
    {
      hide Valid, MatchRec, Replaced, PartReplaced;
      ghost var rs := ram.records;
      ReplacedWhole(rs, input, reps);
      var i := 0;
      while i < |ram.records|
        invariant 0 <= i <= |ram.records| == |rs|
        invariant ram == old(ram).(records := ram.records)
        invariant ram.records == PartReplaced(rs, input, reps, i)
        invariant durable == old(durable) && exact == old(exact)
      {
        ReplacedStep(rs, input, reps, i);
        var x := ram.records[i];
        if input.startGen <= x.gen <= input.endGen {
          var k := FindReplacement(reps, x.sequence);
          if k < |reps| {
            ram := ram.(records := ram.records[i := reps[k]]);
          }
        }
        i := i + 1;
      }
    }

    static method FindReplacement(reps: seq<Rec>, q: u32) returns (k: nat)
      ensures k == MatchRec(reps, q)
    {
      k := 0;
      while k < |reps| && reps[k].sequence != q
        invariant 0 <= k <= |reps|
        invariant MatchRec(reps, q) == k + MatchRec(reps[k..], q)
      {
        assert reps[k..][1..] == reps[k + 1..];
        k := k + 1;
      }
    }

    /** The state once the input is retired: its records moved, its generations out of the tail's dependencies. */
    ghost function Retired(input: Range, reps: seq<Rec>): Ram
      reads this
    {
      ram.(records := Replaced(ram.records, input, reps), affected := ram.affected - InputSet(input))
    }

    /** Publish the compacted ranges. e says whether the byte counter is exact with the outputs counted in. */
    method PublishPlan(newRanges: seq<Range>, next: u32, ghost reps: seq<Rec>, ghost p: Plan, ghost e: bool) returns (st: Status)
      requires Valid() && PlanOk(ram, p) && OutputReady(fs.files, ram, p, cfg.limit)
      requires newRanges == Merged(Spliced(ram.ranges, p.i, p.input, p.out), p.k) && next == p.next
      requires EnqueuesOnly(LogOf(fs.files, Flatten(p.out), cfg.limit)) && reps == Reps(LogOf(fs.files, Flatten(p.out), cfg.limit))
      requires e ==> ExactBelow(fs.files, ram, next)
      modifies this, fs
      ensures st.Ok? ==>
        && Sound(fs.files, Retired(p.input, reps), cfg.limit, durable, exact)
        && Items(fs.files, Retired(p.input, reps).records) == old(Contents())
        && durable == (old(durable) && PlanSafe(old(fs.files), old(ram), p, cfg.limit)) && exact == e
        && ram.ranges == newRanges && ram.tailGen == old(ram).tailGen != 0 && ram.tailBytes == old(ram).tailBytes
        && ram.sealedBytes == old(ram).sealedBytes && p.input.startGen <= p.input.endGen
        && forall g: u32 | InRange(g, p.input) ::
             && g !in ram.gens && g in ram.sealedBytes && ram.sealedBytes[g] <= |Content(fs.files, g)|
             && (exact ==> ram.sealedBytes[g] == |Content(fs.files, g)|)
      ensures !st.Ok? ==> Hard(st) && ram == old(ram) && fs.files == old(fs.files) && durable == old(durable) && exact == old(exact)
      ensures durable ==> Recoverable(old(fs.trace), fs.trace, cfg.limit, old(Contents()), old(Contents()))
      ensures old(Tidied()) ==> Tidied()
      ensures old(fs.trace) <= fs.trace
      ensures old(fs.Faultless()) ==> fs.Faultless() && if old(Publishable(fs.files)) then st.Ok? else st == Failed(CounterExhausted)
      ensures old(SmallFiles()) ==> SmallFiles()
    {
      hide FileSystem.Small, Sound, Items, Recoverable, CrashSafe, Content, Flatten, Merged, Spliced, LogOf, Replaced, InputSet,
        OutputReady, Reps, ExactBelow, PlanSafe, Serialise, Formed, Winner, Inactive, SlotsOk, ActiveOf, WinningEpoch, EnqueuesOnly,
        PlanOk;
      ghost var d, r, t0, v := fs.files, ram, fs.trace, Contents();
      RecoverableNone(t0, cfg.limit, v, v);
      PlanFormed(d, r, p, cfg.limit, durable, exact);
      SoundParts(d, r, cfg.limit, durable, exact);
      var m := Manifest(0, next, newRanges, ram.tailGen);
      FormedSize(m);
      st := Publish(m);
      if !st.Ok? { return; }
      PlanState(d, r, p, cfg.limit, durable, e) by { WeakenSound(d, r, cfg.limit, durable, exact); }
      PlanRetired(d, r, p, cfg.limit, durable, exact);
      if e { ExactSizes(d, r, next); }
      durable := durable && PlanSafe(d, r, p, cfg.limit);
      exact := e;
      assert Retired(p.input, reps) == PlanRam(d, r, p, cfg.limit);
      if durable {
        RecoverableAdd(t0, [Write(d, Op.WriteFile(Inactive(d).value, Serialise(Next(d, m))))], cfg.limit, v, v);
      }
    }

    /** Publish the compacted ranges, remove the input's segments, and bring the dependencies and the index up to date. */
    method Commit(newRanges: seq<Range>, next: u32, input: Range, reps: seq<Rec>, ghost p: Plan, ghost e: bool) returns (st: Status)
      requires Valid() && PlanOk(ram, p) && OutputReady(fs.files, ram, p, cfg.limit)
      requires newRanges == Merged(Spliced(ram.ranges, p.i, p.input, p.out), p.k) && next == p.next && input == p.input
      requires EnqueuesOnly(LogOf(fs.files, Flatten(p.out), cfg.limit)) && reps == Reps(LogOf(fs.files, Flatten(p.out), cfg.limit))
      requires e ==> ExactBelow(fs.files, ram, next)
      modifies this, fs
      ensures Valid() && Contents() == old(Contents())
      ensures st.Ok? ==>
        && durable == (old(durable) && PlanSafe(old(fs.files), old(ram), p, cfg.limit)) && exact == e
        && ram.ranges == newRanges && ram.tailGen == old(ram).tailGen && ram.tailBytes == old(ram).tailBytes
        && forall g: u32 | !InRange(g, input) :: KeptSize(old(ram).sealedBytes, ram.sealedBytes, g)
      ensures !st.Ok? ==> Hard(st) && ram == old(ram) && fs.files == old(fs.files) && durable == old(durable) && exact == old(exact)
      ensures durable ==> Recoverable(old(fs.trace), fs.trace, cfg.limit, old(Contents()), old(Contents()))
      ensures old(Tidied()) ==> Tidied()
      ensures old(fs.trace) <= fs.trace
      ensures old(fs.Faultless()) ==> fs.Faultless() && if old(Publishable(fs.files)) then st.Ok? else st == Failed(CounterExhausted)
      ensures old(fs.Faultless()) && st.Ok? ==> Gone(fs.files, input)
      ensures old(SmallFiles()) ==> SmallFiles()
    {
      hide FileSystem.Small, Sound, Items, Recoverable, Content, Flatten, Merged, Spliced, LogOf, Replaced, InputSet, OutputReady,
        Reps, ExactBelow, PlanSafe, Publishable, EnqueuesOnly, PlanOk;
      ghost var t0, v := fs.trace, Contents();
      st := PublishPlan(newRanges, next, reps, p, e);
      if !st.Ok? { return; }
      ghost var t1, r' := fs.trace, Retired(input, reps);
      Cleanup(input, r'.records, r'.affected);
      if durable {
        RecoverableJoin(t0, t1, fs.trace, cfg.limit, v, v);
      }
      EraseAffected(input);
      ReplaceRecords(input, reps);
      assert ram == ram.(records := r'.records, affected := r'.affected);
    }

    /** Dropping an input without live records. */
    method DropInput(i: nat, input: Range) returns (st: Status)
      requires Valid() && ram.tailGen != 0 && i < |ram.ranges|
      requires ram.ranges[i].startGen <= input.startGen <= input.endGen <= ram.ranges[i].endGen
      requires Room(ram.ranges, i, input, 0) && !HasLive(ram.records, input)
      modifies this, fs
      ensures Valid() && Contents() == old(Contents())
      ensures ram.tailGen == old(ram).tailGen && ram.tailBytes == old(ram).tailBytes
      ensures st.Ok? ==>
        && durable == (old(durable) && SafeInput(old(fs.files), Before(old(ram).ranges, i, input), Gens(input), cfg.limit))
        && Lower(ram, old(ram)) && SealedCount(ram) + (input.endGen - input.startGen + 1) == SealedCount(old(ram))
      ensures !st.Ok? ==> Hard(st) && durable == old(durable)
      ensures durable ==> Recoverable(old(fs.trace), fs.trace, cfg.limit, old(Contents()), old(Contents()))
      ensures old(Tidied()) ==> Tidied()
      ensures old(fs.trace) <= fs.trace
      ensures old(fs.Faultless()) ==>
        && fs.Faultless() && exact == old(exact)
        && if WinningEpoch(old(fs.files)) + 1 < 0x1_0000_0000 then st.Ok? else st == Failed(CounterExhausted)
      ensures old(fs.Faultless()) && st.Ok? ==> Gone(fs.files, input)
      ensures old(SmallFiles()) ==> SmallFiles()
    {
      hide FileSystem.Small, Sound, Items, Recoverable, Flatten, Gens, Merged, Spliced, LogOf, OutputReady, Reps, Before, SafeInput,
        ExactBelow, EnqueuesOnly, PlanOk, Lower, Room, SlotsOk, LayoutOk, RecordsOk, BytesOk, HasLive;
      ghost var d, r := fs.files, ram;
      StepStart(d, r, cfg.limit, durable, exact);
      DeadPlanOk(d, r, i, input, cfg.limit);
      DeadOutput(d, cfg.limit);
      var newRanges, _ := SpliceRanges(ram.ranges, i, input, []);
      st := Commit(newRanges, ram.nextGen, input, [], DeadPlan(r, i, input), exact);
      if st.Ok? {
        DeadLowers(d, r, i, input, ram, cfg.limit);
        PlanCount(d, r, DeadPlan(r, i, input), ram);
        FlattenNothing();
      }
    }

    /** The packing of the live records, and whether the counters have room for it. */
    method PackLive(input: Range, live: seq<Item>) returns (segs: seq<OutputSeg>, roomy: bool)
      requires Valid() && ram.tailGen != 0 && live == Items(fs.files, LiveRecs(ram.records, input)) && live != []
      ensures segs == Packed(PayloadSizes(live), |live|, cfg.maxSegmentBytes, ram.nextGen) && segs != []
      ensures |segs| <= |ram.records| && |segs| <= Preflight(LiveSizes(ram.records, input), cfg.maxSegmentBytes).0
      ensures roomy <==> CountersLast(fs.files, ram, |segs|)
      ensures InSequence(segs, |live|, ram.nextGen) && (roomy ==> SegsOk(segs, live, ram.nextGen, cfg.limit))
      ensures AllFitting(cfg, Contents()) ==>
        forall k | 0 <= k < |segs| :: SegmentSize(PayloadSizes(live), segs[k].indices) <= SegmentBound(cfg)
    {
      hide Sound, Items, Packed, SegmentSize, PayloadSizes, AllFitting, LiveRecs, Preflight, LiveSizes, InSequence, SegsOk, SlotsOk,
        LayoutOk, RecordsOk, BytesOk, Inactive, WinningEpoch, SegmentBound;
      StepStart(fs.files, ram, cfg.limit, durable, exact);
      segs := Pack(PayloadSizes(live), cfg.maxSegmentBytes, ram.nextGen);
      OutputsCounted(cfg, fs.files, ram, input, live, segs);
      OutputsFew(ram, input, PayloadSizes(live), cfg.maxSegmentBytes, ram.nextGen);
      LiveWithin(fs.files, ram, input, cfg.limit);
      PackedOk(live, cfg.maxSegmentBytes, ram.nextGen, cfg.limit);
      if AllFitting(cfg, Contents()) { OutputsWithin(cfg, fs.files, ram, input, live, segs); }
      var _, epoch := ChooseSlot();
      roomy := (ram.nextGen as int) + |segs| < 0x1_0000_0000 && (epoch as int) + 1 < 0x1_0000_0000;
    }

    /** Rewriting the live records of an input into new segments. */
    method RewriteInput(i: nat, input: Range, live: seq<Item>) returns (st: Status, outputs: nat)
      requires Valid() && ram.tailGen != 0 && i < |ram.ranges|
      requires ram.ranges[i].startGen <= input.startGen <= input.endGen <= ram.ranges[i].endGen
      requires Room(ram.ranges, i, input, 1)
      requires live == Items(fs.files, LiveRecs(ram.records, input)) && live != []
      modifies this, fs
      ensures Valid() && Contents() == old(Contents())
      ensures ram.tailGen == old(ram).tailGen && ram.tailBytes == old(ram).tailBytes
      ensures st.Ok? ==>
        && durable == (old(durable) && SafeInput(old(fs.files), Before(old(ram).ranges, i, input), Gens(input), cfg.limit))
        && (InputWorthwhile(cfg, old(ram), input) ==> Lower(ram, old(ram)))
        && SealedCount(ram) + (input.endGen - input.startGen + 1) == SealedCount(old(ram)) + outputs
      ensures outputs <= |old(ram).records| && outputs <= Preflight(LiveSizes(old(ram).records, input), cfg.maxSegmentBytes).0
      ensures !st.Ok? ==> Hard(st) && durable == old(durable)
      ensures durable ==> Recoverable(old(fs.trace), fs.trace, cfg.limit, old(Contents()), old(Contents()))
      ensures old(Tidied()) ==> Tidied()
      ensures old(fs.trace) <= fs.trace
      ensures old(fs.Faultless()) ==>
        && fs.Faultless() && exact == old(exact)
        && if CountersLast(old(fs.files), old(ram), outputs) then st.Ok? else st == Failed(CounterExhausted)
      ensures old(fs.Faultless()) && st.Ok? ==> Gone(fs.files, input)
      ensures old(Small()) ==> Small()
    {
      hide FileSystem.Small, SegmentBound, SegmentSize, AllFitting, PayloadSizes, Sound, Items, Recoverable, Flatten, Gens, Merged,
        Spliced, LogOf, OutputReady, Reps, Before, SafeInput, HasLive, ExactBelow, EnqueuesOnly, PlanOk, LiveRecs, Lower,
        InputWorthwhile, Written, Room, Packed, SegsOk, SlotsOk, LayoutOk, RecordsOk, BytesOk, InSequence, LeftOf, Preflight,
        LiveSizes, Inactive, WinningEpoch;
      ghost var d0, r0, t0, v, e := fs.files, ram, fs.trace, Contents(), exact;
      RecoverableNone(t0, cfg.limit, v, v);
      StepStart(d0, r0, cfg.limit, durable, exact);
      var segs, roomy := PackLive(input, live);
      outputs := |segs|;
      if !roomy { return Failed(CounterExhausted), outputs; }
      var reps;
      st, reps := WriteOutputs(live, segs);
      if !st.Ok? { return; }
      ghost var d2, r2, t2 := fs.files, ram, fs.trace;
      LiveReady(d0, r0, d2, r2, live, segs, i, input, cfg.limit, durable, e);
      var newRanges, outputIdx := SpliceRanges(ram.ranges, i, input, [Range(ram.nextGen, ram.nextGen + |segs| - 1)]);
      newRanges := MergeAround(newRanges, outputIdx);
      st := Commit(newRanges, ram.nextGen + |segs|, input, reps, LivePlan(r2, i, input, |segs|), e);
      if st.Ok? {
        LiveLowers(cfg, d0, r0, d2, r2, live, segs, i, input, ram, old(durable), e);
      }
      if durable {
        RecoverableJoin(t0, t2, fs.trace, cfg.limit, v, v);
      }
    }

    /** The second half of compactRange, behind the rotation: rewrite what is live in the input, or drop the input when
        nothing is. */
    method CompactInput(input: Range) returns (st: Status, outputs: nat)
      requires Valid() && ram.tailGen != 0 && input.startGen <= input.endGen
      requires Parent(ram, input) < |ram.ranges|
      requires Room(ram.ranges, Parent(ram, input), input, if HasLive(ram.records, input) then 1 else 0)
      modifies this, fs
      ensures Valid() && Contents() == old(Contents())
      ensures ram.tailGen == old(ram).tailGen && ram.tailBytes == old(ram).tailBytes
      ensures st.Ok? ==>
        && durable == (old(durable) && SafeInput(old(fs.files), Before(old(ram).ranges, Parent(old(ram), input), input), Gens(input), cfg.limit))
        && (InputWorthwhile(cfg, old(ram), input) ==> Lower(ram, old(ram)))
        && SealedCount(ram) + (input.endGen - input.startGen + 1) == SealedCount(old(ram)) + outputs
        && (NotMore(cfg, old(ram), input) ==> outputs <= input.endGen - input.startGen + 1)
      ensures !st.Ok? ==> Hard(st) && durable == old(durable)
      ensures durable ==> Recoverable(old(fs.trace), fs.trace, cfg.limit, old(Contents()), old(Contents()))
      ensures old(Tidied()) ==> Tidied()
      ensures old(fs.trace) <= fs.trace
      ensures old(fs.Faultless()) ==>
        && fs.Faultless() && exact == old(exact) && (st.Ok? || st == Failed(CounterExhausted))
        && (CountersLast(old(fs.files), old(ram), |old(ram).records|) ==> st.Ok?)
      ensures old(fs.Faultless()) && st.Ok? ==> Gone(fs.files, input)
      ensures old(Small()) ==> Small()
    {
      hide FileSystem.Small, AllFitting, Sound, Items, Recoverable, Flatten, Gens, Before, SafeInput, LiveRecs, Lower,
        InputWorthwhile, Room, LayoutOk, RecordsOk, BytesOk, SlotsOk, HasLive, LiveSizes, Preflight;
      StepStart(fs.files, ram, cfg.limit, durable, exact);
      HasLiveIsLive(ram.records, input);
      var i := FindParent(input.startGen, input.endGen);
      var live;
      st, live := CollectLive(input);
      outputs := 0;
      if live == [] {
        st := DropInput(i, input);
      } else {
        st, outputs := RewriteInput(i, input, live);
      }
    }

    /** The payload lengths of the live records of the input, in index order. */
    method SizesOf(input: Range) returns (ps: seq<nat>)
      ensures ps == LiveSizes(ram.records, input)
    {
      ps := [];
      var i := 0;
      SizesNone(input);
      while i < |ram.records|
        invariant 0 <= i <= |ram.records|
        invariant ps == LiveSizes(ram.records[..i], input)
      {
        hide LiveSizes;
        assert ram.records[..i + 1] == ram.records[..i] + [ram.records[i]];
        SizesPush(ram.records[..i], ram.records[i], input);
        if input.startGen <= ram.records[i].gen <= input.endGen {
          ps := ps + [ram.records[i].length];
        }
        i := i + 1;
      }
      assert ram.records[..i] == ram.records;
    }

    /** The bytes of the input's segments, as RAM knows them. */
    method SumInput(input: Range) returns (bytes: nat)
      requires input.startGen <= input.endGen
      ensures ram.tailGen != 0 ==> bytes == InputBytes(ram, input)
    {
      bytes := 0;
      ghost var noted := ram.sealedBytes[ram.tailGen := ram.tailBytes];
      GensLength(input);
      var g: int := input.startGen;
      assert Gens(input)[..0] == [];
      while g <= input.endGen
        invariant input.startGen <= g <= input.endGen + 1
        invariant bytes == SumBytes(noted, Gens(input)[..g - input.startGen])
      {
        var size := if g == ram.tailGen then ram.tailBytes else if g in ram.sealedBytes then ram.sealedBytes[g] else 0;
        ghost var k := g - input.startGen;
        assert Gens(input)[..k + 1] == Gens(input)[..k] + [g];
        assert (Gens(input)[..k] + [g])[..k] == Gens(input)[..k];
        bytes := bytes + size;
        g := g + 1;
      }
      assert Gens(input)[..g - input.startGen] == Gens(input);
    }

    /** The checks on RAM alone before anything is written: is the rewrite worth doing? */
    method Preflighted(hypo: Range) returns (hasLive: bool, go: bool)
      requires hypo.startGen <= hypo.endGen && ram.tailGen != 0
      ensures hasLive == HasLive(ram.records, hypo)
      ensures go <==> (hasLive ==> Worthwhile(LiveSizes(ram.records, hypo), cfg.maxSegmentBytes, hypo.endGen - hypo.startGen + 1,
                                              InputBytes(ram, hypo)))
    {
      hide LiveSizes, HasLive, InputBytes;
      var ps := SizesOf(hypo);
      HasLiveIsLive(ram.records, hypo);
      var outputSegs := CountOutputs(ps, cfg.maxSegmentBytes);
      var inputSegs := hypo.endGen - hypo.startGen + 1;
      var inputBytes := SumInput(hypo);
      var liveBytes := outputSegs * SEGMENT_HEADER_BYTES;
      var i := 0;
      while i < |ps|
        invariant 0 <= i <= |ps|
        invariant liveBytes == outputSegs * SEGMENT_HEADER_BYTES + EventTotal(ps[..i])
      {
        assert ps[..i + 1][..i] == ps[..i];
        liveBytes := liveBytes + ENQUEUE_OVERHEAD_BYTES + ps[i];
        i := i + 1;
      }
      assert ps[..i] == ps;
      hasLive := ps != [];
      if hasLive && outputSegs > inputSegs { return hasLive, false; }
      if hasLive && outputSegs == inputSegs && !(liveBytes < inputBytes) { return hasLive, false; }
      go := true;
    }

    /** The first range-count gate: splitting the parent must not exceed the limit on ranges. Otherwise the whole parent is
        taken, where that is allowed. */
    method GateSplit(range: Range, i: nat, allowFallback: bool) returns (go: bool, input: Range)
      requires range.startGen <= range.endGen && i == Parent(ram, range) < |ram.ranges|
      requires |ram.ranges| <= MANIFEST_MAX_RANGES
      ensures SplitInput(ram, i, range, allowFallback) == if go then Some(input) else None
      ensures go ==> Chosen(ram, range, allowFallback, input) && Parent(ram, input) == i
                     && Room(ram.ranges, i, input, if HasLive(ram.records, input) then 1 else 0)
    {
      hide HasLive;
      var parent := ram.ranges[i];
      ParentOfParent(ram.ranges, range.startGen, range.endGen);
      var hasLeft, hasRight := parent.startGen < range.startGen, range.endGen < parent.endGen;
      var rangeHasLive := AnyLive(range);
      var liveDelta := if hasLeft && hasRight then 2 else if hasLeft || hasRight then 1 else 0;
      var deadDelta := if hasLeft && hasRight then 1 else 0;
      go, input := true, range;
      if |ram.ranges| + (if rangeHasLive then liveDelta else deadDelta) > MANIFEST_MAX_RANGES {
        if !allowFallback { return false, input; }
        input := parent;
      }
    }

    /** The second gate: a tail that is to be sealed into the input must leave room for what remains of the parent. */
    method GateRotate(range: Range, first: Range, allowFallback: bool) returns (go: bool, input: Range, wouldRotate: bool)
      requires Valid() && range.startGen <= range.endGen && Parent(ram, range) < |ram.ranges|
      requires Chosen(ram, range, allowFallback, first) && Parent(ram, first) == Parent(ram, range)
      requires Room(ram.ranges, Parent(ram, first), first, if HasLive(ram.records, first) then 1 else 0)
      requires |ram.ranges| <= MANIFEST_MAX_RANGES
      ensures SealInput(ram, Parent(ram, range), first, allowFallback) == if go then Some(input) else None
      ensures go ==>
        && Chosen(ram, range, allowFallback, input) && Parent(ram, input) == Parent(ram, range)
        && wouldRotate == Sealable(ram, input)
        && var eff := Effective(ram, input, wouldRotate);
        && input.endGen <= eff.endGen
        && Room(ram.ranges, Parent(ram, input), input, if HasLive(ram.records, eff) then 1 else 0)
    {
      hide Sound, HasLive, Sealable, LayoutOk, RecordsOk, BytesOk, SlotsOk, Room, Chosen;
      StepStart(fs.files, ram, cfg.limit, durable, exact);
      ChosenOrder(ram, range, allowFallback, first);
      var i := FindParent(range.startGen, range.endGen);
      var parent := ram.ranges[i];
      go, input := true, first;
      wouldRotate := TailFits(input);
      if wouldRotate {
        SealedParent(fs.files, ram, input);
        var hypoHasLive := AnyLive(Range(input.startGen, ram.tailGen));
        HasLiveWithin(ram.records, input, Range(input.startGen, ram.tailGen));
        RoomSealed(ram, range, input, i);
        if hypoHasLive && parent.startGen < input.startGen {
          if |ram.ranges| + 1 > MANIFEST_MAX_RANGES {
            if !allowFallback { return false, input, wouldRotate; }
            SealableWider(ram, input, parent);
            input := parent;
          }
        }
        RoomLess(ram.ranges, i, input);
      }
    }

    /** The first half of compactRange: find the parent, keep within the range limit, decide whether the tail is to be sealed
        into the input, and whether the step is worth doing. */
    method ChooseInput(range: Range, allowFallback: bool) returns (go: bool, input: Range, rotate: bool)
      requires Valid()
      ensures PlannedInput(cfg, ram, range, allowFallback) == if go then Some(input) else None
      ensures go ==> rotate == (Sealable(ram, input) && HasLive(ram.records, Effective(ram, input, true)))
      ensures go ==> range.startGen <= range.endGen && Parent(ram, range) < |ram.ranges| && ram.tailGen != 0
                     && Chosen(ram, range, allowFallback, input) && InputOk(cfg, ram, input, rotate)
    {
      hide SplitInput, SealInput, Sound, LiveSizes, HasLive, InputBytes, Worthwhile, Sealable, LayoutOk, RecordsOk, BytesOk,
        SlotsOk, Room, InputOk, Chosen;
      StepStart(fs.files, ram, cfg.limit, durable, exact);
      go, input, rotate := false, range, false;
      var i := FindParent(range.startGen, range.endGen);
      if i >= |ram.ranges| { return; }
      RangesBound(fs.files, ram);
      go, input := GateSplit(range, i, allowFallback);
      if !go { return; }
      var wouldRotate, hasLive;
      go, input, wouldRotate := GateRotate(range, input, allowFallback);
      if !go { return; }
      ChosenOrder(ram, range, allowFallback, input);
      var hypo := Range(input.startGen, if wouldRotate then ram.tailGen else input.endGen);
      hasLive, go := Preflighted(hypo);
      rotate := wouldRotate && hasLive;
      if go {
        InputReady(cfg, fs.files, ram, input, wouldRotate, hasLive);
      }
    }

    /** Whether the tail can be sealed into the input. */
    method TailFits(input: Range) returns (fits: bool)
      ensures fits == Sealable(ram, input)
    {
      if ram.ranges == [] { return false; }
      var last := ram.ranges[|ram.ranges| - 1];
      var reachesLast := input.endGen == last.endGen;
      var canMerge := ram.tailBytes > SEGMENT_HEADER_BYTES && (last.endGen as int) + 1 == ram.tailGen;
      var contained := forall g | g in ram.affected :: input.startGen <= g <= ram.tailGen;
      fits := reachesLast && canMerge && contained;
    }

    /** Seal the tail into the input of a compaction. */
    method SealInto(input: Range) returns (st: Status)
      requires Valid() && ram.tailGen != 0 && InputOk(cfg, ram, input, true)
      modifies this, fs
      ensures Valid() && Contents() == old(Contents())
      ensures st.Ok? ==>
        && ram.tailGen != 0 && ram.records == old(ram).records && TailRank(ram) < TailRank(old(ram)) && SealedCount(ram) == SealedCount(old(ram)) + 1
        && durable == (old(durable) && old(Tidied()))
        && var i := Parent(ram, Effective(old(ram), input, true));
        && i == ParentIndex(ram.ranges, input.startGen, input.endGen) < |ram.ranges|
        && ram.ranges[i].endGen == old(ram).tailGen
        && Room(ram.ranges, i, Effective(old(ram), input, true), 1) && Room(ram.ranges, i, Effective(old(ram), input, true), 0)
        && Before(ram.ranges, i, Effective(old(ram), input, true)) == Before(old(ram).ranges, Parent(old(ram), input), input)
        && Agree(old(fs.files), fs.files, old(ram).gens)
        && (old(StepCounters(fs.files, ram)) ==> CountersLast(fs.files, ram, |ram.records|))
      ensures !st.Ok? ==> Hard(st) && durable == old(durable) && ram.tailGen == old(ram).tailGen
      ensures durable ==> Recoverable(old(fs.trace), fs.trace, cfg.limit, old(Contents()), old(Contents()))
      ensures old(Tidied()) ==> Tidied()
      ensures SlotFree()
      ensures old(fs.trace) <= fs.trace
      ensures old(fs.Faultless()) ==> fs.Faultless() && (!st.Ok? ==> st == Failed(CounterExhausted) && !old(StepCounters(fs.files, ram)))
      ensures old(fs.Faultless() && Tidied()) ==> exact == old(exact)
      ensures old(SmallFiles()) ==> SmallFiles()
    {
      hide FileSystem.Small, Sound, Items, Recoverable, Before, Room, LayoutOk, RecordsOk, BytesOk, SlotsOk, HasLive, Agree,
        NewTail, Sealed, Winner, Inactive, RangeRoom, Gens, Tidy, WinningEpoch, Publishable, NotMore, Worthwhile, Headroom;
      ghost var d, r := fs.files, ram;
      StepStart(d, r, cfg.limit, durable, exact);
      SealedParent(d, r, input);
      CountersBefore(d, r);
      st := Rotate();
      if !st.Ok? { return; }
      StepRotated(cfg, d, r, input, BaseSequence(r.records));
      RotatedCount(d, r, BaseSequence(r.records));
      StepStart(fs.files, ram, cfg.limit, durable, exact);
      CountersRotated(d, r, fs.files, BaseSequence(r.records));
    }

    /** compactRange: rewrite a stretch of sealed segments, and the tail with it when the tail can be sealed into it. This
        session never sees a difference; a remount does not either, unless the stretch changed a record stored before it, or
        the sealed tail had something left over behind its last event. */
    method CompactRange(range: Range, allowFallback: bool)
      returns (st: Status, inputSegs: nat, outputSegs: nat, ghost before: seq<u32>, ghost input: Range)
      requires Valid()
      modifies this, fs
      ensures Valid() && Contents() == old(Contents())
      ensures st.NoOp? <==> PlannedInput(cfg, old(ram), range, allowFallback).None?
      ensures st.NoOp? ==> Now() == old(Now())
      ensures st.Ok? ==>
        && Cuts(old(ram).gens, before, input) && StartsAt(old(ram), range, input)
        && input == Reached(old(ram), PlannedInput(cfg, old(ram), range, allowFallback).value)
        && durable == (old(durable) && SafeInput(old(fs.files), before, Gens(input), cfg.limit)
                       && (InRange(old(ram).tailGen, input) ==> old(Tidied())))
        && Lower(ram, old(ram)) && ram.tailGen != 0
        && inputSegs == input.endGen - input.startGen + 1 && outputSegs <= inputSegs
        && SealedCount(ram) + inputSegs == SealedCount(old(ram)) + outputSegs + (if InRange(old(ram).tailGen, input) then 1 else 0)
      ensures st.Failed? ==> Hard(st) && (durable ==> old(durable)) && (old(durable && Tidied()) ==> durable)
                             && (old(ram).tailGen != 0 ==> ram.tailGen != 0)
      ensures durable ==> Recoverable(old(fs.trace), fs.trace, cfg.limit, old(Contents()), old(Contents()))
      ensures old(Tidied()) ==> Tidied()
      ensures old(SlotFree()) ==> SlotFree()
      ensures old(fs.trace) <= fs.trace
      ensures old(fs.Faultless()) ==> fs.Faultless() && (st.Failed? ==> st == Failed(CounterExhausted) && !old(StepCounters(fs.files, ram)))
      ensures old(fs.Faultless() && Tidied()) ==> exact == old(exact)
      ensures old(fs.Faultless()) && st.Ok? ==> Gone(fs.files, input)
      ensures old(Small()) ==> Small()
    {
      hide FileSystem.Small, AllFitting, Sound, Items, Recoverable, Before, SafeInput, Lower, InputWorthwhile, Room, LayoutOk,
        RecordsOk, BytesOk, SlotsOk, HasLive, Sealable, Chosen, InputOk, Cuts, Agree, NewTail, Sealed, Winner, Inactive, StartsAt,
        RangeRoom, Gens, NotMore, PlannedInput, Tidy, WinningEpoch, Publishable, Worthwhile, TailRank;
      ghost var d0, r0, t0, v := fs.files, ram, fs.trace, Contents();
      RecoverableNone(t0, cfg.limit, v, v);
      inputSegs, outputSegs, before, input := 0, 0, [], range;
      var go, chosen, rotate := ChooseInput(range, allowFallback);
      if !go { return NoOp, inputSegs, outputSegs, before, input; }
      StepStart(d0, r0, cfg.limit, durable, exact);
      StepChosen(cfg, d0, r0, range, allowFallback, chosen, rotate);
      before, input := Before(r0.ranges, Parent(r0, chosen), chosen), Effective(r0, chosen, rotate);
      if rotate {
        st := SealInto(chosen);
        if !st.Ok? { return; }
        NotMoreSame(cfg, r0, ram, input);
        SafeAgreesCut(d0, fs.files, r0.gens, before, input, cfg.limit);
      } else {
        CountersBefore(d0, r0);
      }
      ghost var r1, t1 := ram, fs.trace;
      var i := FindParent(chosen.startGen, chosen.endGen);
      if i >= |ram.ranges| { assert false; return NoOp, inputSegs, outputSegs, before, input; }
      var effective := if rotate then Range(chosen.startGen, ram.ranges[i].endGen) else chosen;
      assert effective == input;
      inputSegs := effective.endGen - effective.startGen + 1;
      st, outputSegs := CompactInput(effective);
      StepStart(fs.files, ram, cfg.limit, durable, exact);
      if durable {
        RecoverableJoin(t0, t1, fs.trace, cfg.limit, v, v);
      }
      if rotate && st.Ok? {
        RankLowers(r0, r1, ram);
      }
    }

    /** narrowRange. */
    method NarrowRange(range: Range, maxOutputSegs: nat) returns (r: Range)
      requires Valid()
      ensures Narrows(cfg, ram, range, maxOutputSegs, r)
    {
      hide Sound, Stats, Flatten, EntriesOf, NarrowedTo, Plausible;
      SelectionReady(fs.files, ram, cfg.limit, durable, exact);
      r := Narrow(ram.records, ram.sealedBytes, ram.ranges, range, cfg.maxSegmentBytes, maxOutputSegs);
    }

    /** What a compaction step chooses. */
    method ChooseRange() returns (range: Option<Range>)
      requires Valid()
      ensures range.None? ==> forall allow: bool :: NothingLeft(cfg, ram, allow)
      ensures range.Some? ==> Candidate(cfg, ram, range.value) && ram.tailGen != 0
    {
      hide Sound, Stats, Flatten, Choice, Narrows, PlannedInput;
      StepStart(fs.files, ram, cfg.limit, durable, exact);
      RangesBound(fs.files, ram);
      range := Choose(ram.records, ram.ranges, ram.sealedBytes);
      if range.Some? && cfg.maxOutputSegments > 0 {
        var narrowed := NarrowRange(range.value, cfg.maxOutputSegments);
        range := Some(narrowed);
      }
    }

    /** compactOneSegment: one step on the range that is most worth it. */
    method CompactOneSegment(allowFallback: bool) returns (st: Status, inputSegs: nat, outputSegs: nat, ghost taken: seq<Stretch>)
      requires Valid()
      modifies this, fs
      ensures Valid() && Kept(cfg, old(Now()), Now(), taken)
      ensures st.NoOp? ==> Now() == old(Now()) && taken == [] && NothingLeft(cfg, ram, allowFallback)
      ensures st.Ok? ==> Lower(ram, old(ram)) && outputSegs <= inputSegs && |taken| == 1
                         && taken[0].files == old(fs.files) && Takes(cfg, old(ram), allowFallback, taken[0].input)
      ensures st.Ok? ==>
        && inputSegs == taken[0].input.endGen - taken[0].input.startGen + 1
        && SealedCount(ram) + inputSegs
           == SealedCount(old(ram)) + outputSegs + (if InRange(old(ram).tailGen, taken[0].input) then 1 else 0)
      ensures st.Failed? ==> Hard(st) && taken == []
      ensures old(ram).tailGen == 0 ==> st.NoOp?
      ensures old(fs.Faultless()) && st.Failed? ==> st == Failed(CounterExhausted) && !old(StepCounters(fs.files, ram))
    {
      hide SmallStore, SegmentBound, AllFitting, Sound, Items, Recoverable, Lower, Candidate, NothingLeft, Cuts, SafeInput,
        StartsAt, PlannedInput, Reached, Tidy, AllSafe, AllGenuine, LayoutOk, StepCounters, Choice, Inactive, Kept;
      inputSegs, outputSegs, taken := 0, 0, [];
      ghost var d, r, s := fs.files, ram, Now();
      KeptNone(cfg, s);
      StretchesNone(cfg.limit);
      StepStart(d, r, cfg.limit, durable, exact);
      var range := ChooseRange();
      if range.None? { return NoOp, 0, 0, taken; }
      ghost var before, input;
      st, inputSegs, outputSegs, before, input := CompactRange(range.value, allowFallback);
      if st.NoOp? {
        assert NothingLeft(cfg, ram, allowFallback) by { DeclinedIsLast(cfg, r, range.value, allowFallback); }
      }
      if st.Ok? {
        taken := [Stretch(d, before, input)];
        StretchTaken(d, r, before, input, cfg.limit);
        assert Takes(cfg, r, allowFallback, input);
      }
      OneStepKept(s, st, taken);
    }

    /** One step keeps all this. */
    lemma OneStepKept(s: Snap, st: Status, taken: seq<Stretch>)
      requires Items(fs.files, ram.records) == Items(s.files, s.ram.records) && s.trace <= fs.trace
      requires AllGenuine(taken) && (s.ram.tailGen != 0 ==> ram.tailGen != 0)
      requires durable ==>
        && s.durable && AllSafe(taken, cfg.limit)
        && Recoverable(s.trace, fs.trace, cfg.limit, Items(s.files, s.ram.records), Items(s.files, s.ram.records))
      requires Tidy(s.files, s.ram) ==> Tidied() && durable == (s.durable && AllSafe(taken, cfg.limit))
      requires true !in s.faults ==> fs.Faultless() && (Tidy(s.files, s.ram) ==> exact == s.exact)
      requires SmallStore(s.files, s.trace, SegmentBound(cfg)) && AllFitting(cfg, Items(s.files, s.ram.records)) ==> SmallFiles()
      ensures Kept(cfg, s, Now(), taken)
    {
      hide Items, SmallStore, AllFitting, Tidy, Recoverable, AllSafe, AllGenuine;
    }

    /** reclaimDeadFrontSegment: drop the oldest sealed segment when nothing in it is live. A remount never sees a
        difference. */
    method ReclaimDeadFrontSegment() returns (st: Status, inputSegs: nat, outputSegs: nat)
      requires Valid()
      modifies this, fs
      ensures Valid() && Kept(cfg, old(Now()), Now(), [])
      ensures st.Failed? ==> Hard(st)
      ensures st.NoOp? <==> !Reclaimable(cfg, old(ram))
      ensures st.NoOp? ==> Now() == old(Now())
      ensures st.Ok? ==> Lower(ram, old(ram)) && outputSegs <= inputSegs
      ensures old(fs.Faultless()) && st.Failed? ==> st == Failed(CounterExhausted) && !old(StepCounters(fs.files, ram))
    {
      hide SmallStore, AllFitting, Sound, Items, Recoverable, Lower, Cuts, SafeInput, LayoutOk, HasLive, StartsAt, Worth,
        PlannedInput, Reached, Tidy, StepCounters, Inactive, Kept, SegmentBound;
      inputSegs, outputSegs := 0, 0;
      ghost var d, r, s := fs.files, ram, Now();
      KeptNone(cfg, s);
      StretchesNone(cfg.limit);
      StepStart(d, r, cfg.limit, durable, exact);
      if ram.ranges == [] { return NoOp, 0, 0; }
      var frontGen := ram.ranges[0].startGen;
      var hasLive := AnyLive(Range(frontGen, frontGen));
      if hasLive { return NoOp, 0, 0; }
      DeadFrontPlanned(d, cfg, r);
      ghost var before, input;
      st, inputSegs, outputSegs, before, input := CompactRange(Range(frontGen, frontGen), false);
      if st.Ok? {
        FrontStep(d, r, Range(frontGen, frontGen), before, input);
        FrontSafe(d, Gens(input), cfg.limit);
      }
      OneStepKept(s, st, []);
    }

    /** The result so far with one more step counted in. */
    static function Tallied(result: CompactResult, st: Status, stepInput: nat, stepOutput: nat): CompactResult {
      var r := result.(stepsRun := result.stepsRun + 1);
      match st
      case Failed(_) => r.(status := st)
      case NoOp => r.(noOps := r.noOps + 1)
      case Ok => r.(compactions := r.compactions + 1, inputSegments := r.inputSegments + stepInput,
                    outputSegments := r.outputSegments + stepOutput)
    }

    /** compactIdle: up to maxSteps compaction steps, ending at the first that fails or finds nothing to do. */
    method CompactIdle(maxSteps: nat) returns (result: CompactResult, ghost taken: seq<Stretch>)
      requires Valid()
      modifies this, fs
      ensures Valid() && Kept(cfg, old(Now()), Now(), taken) && |taken| == result.compactions
      ensures result.compactions > 0 && !result.status.Failed? ==> Lower(ram, old(ram))
      ensures result.compactions == 0 && !result.status.Failed? ==> Now() == old(Now())
      ensures !result.status.Failed? && result.compactions < maxSteps ==> NothingLeft(cfg, ram, true)
      ensures result.outputSegments <= result.inputSegments
      ensures old(ram).tailGen == 0 ==> result.compactions == 0 && !result.status.Failed?
      ensures result.stepsRun <= maxSteps && result.status != NoOp && (result.status.Failed? ==> Hard(result.status))
      ensures result.moreWorkLikely <==> !result.status.Failed? && result.compactions == maxSteps > 0
      ensures result.inputSegments == InputCount(taken)
      ensures old(fs.Faultless()) && result.status.Failed? ==> result.status == Failed(CounterExhausted)
    {
      hide Sound, Lower, Candidate, NothingLeft, Takes, StepCounters, Kept, Hard;
      ghost var s0 := Now();
      KeptNone(cfg, s0);
      result, taken := CompactResult(Ok, 0, 0, 0, 0, 0, false), [];
      var i := 0;
      while i < maxSteps
        invariant 0 <= i <= maxSteps
        invariant Valid() && Kept(cfg, s0, Now(), taken) && |taken| == i
        invariant result == CompactResult(Ok, i, i, 0, result.inputSegments, result.outputSegments, false)
        invariant result.outputSegments <= result.inputSegments == InputCount(taken)
        invariant s0.ram.tailGen == 0 ==> i == 0
        invariant if i > 0 then Lower(ram, s0.ram) else Now() == s0
        invariant old(fs.Faultless()) ==> fs.Faultless()
      {
        ghost var s1 := Now();
        var st, stepInput, stepOutput, step := CompactOneSegment(true);
        KeptJoin(cfg, s0, s1, Now(), taken, step);
        KeptFaultless(s1, step);
        InputCountMore(taken, step);
        taken := taken + step;
        result := Tallied(result, st, stepInput, stepOutput);
        if !st.Ok? { break; }
        if i > 0 { LowerJoin(s0.ram, s1.ram, ram); }
        i := i + 1;
      }
      result := result.(moreWorkLikely := !result.status.Failed? && result.noOps == 0 && result.compactions > 0);
    }

    lemma KeptFaultless(s: Snap, taken: seq<Stretch>)
      requires Kept(cfg, s, Now(), taken)
      ensures true !in s.faults ==> fs.Faultless()
    {
      hide Items, SmallStore, AllFitting, Tidy, Recoverable, AllSafe, AllGenuine;
    }

    /** compactFull: compact until no candidate is left. Each step lowers the measure, so this ends. */
    method CompactFull() returns (st: Status, ghost taken: seq<Stretch>)
      requires Valid()
      modifies this, fs
      ensures Valid() && Kept(cfg, old(Now()), Now(), taken)
      ensures st != NoOp && (st.Ok? ==> NothingLeft(cfg, ram, true))
      ensures old(ram).tailGen == 0 ==> Now() == old(Now())
      ensures old(fs.Faultless()) ==> st.Ok? || st == Failed(CounterExhausted)
    {
      hide Sound, Flatten, SumBytes, NothingLeft, Kept;
      ghost var s0 := Now();
      KeptNone(cfg, s0);
      st, taken := Ok, [];
      var going := true;
      while going
        invariant Valid() && Kept(cfg, s0, Now(), taken)
        invariant st != NoOp && (!going && st.Ok? ==> NothingLeft(cfg, ram, true))
        invariant s0.ram.tailGen == 0 ==> Now() == s0
        invariant old(fs.Faultless()) ==> fs.Faultless() && (st.Ok? || st == Failed(CounterExhausted))
        decreases going, TailRank(ram), SealedCount(ram), SealedTotal(ram)
      {
        ghost var s1 := Now();
        var result, step := CompactIdle(1);
        KeptJoin(cfg, s0, s1, Now(), taken, step);
        KeptFaultless(s1, step);
        taken := taken + step;
        st := result.status;
        going := !st.Failed? && result.compactions > 0;
      }
    }

    // The operations of the store.

    /** Make room under the cap on the store's size: compact until an event of n bytes fits with the reserve, or no step is
        left. Each step lowers the measure, so this ends. No more is compacted than that takes: just before the last step the event
        did not fit. */
    method Admit(n: nat) returns (st: Status, ghost taken: seq<Stretch>, ghost last: Snap)
      requires Valid()
      modifies this, fs
      ensures Valid() && Kept(cfg, old(Now()), Now(), taken)
      ensures st.Ok? ==> Fits(cfg, ram, n)
      ensures !st.Ok? ==> st.Failed?
      ensures st == Failed(QueueFull) ==> !Fits(cfg, ram, n) && NothingLeft(cfg, ram, false)
      ensures old(Fits(cfg, ram, n)) || old(ram).tailGen == 0 ==> Now() == old(Now()) && taken == []
      ensures old(Fits(cfg, ram, n)) ==> st.Ok?
      ensures taken != [] ==> Kept(cfg, old(Now()), last, taken[..|taken| - 1]) && !Fits(cfg, last.ram, n)
      ensures old(fs.Faultless()) ==> st.Ok? || st == Failed(QueueFull) || st == Failed(CounterExhausted)
    {
      hide Sound, Flatten, SumBytes, AppendGrowth, NothingLeft, Takes, Kept;
      ghost var s0 := Now();
      KeptNone(cfg, s0);
      taken, last := [], s0;
      if cfg.maxTotalBytes > 0 {
        while ram.total + AppendGrowth(cfg, ram, n) + cfg.drainReserveBytes > cfg.maxTotalBytes
          invariant Valid() && Kept(cfg, s0, Now(), taken)
          invariant Fits(cfg, s0.ram, n) || s0.ram.tailGen == 0 ==> Now() == s0 && taken == []
          invariant taken != [] ==> Kept(cfg, s0, last, taken[..|taken| - 1]) && !Fits(cfg, last.ram, n)
          invariant old(fs.Faultless()) ==> fs.Faultless()
          decreases TailRank(ram), SealedCount(ram), SealedTotal(ram)
        {
          ghost var s1 := Now();
          var compact, _, _, step := CompactOneSegment(false);
          KeptJoin(cfg, s0, s1, Now(), taken, step);
          KeptFaultless(s1, step);
          assert step == [] ==> taken + step == taken;
          if compact.Failed? { return compact, taken, last; }
          if compact.NoOp? { return Failed(QueueFull), taken, last; }
          assert (taken + step)[..|taken|] == taken;
          taken, last := taken + step, s1;
        }
      }
      st := Ok;
    }

    /** This moment. */
    ghost function Now(): Snap
      reads this, fs
    {
      Snap(fs.files, fs.faults, fs.trace, ram, durable, exact)
    }

    /** The byte counter, which is never too low, keeps clear of the cap by the reserve. */
    ghost predicate Capped()
      reads this, fs
    {
      cfg.maxTotalBytes != 0 ==> Total(fs.files) <= ram.total <= cfg.maxTotalBytes - cfg.drainReserveBytes
    }

    /** AppendEvent in a tail that has room for the event. */
    method AppendReady(e: Event) returns (st: Status)
      requires Valid() && ram.tailGen != 0 && Within(e, cfg.limit) && Permits(Contents(), e)
      requires ram.tailBytes + SizeOf(e) <= SegmentBound(cfg)
      requires !e.Pop? ==> SEGMENT_HEADER_BYTES + SizeOf(e) <= cfg.maxSegmentBytes
      modifies this, fs
      ensures Valid() && Held(cfg, old(Now()), Now(), [], st) && Crashable(cfg, old(Now()), Now())
      ensures Allowed(old(ram).records, e)
      ensures st.Ok? ==>
        && ram == AppendedRam(old(ram), e) && Contents() == Queued(old(Contents()), e)
        && durable == (old(durable) && old(Quiet(fs.files, ram, SizeOf(e), cfg.limit)))
      ensures !st.Ok? ==> st == Failed(WriteFailed) && Contents() == old(Contents()) && durable == old(durable)
      ensures old(fs.Faultless()) ==> st.Ok?
    {
      hide SmallStore, AllFitting, SegmentBound, Sound, Items, Recoverable, Allowed, Permits, Queued, EventItems, Inactive,
        AppendedRam, Tidy, Quiet;
      ghost var v := Contents();
      ItemsDecide(fs.files, ram.records, e);
      StretchesNone(cfg.limit);
      if AllFitting(cfg, v) { FittingKept(cfg, v, e); }
      if ram.tailGen != 0 { AppendedTail(ram, e); }
      st := AppendEvent(e);
    }

    /** Prepare the tail and append the event. */
    method PrepareAndAppend(e: Event) returns (st: Status)
      requires Valid() && Within(e, cfg.limit) && Permits(Contents(), e)
      requires !e.Pop? ==> SEGMENT_HEADER_BYTES + SizeOf(e) <= cfg.maxSegmentBytes
      modifies this, fs
      ensures Valid() && Held(cfg, old(Now()), Now(), [], st) && Crashable(cfg, old(Now()), Now())
      ensures st.Ok? ==> Contents() == Queued(old(Contents()), e) && Grew(cfg, old(ram), ram, SizeOf(e)) && ram.tailGen != 0
      ensures !st.Ok? ==> Hard(st) && Contents() == old(Contents())
      ensures st.Ok? && old(Fits(cfg, ram, SizeOf(e))) ==> Capped()
      ensures st.Ok? ==>
        durable == (old(durable) && if old(Due(cfg, ram, SizeOf(e))) then old(Tidied()) else old(Quiet(fs.files, ram, SizeOf(e), cfg.limit)))
      ensures old(fs.Faultless()) ==>
        if old(Ready(cfg, fs.files, ram, SizeOf(e))) then st.Ok? else Excused(old(fs.files), old(ram), st)
    {
      hide Held, Crashable, TailReady, Grew, SegmentBound, Sound, Items, Recoverable, Allowed, Permits, Queued, EventItems,
        AppendGrowth, Prepared, Fits, Winner, Inactive, AppendedRam, Tidy, Quiet, Due, Ready, Excused, Total, Advances;
      ghost var s0 := Now();
      ItemsDecide(fs.files, ram.records, e);
      BoundCovers(cfg, e);
      st := PrepareTail(SizeOf(e), e.sequence);
      if !st.Ok? { return; }
      PreparedTail(cfg, s0.ram, ram, SizeOf(e));
      ghost var s1 := Now();
      if Tidied() { TidyQuiet(fs.files, ram, SizeOf(e), cfg.limit); }
      st := AppendReady(e);
      StillThenHeld(cfg, s0, s1, Now(), st);
      if st.Ok? {
        AppendedAfter(cfg, fs.files, s0.ram, s1.ram, e, durable, exact);
      }
    }

    /** commitEnqueue. The caller passes the sequence behind the last live one. */
    method CommitEnqueue(sequence: u32, record: seq<byte>) returns (st: Status, ghost taken: seq<Stretch>)
      requires Valid()
      requires Contents() != [] ==> sequence as int == Contents()[|Contents()| - 1].sequence + 1
      modifies this, fs
      ensures Valid() && Held(cfg, old(Now()), Now(), taken, st) && Crashable(cfg, old(Now()), Now())
      ensures st.Ok? ==> Contents() == old(Contents()) + [Item(sequence, record)] && ram.tailGen != 0
      ensures !st.Ok? ==> st.Failed? && Contents() == old(Contents())
      ensures TooLarge(cfg, record) ==> st == Failed(RecordTooLarge) && Now() == old(Now())
      ensures !TooLarge(cfg, record) && sequence == 0xFFFF_FFFF ==> st == Failed(SequenceExhausted)
      ensures st == Failed(QueueFull) ==> Full(cfg, ram, ENQUEUE_OVERHEAD_BYTES + |record|)
      ensures st.Ok? ==> Capped() && ram.tailBytes <= cfg.maxSegmentBytes
      ensures old(Fits(cfg, ram, ENQUEUE_OVERHEAD_BYTES + |record|)) ==>
        && taken == [] && st != Failed(QueueFull)
        && (st.Ok? ==> Grew(cfg, old(ram), ram, ENQUEUE_OVERHEAD_BYTES + |record|))
      ensures old(ram).tailGen == 0 ==> taken == []
      ensures old(fs.Faultless() && Fits(cfg, ram, ENQUEUE_OVERHEAD_BYTES + |record|)) && !TooLarge(cfg, record) && sequence != 0xFFFF_FFFF ==>
        if old(Ready(cfg, fs.files, ram, ENQUEUE_OVERHEAD_BYTES + |record|)) then st.Ok? else Excused(old(fs.files), old(ram), st)
      ensures old(fs.Faultless() && SlotFree()) && !TooLarge(cfg, record) && sequence != 0xFFFF_FFFF ==>
        st.Ok? || st == Failed(QueueFull) || st == Failed(CounterExhausted) || st == Failed(RangeLimitExceeded)
    {
      hide SegmentBound, Grew, Sound, Items, Fits, AppendGrowth, Total, Winner, Inactive, Due, Ready, Quiet, Tidy, NothingLeft,
        Capped, Headroom, RangeRoom, Held, Crashable;
      ghost var s0 := Now();
      taken := [];
      HeldNone(cfg, s0, Failed(RecordTooLarge));
      HeldNone(cfg, s0, Failed(SequenceExhausted));
      if |record| > cfg.limit { return Failed(RecordTooLarge), taken; }
      if SEGMENT_HEADER_BYTES + ENQUEUE_OVERHEAD_BYTES + |record| > cfg.maxSegmentBytes { return Failed(RecordTooLarge), taken; }
      if sequence == 0xFFFF_FFFF { return Failed(SequenceExhausted), taken; }
      ghost var last;
      st, taken, last := Admit(ENQUEUE_OVERHEAD_BYTES + |record|);
      AfterAdmission(s0, taken, st);
      if !st.Ok? { return; }
      ghost var s1 := Now();
      st := PrepareAndAppend(Enqueue(sequence, record));
      KeptThenHeld(cfg, s0, s1, Now(), taken, [], st);
      if st.Ok? { TookWithin(cfg, s1.files, s1.ram, ram, ENQUEUE_OVERHEAD_BYTES + |record|); }
    }

    /** The store once room has been made. */
    lemma AfterAdmission(s: Snap, taken: seq<Stretch>, st: Status)
      requires Valid() && Kept(cfg, s, Now(), taken) && (s.ram.tailGen == 0 ==> Now() == s)
      ensures Inactive(s.files).Some? ==> SlotFree()
      ensures Held(cfg, s, Now(), taken, st) && Crashable(cfg, s, Now())
      ensures Contents() == Items(s.files, s.ram.records) && LayoutOk(fs.files, ram) && taken + [] == taken
      ensures (s.ram.tailGen == 0 ==> ram.tailGen == 0) && (true !in s.faults ==> fs.Faultless())
    {
      hide Sound, Items, SmallStore, AllFitting, Tidy, Recoverable, AllSafe, AllGenuine, Inactive, LayoutOk, Held, Crashable;
      SoundParts(fs.files, ram, cfg.limit, durable, exact);
      KeptHeld(cfg, s, Now(), taken, st);
    }

    /** commitPop: remove the front record, which must be the one expected. */
    method CommitPop(expectedSequence: u32) returns (st: Status)
      requires Valid()
      modifies this, fs
      ensures Valid() && Held(cfg, old(Now()), Now(), [], st) && Crashable(cfg, old(Now()), Now())
      ensures old(Contents() == [] || Contents()[0].sequence != expectedSequence) ==> st == Failed(InvalidIndex)
      ensures st.Ok? ==> old(Contents()) != [] && Contents() == old(Contents())[1..] && ram.tailGen != 0
      ensures !st.Ok? ==> Hard(st) && Contents() == old(Contents())
      ensures st.Ok? ==>
        durable == (old(durable) && if old(Due(cfg, ram, POP_EVENT_BYTES)) then old(Tidied())
                                    else old(Quiet(fs.files, ram, POP_EVENT_BYTES, cfg.limit)))
      ensures st.Ok? ==>
        && Grew(cfg, old(ram), ram, POP_EVENT_BYTES)
        && (ram.tailBytes <= cfg.maxSegmentBytes || ram.tailBytes == SEGMENT_HEADER_BYTES + POP_EVENT_BYTES)
      ensures old(fs.Faultless() && Contents() != [] && Contents()[0].sequence == expectedSequence) ==>
        if old(Ready(cfg, fs.files, ram, POP_EVENT_BYTES)) then st.Ok? else Excused(old(fs.files), old(ram), st)
    {
      hide SegmentBound, Grew, Sound, Items, Fits, AppendGrowth, Winner, Inactive, Due, Ready, Quiet, Tidy, Excused, Held,
        Crashable, Total;
      HeldNone(cfg, Now(), Failed(InvalidIndex));
      if ram.records != [] {
        ItemSequenceOf(fs.files, ram.records, 0);
      }
      if ram.records == [] || ram.records[0].sequence != expectedSequence { return Failed(InvalidIndex); }
      SoundParts(fs.files, ram, cfg.limit, durable, exact);
      ghost var d, r := fs.files, ram;
      st := PrepareAndAppend(Pop(ram.records[0].sequence));
      if st.Ok? { TookWithin(cfg, d, r, ram, POP_EVENT_BYTES); }
    }

    /** rewriteRecord: replace the payload of a live record. */
    method RewriteRecord(sequence: u32, record: seq<byte>) returns (st: Status, ghost taken: seq<Stretch>)
      requires Valid()
      modifies this, fs
      ensures Valid() && Held(cfg, old(Now()), Now(), taken, st) && Crashable(cfg, old(Now()), Now())
      ensures st.Ok? ==>
        var k := FindItem(old(Contents()), sequence);
        k < |old(Contents())| && Contents() == old(Contents())[k := Item(sequence, record)] && ram.tailGen != 0
      ensures !st.Ok? ==> st.Failed? && Contents() == old(Contents())
      ensures TooLarge(cfg, record) ==> st == Failed(RecordTooLarge) && Now() == old(Now())
      ensures st == Failed(QueueFull) ==> Full(cfg, ram, ENQUEUE_OVERHEAD_BYTES + |record|)
      ensures st.Ok? ==> Capped() && ram.tailBytes <= cfg.maxSegmentBytes
      ensures old(Fits(cfg, ram, ENQUEUE_OVERHEAD_BYTES + |record|)) ==>
        && taken == [] && st != Failed(QueueFull)
        && (st.Ok? ==> Grew(cfg, old(ram), ram, ENQUEUE_OVERHEAD_BYTES + |record|))
      ensures old(ram).tailGen == 0 ==> taken == []
      ensures old(fs.Faultless() && Fits(cfg, ram, ENQUEUE_OVERHEAD_BYTES + |record|)) && !TooLarge(cfg, record) ==>
        if FindItem(old(Contents()), sequence) == |old(Contents())| then st == Failed(InvalidRecord)
        else if old(Ready(cfg, fs.files, ram, ENQUEUE_OVERHEAD_BYTES + |record|)) then st.Ok?
        else Excused(old(fs.files), old(ram), st)
      ensures old(fs.Faultless() && SlotFree()) && !TooLarge(cfg, record) ==>
        st.Ok? || st == Failed(QueueFull) || st == Failed(CounterExhausted) || st == Failed(RangeLimitExceeded)
        || (st == Failed(InvalidRecord) && FindItem(old(Contents()), sequence) == |old(Contents())|)
    {
      hide SegmentBound, Grew, Sound, Items, Fits, AppendGrowth, Total, Winner, Inactive, Due, Ready, Quiet, Tidy, NothingLeft,
        Capped, Headroom, RangeRoom, Held, Crashable, FindItem, FindRec, Permits, Queued;
      ghost var s0 := Now();
      taken := [];
      HeldNone(cfg, s0, Failed(RecordTooLarge));
      if |record| > cfg.limit { return Failed(RecordTooLarge), taken; }
      if SEGMENT_HEADER_BYTES + ENQUEUE_OVERHEAD_BYTES + |record| > cfg.maxSegmentBytes { return Failed(RecordTooLarge), taken; }
      ghost var last;
      st, taken, last := Admit(ENQUEUE_OVERHEAD_BYTES + |record|);
      AfterAdmission(s0, taken, st);
      AfterAdmission(s0, taken, Failed(InvalidRecord));
      if !st.Ok? { return; }
      ghost var s1 := Now();
      RewritePermitted(fs.files, ram.records, sequence, record);
      var i := IndexOf(sequence);
      if i == |ram.records| { return Failed(InvalidRecord), taken; }
      st := PrepareAndAppend(Rewrite(sequence, record));
      KeptThenHeld(cfg, s0, s1, Now(), taken, [], st);
      if st.Ok? { TookWithin(cfg, s1.files, s1.ram, ram, ENQUEUE_OVERHEAD_BYTES + |record|); }
    }

    /** readIndex: the sequences of the first record and behind the last, and the number of records. */
    method ReadIndex() returns (head: u32, tail: u32, count: nat)
      requires Valid()
      ensures count == |Contents()|
      ensures count > 0 ==> tail == head + count && forall i | 0 <= i < count :: Contents()[i].sequence == head + i
      ensures count == 0 ==> head == tail == ram.nextSeq
    {
      hide Sound, ItemOf;
      if ram.records == [] { return ram.nextSeq, ram.nextSeq, 0; }
      IndexInOrder(fs.files, ram, cfg.limit, durable, exact);
      var last := ram.records[|ram.records| - 1];
      return ram.records[0].sequence, last.sequence + 1, |ram.records|;
    }

    /** readRecord: the payload of a live record, found by its distance from the front. */
    method ReadRecord(sequence: u32) returns (st: Status, out: seq<byte>)
      requires Valid()
      ensures Contents() == [] ==> st == Failed(QueueEmpty)
      ensures Contents() != [] && FindItem(Contents(), sequence) == |Contents()| ==> st == Failed(InvalidRecord)
      ensures FindItem(Contents(), sequence) < |Contents()| ==> st.Ok? && out == Contents()[FindItem(Contents(), sequence)].payload
    {
      hide Sound, ItemOf, FindItem;
      out := [];
      if ram.records == [] {
        FindBounds(Contents(), sequence, 0);
        return Failed(QueueEmpty), out;
      }
      IndexInOrder(fs.files, ram, cfg.limit, durable, exact);
      var head := ram.records[0].sequence;
      FindBounds(Contents(), sequence, head);
      if sequence < head || sequence >= head + |ram.records| { return Failed(InvalidRecord), out; }
      var sr := ram.records[sequence - head];
      ReadInside(fs.files, ram, cfg.limit, durable, exact, sequence - head);
      out := fs.files[Segment(sr.gen)][sr.offset..sr.offset + sr.length];
      st := Ok;
    }

    // Mounting.

    /** readManifest. */
    method ReadManifest() returns (m: Option<Manifest>)
      ensures m == Winner(fs.files)
    {
      hide ReadSlot, ChooseWinning;
      var a := ProbeSlot(SlotA);
      var b := ProbeSlot(SlotB);
      m := ChooseWinning(a, b);
    }

    /** The number of generations a manifest lists, computed before they are expanded. */
    static method CountGenerations(m: Manifest) returns (totalGens: int)
      ensures totalGens == SpanTotal(m.ranges) + (if m.tailGeneration != 0 then 1 else 0)
    {
      totalGens := if m.tailGeneration != 0 then 1 else 0;
      var i := 0;
      while i < |m.ranges|
        invariant 0 <= i <= |m.ranges|
        invariant totalGens + SpanTotal(m.ranges[i..]) == SpanTotal(m.ranges) + (if m.tailGeneration != 0 then 1 else 0)
      {
        totalGens := totalGens + (m.ranges[i].endGen - m.ranges[i].startGen + 1);
        assert m.ranges[i..][1..] == m.ranges[i + 1..];
        i := i + 1;
      }
    }

    /** One past every segment file there is, in 32-bit arithmetic, so that no generation is used twice. */
    static method NextUnused(gens: seq<u32>, nextGen: u32) returns (next: u32)
      ensures next >= nextGen
      ensures forall g | g in gens && g < 0xFFFF_FFFF :: g < next
    {
      next := nextGen;
      var i := 0;
      while i < |gens|
        invariant 0 <= i <= |gens|
        invariant next >= nextGen
        invariant forall g | g in gens[..i] && g < 0xFFFF_FFFF :: g < next
      {
        var after: u32 := ((gens[i] as int) + 1) % 0x1_0000_0000;
        if after > next {
          next := after;
        }
        assert gens[..i + 1] == gens[..i] + [gens[i]];
        i := i + 1;
      }
      assert gens[..i] == gens;
    }

    /** Scan one listed segment. What a crash left behind the last whole event of the last segment is cut off, where that call
        does not fail; anything wrong elsewhere is an error. */
    method ScanOne(g: u32, isLast: bool, records: seq<Rec>, nextSeq: u32, affected: set<u32>, ghost rs: seq<Entry>)
      returns (ok: bool, records': seq<Rec>, nextSeq': u32, affected': set<u32>, end: nat)
      requires records == StripAll(rs)
      modifies fs
      ensures ok <==> SegmentAccepted(old(fs.files), g, isLast, cfg.limit)
      ensures ok ==>
        && var s := SegmentScan(old(fs.files), g, cfg.limit);
        && records' == StripAll(ReplayFrom(rs, s.events)) && nextSeq' == NextSequence(nextSeq, s.events)
        && affected' == affected + (if isLast then Touched(rs, s.events) else {})
        && end == s.end
      ensures !isLast || !ok ==> fs.files == old(fs.files) && fs.trace == old(fs.trace)
      ensures ok && isLast ==>
        (fs.files == TailCut(old(fs.files), [g], cfg.limit) || (fs.files == old(fs.files) && !old(fs.Faultless())))
        && CutTrace(old(fs.files), [g], cfg.limit, old(fs.trace), fs.trace)
      ensures old(fs.Faultless()) ==> fs.Faultless()
      ensures old(SmallFiles()) ==> SmallFiles()
    {
      hide FileSystem.Small, ReplayFrom, ScanFrom, HeaderNames, Touched, NextSequence, StripAll;
      records', nextSeq', affected', end := records, nextSeq, affected, 0;
      var name := Segment(g);
      if name !in fs.files || |fs.files[name]| < SEGMENT_HEADER_BYTES || |fs.files[name]| > MAX_REPLAY_SEGMENT_BYTES
         || !HeaderNames(fs.files[name], g) {
        return false, records', nextSeq', affected', end;
      }
      var b := fs.files[name];
      CleanEnd(b, SEGMENT_HEADER_BYTES, g, cfg.limit);
      var corrupt;
      records', nextSeq', affected', end, corrupt := ScanEvents(b, g, isLast, cfg.limit, records, nextSeq, affected, rs);
      if corrupt && isLast {
        corrupt := false;
      }
      if corrupt { return false, records', nextSeq', affected', end; }
      if end < |b| {
        if !isLast { return false, records', nextSeq', affected', end; }
        var cut := fs.Resize(name, end);
      } else {
        assert b[..end] == b && old(fs.files)[name := b] == old(fs.files);
      }
      ok := true;
    }

    /** Scan the listed segments in replay order. */
    method ScanActive(gens: seq<u32>) returns (ok: bool, records: seq<Rec>, nextSeq: u32, affected: set<u32>, tailBytes: nat)
      modifies fs
      ensures ok <==> SegmentsAccepted(old(fs.files), gens, cfg.limit)
      ensures ok ==> Found(old(fs.files), gens, cfg.limit, records, nextSeq, affected)
      ensures ok ==> tailBytes == if gens == [] then 0 else SegmentScan(old(fs.files), gens[|gens| - 1], cfg.limit).end
      ensures ok ==>
        (fs.files == TailCut(old(fs.files), gens, cfg.limit) || (fs.files == old(fs.files) && !old(fs.Faultless())))
        && CutTrace(old(fs.files), gens, cfg.limit, old(fs.trace), fs.trace)
      ensures !ok ==> fs.files == old(fs.files) && fs.trace == old(fs.trace)
      ensures old(fs.Faultless()) ==> fs.Faultless()
      ensures old(SmallFiles()) ==> SmallFiles()
    {
      hide FileSystem.Small, Replay, SegmentScan, SegmentAccepted, Touched, NextSequence, LogOf, StripAll, TailCut, CutTrace;
      ghost var d := fs.files;
      records, nextSeq, affected, tailBytes := [], 0, {}, 0;
      ghost var now: seq<Entry> := [];
      ScanStart(d, gens, cfg.limit, fs.trace);
      ok := true;
      var i := 0;
      while i < |gens|
        invariant 0 <= i <= |gens|
        invariant i < |gens| || gens == [] ==> fs.files == d && fs.trace == old(fs.trace) && affected == {}
        invariant old(SmallFiles()) ==> SmallFiles()
        invariant old(fs.Faultless()) ==> fs.Faultless()
        invariant forall k | 0 <= k < i :: SegmentAccepted(d, gens[k], k + 1 == |gens|, cfg.limit)
        invariant now == Replay(LogOf(d, gens[..i], cfg.limit)) && records == StripAll(now)
        invariant nextSeq == NextSequence(0, LogOf(d, gens[..i], cfg.limit))
        invariant i == |gens| > 0 ==>
          && affected == Touched(Replay(LogOf(d, gens[..i - 1], cfg.limit)), SegmentScan(d, gens[i - 1], cfg.limit).events)
          && tailBytes == SegmentScan(d, gens[i - 1], cfg.limit).end
          && (fs.files == TailCut(d, [gens[i - 1]], cfg.limit) || (fs.files == d && !old(fs.Faultless())))
          && CutTrace(d, [gens[i - 1]], cfg.limit, old(fs.trace), fs.trace)
        invariant i == |gens| == 0 ==> tailBytes == 0
      {
        ReplayMore(d, gens, i, cfg.limit);
        ok, records, nextSeq, affected, tailBytes := ScanOne(gens[i], i + 1 == |gens|, records, nextSeq, affected, now);
        if !ok { return; }
        now := ReplayFrom(now, SegmentScan(d, gens[i], cfg.limit).events);
        i := i + 1;
      }
      assert gens[..i] == gens;
      CutLast(d, gens, cfg.limit, old(fs.trace), fs.trace);
    }

    /** The sizes of the segment files, one by one and in sum. */
    method SumSegments(gens: seq<u32>) returns (total: int, sealedBytes: map<u32, nat>)
      requires Listing(fs.files, gens)
      ensures Summed(fs.files, gens, total, sealedBytes)
    {
      hide Total, Without;
      total, sealedBytes := 0, map[];
      WithoutNone(fs.files);
      assert gens[..0] == [];
      var i := 0;
      while i < |gens|
        invariant 0 <= i <= |gens|
        invariant forall k | 0 <= k < i :: gens[k] in sealedBytes && sealedBytes[gens[k]] == |fs.files[Segment(gens[k])]|
        invariant total + Total(Without(fs.files, gens[..i])) == Total(fs.files)
      {
        var size := |fs.files[Segment(gens[i])]|;
        WithoutMore(fs.files, gens[..i], gens[i]);
        assert gens[..i + 1] == gens[..i] + [gens[i]];
        total := total + size;
        sealedBytes := sealedBytes[gens[i] := size];
        i := i + 1;
      }
      assert gens[..i] == gens;
    }

    /** cleanupOneDanglingSegment: remove one segment file that the manifest does not list, if there is one. */
    method CleanupOneDangling()
      modifies this, fs
      ensures durable == old(durable) && exact == old(exact)
      ensures ram == old(ram).(total := ram.total, sealedBytes := ram.sealedBytes)
      ensures fs.files == old(fs.files) || exists g: u32 :: Dangling(old(fs.files), ram.gens, g) && fs.files == old(fs.files) - {Segment(g)}
      ensures old(fs.Faultless()) && fs.files == old(fs.files) ==> forall g: u32 :: !Dangling(fs.files, ram.gens, g)
      ensures old(Valid() && ram.tailGen != 0 && Counted(fs.files, ram)) ==>
        && Valid() && Contents() == old(Contents())
        && (durable ==> Recoverable(old(fs.trace), fs.trace, cfg.limit, Contents(), Contents()))
        && (old(Tidied()) ==> Tidied())
      ensures old(fs.trace) <= fs.trace
      ensures old(fs.Faultless()) ==> fs.Faultless()
      ensures old(SmallFiles()) ==> SmallFiles()
    {
      hide FileSystem.Small, Sound, Items, Recoverable, CrashSafe, Tidy, Total;
      ghost var d, t, v := fs.files, fs.trace, Contents();
      RecoverableNone(t, cfg.limit, v, v);
      var names := fs.ListFiles();
      var i := 0;
      while i < |names| && !(names[i].Segment? && names[i].gen !in ram.gens)
        invariant 0 <= i <= |names|
        invariant forall k | 0 <= k < i :: !(names[k].Segment? && names[k].gen !in ram.gens)
      {
        i := i + 1;
      }
      if i == |names| {
        forall g: u32 ensures !Dangling(fs.files, ram.gens, g) {
          if Segment(g) in fs.files { assert Segment(g) in names; }
        }
        return;
      }
      assert names[i] in names;
      var g := names[i].gen;
      assert names[i] == Segment(g);
      var size := |fs.files[Segment(g)]|;
      assert Dangling(d, ram.gens, g);
      if Valid() && ram.tailGen != 0 && Counted(fs.files, ram) {
        RemovedState(d, ram, g, cfg.limit, durable, exact) by { ContentOf(d, g); }
      }
      var removed := fs.Remove(Segment(g));
      if removed {
        ram := ram.(total := ram.total - size, sealedBytes := ram.sealedBytes - {g});
        RecoverableOne(t, Write(d, Op.Remove(Segment(g))), cfg.limit, v);
      }
    }

    /** A mount with neither manifest nor segments: an empty store. */
    method MountBlank()
      requires Winner(fs.files).None? && NoSegments(fs.files) && ram == UNMOUNTED
      modifies this
      ensures Valid() && exact && Contents() == [] && ram.tailGen == 0
      ensures durable == Blank(fs.files)
      ensures ram == UNMOUNTED.(total := ram.total, slotA := ram.slotA, slotB := ram.slotB, sealedBytes := ram.sealedBytes)
    {
      hide Sound, Items, Winner, Total, DiskView, Blank, NoSegments, Counted, Summed, Listing;
      ListingEmpty(fs.files);
      var total, sealedBytes := SumSegments([]);
      var a := if SlotA in fs.files then |fs.files[SlotA]| else 0;
      var b := if SlotB in fs.files then |fs.files[SlotB]| else 0;
      ram := ram.(total := total + a + b, slotA := a, slotB := b, sealedBytes := sealedBytes);
      SummedCounted(fs.files, [], total, sealedBytes, ram);
      BlankSound(fs.files, ram, cfg.limit);
      durable, exact := Blank(fs.files), true;
    }

    /** The fields once the scan is through. */
    method TakeOver(ranges: seq<Range>, sorted: seq<u32>, gens: seq<u32>, next: u32, records: seq<Rec>, nextSeq: u32, affected: set<u32>,
                    tailBytes: nat)
      requires Listing(fs.files, sorted) && ram == UNMOUNTED
      modifies this`ram
      ensures Counted(fs.files, ram)
      ensures ram == Ram(if gens == [] then 0 else gens[|gens| - 1], tailBytes, ram.total, next, nextSeq, ram.sealedBytes, None, 0,
                         ram.slotA, ram.slotB, gens, ranges, records, affected)
    {
      hide Valid, Total, Counted, Summed, Listing;
      var total, sealedBytes := SumSegments(sorted);
      var a := if SlotA in fs.files then |fs.files[SlotA]| else 0;
      var b := if SlotB in fs.files then |fs.files[SlotB]| else 0;
      ram := Ram(if gens == [] then 0 else gens[|gens| - 1], tailBytes, total + a + b, next, nextSeq, sealedBytes, None, 0, a, b,
                 gens, ranges, records, affected);
      SummedCounted(fs.files, sorted, total, sealedBytes, ram);
    }

    /** The scan by the winning manifest, before any leftover is removed. */
    method Rebuild(m: Manifest, sorted: seq<u32>) returns (st: Status)
      requires Winner(fs.files) == Some(m) && Listing(fs.files, sorted) && ram == UNMOUNTED
      modifies this, fs
      ensures st.Ok? || st == Failed(DataCorrupt)
      ensures st.Ok? <==> Mountable(old(fs.files), cfg.limit)
      ensures st.Ok? ==> MountedFields(old(fs.files), ram, cfg.limit) && Counted(fs.files, ram)
      ensures st.Ok? && Coherent(old(fs.files), cfg.limit) ==>
        && Valid() && durable && Contents() == DiskView(old(fs.files), cfg.limit)
        && Recoverable(old(fs.trace), fs.trace, cfg.limit, Contents(), Contents())
        && ram.tailGen != 0
        && (old(forall g: u32 | Segment(g) in fs.files :: g < 0xFFFF_FFFF) ==> exact)
      ensures !st.Ok? ==> fs.files == old(fs.files) && fs.trace == old(fs.trace)
      ensures old(fs.trace) <= fs.trace
      ensures old(fs.Faultless()) ==> fs.Faultless()
      ensures st.Ok? && Coherent(old(fs.files), cfg.limit) && old(fs.Faultless()) ==> Tidied()
      ensures old(SmallFiles()) ==> SmallFiles()
    {
      hide SmallFiles, FileSystem.Small, Tidy, Sound, Items, Recoverable, Winner, ActiveOf, SegmentsAccepted, Found, TailCut,
        CutTrace, Summed, Listing, Total, Coherent, DiskView, SpanTotal, Counted, MountedFields, Mounted, SegmentScan;
      ghost var d, t := fs.files, fs.trace;
      var totalGens := CountGenerations(m);
      if totalGens > MAX_TOTAL_GENERATIONS { return Failed(DataCorrupt); }
      var gens := Expand(m);
      var next := NextUnused(sorted, m.nextGeneration);
      var ok, records, nextSeq, affected, tailBytes := ScanActive(gens);
      if !ok { return Failed(DataCorrupt); }
      ListingKept(d, sorted, gens, cfg.limit);
      CutExtends(d, gens, cfg.limit, t, fs.trace);
      TakeOver(m.ranges, sorted, gens, next, records, nextSeq, affected, tailBytes);
      MountedRight(d, m, ram, cfg.limit);
      ListingBelow(fs.files, sorted, next);
      if Coherent(d, cfg.limit) {
        MountedSound(d, fs.files, ram, cfg.limit);
        CutSafe(d, m, cfg.limit, t, fs.trace);
        durable, exact := true, forall g: u32 | Segment(g) in fs.files :: g < ram.nextGen;
      }
      st := Ok;
    }

    /** A mount by the winning manifest. */
    method MountManifest(m: Manifest, sorted: seq<u32>) returns (st: Status)
      requires Winner(fs.files) == Some(m) && Listing(fs.files, sorted) && ram == UNMOUNTED
      modifies this, fs
      ensures st.Ok? || st == Failed(DataCorrupt)
      ensures st.Ok? <==> Mountable(old(fs.files), cfg.limit)
      ensures st.Ok? ==> MountedFields(old(fs.files), ram, cfg.limit)
      ensures st.Ok? && Coherent(old(fs.files), cfg.limit) ==>
        && Valid() && durable && Contents() == DiskView(old(fs.files), cfg.limit) == DiskView(fs.files, cfg.limit)
        && Recoverable(old(fs.trace), fs.trace, cfg.limit, Contents(), Contents())
        && ram.tailGen != 0
        && (old(forall g: u32 | Segment(g) in fs.files :: g < 0xFFFF_FFFF) ==> exact)
      ensures !st.Ok? ==> fs.files == old(fs.files) && fs.trace == old(fs.trace)
      ensures old(fs.trace) <= fs.trace
      ensures old(fs.Faultless()) ==> fs.Faultless()
      ensures st.Ok? && Coherent(old(fs.files), cfg.limit) && old(fs.Faultless()) ==> Tidied()
      ensures old(SmallFiles()) ==> SmallFiles()
    {
      hide FileSystem.Small, Tidy, Sound, Items, Recoverable, Winner, Listing, Coherent, DiskView, Counted, MountedFields,
        Mountable;
      ghost var d, t := fs.files, fs.trace;
      st := Rebuild(m, sorted);
      if !st.Ok? { return; }
      ghost var t1, r, v := fs.trace, ram, Contents();
      CleanupOneDangling();
      MountedSame(d, r, ram, cfg.limit);
      if Coherent(d, cfg.limit) {
        SoundParts(fs.files, ram, cfg.limit, durable, exact);
        RecoverableJoin(t, t1, fs.trace, cfg.limit, v, v);
      }
    }

    /** mount: rebuild everything in RAM from the files. A coherent store mounts to exactly the queue its files hold, whatever
        crash left them as they are. */
    method Mount() returns (st: Status)
      modifies this, fs
      ensures st.Ok? || st == Failed(DataCorrupt)
      ensures st.Ok? <==> Mountable(old(fs.files), cfg.limit)
      ensures st.Ok? && old(Initialised()) ==> MountedFields(old(fs.files), ram, cfg.limit)
      ensures st.Ok? && Coherent(old(fs.files), cfg.limit) ==>
        && Valid() && durable && Contents() == DiskView(old(fs.files), cfg.limit) == DiskView(fs.files, cfg.limit)
        && Recoverable(old(fs.trace), fs.trace, cfg.limit, Contents(), Contents())
        && (ram.tailGen != 0 <==> old(Initialised()))
        && (old(forall g: u32 | Segment(g) in fs.files :: g < 0xFFFF_FFFF) ==> exact)
      ensures st.Ok? && !old(Initialised()) ==>
        && Valid() && exact && Contents() == [] && fs.files == old(fs.files)
        && ram == UNMOUNTED.(total := ram.total, slotA := ram.slotA, slotB := ram.slotB, sealedBytes := ram.sealedBytes)
      ensures !st.Ok? ==> fs.files == old(fs.files) && fs.trace == old(fs.trace)
      ensures old(fs.trace) <= fs.trace
      ensures old(fs.Faultless()) ==> fs.Faultless()
      ensures st.Ok? && Coherent(old(fs.files), cfg.limit) && old(fs.Faultless()) ==> Tidied()
      ensures old(SmallFiles()) ==> SmallFiles()
    {
      hide FileSystem.Small, Sound, Items, Recoverable, Winner, Flatten, SegmentsAccepted, Found, TailCut, CutTrace, Summed,
        Listing, Total, Coherent, DiskView, SpanTotal, MountedFields;
      ghost var d := fs.files;
      RecoverableNone(fs.trace, cfg.limit, [], []);
      durable, exact := false, false;
      var sorted := ListSegments(fs);
      ListingNone(d, sorted);
      ram := UNMOUNTED;
      var manifest := ReadManifest();
      if manifest.None? {
        if sorted != [] { return Failed(DataCorrupt); }
        MountBlank();
        BlankCoherent(d, cfg.limit);
        st := Ok;
      } else {
        st := MountManifest(manifest.value, sorted);
      }
    }
  }
}