/** The queue on top of the store: a first-in first-out list of byte strings. */
module Queues {
  import opened Bytes
  import opened Codec
  import opened LogReplay
  import opened Disk
  import opened Coherence
  import opened Session
  import opened Slots
  import opened CompactionStep
  import opened Selection
  import opened Store

  function Payloads(v: seq<Item>): (p: seq<seq<byte>>)
    ensures |p| == |v|
  {
    seq(|v|, i requires 0 <= i < |v| => v[i].payload)
  }

  lemma PayloadsPush(v: seq<Item>, x: Item)
    ensures Payloads(v + [x]) == Payloads(v) + [x.payload]
  {
  }

  lemma PayloadAt(v: seq<Item>, i: nat)
    requires i < |v|
    ensures Payloads(v)[i] == v[i].payload
  {
  }

  lemma PayloadsFrom(v: seq<Item>, k: nat)
    requires k <= |v|
    ensures Payloads(v[k..]) == Payloads(v)[k..]
  {
  }

  lemma PayloadsSet(v: seq<Item>, k: nat, x: Item)
    requires k < |v|
    ensures Payloads(v[k := x]) == Payloads(v)[k := x.payload]
  {
  }

  /** The failures that a file system without faults leaves: a full store, an unacceptable record, or a limit of the format. */
  predicate Honest(st: Status) {
    || st == Failed(QueueFull) || st == Failed(RecordTooLarge) || st == Failed(SequenceExhausted)
    || st == Failed(RangeLimitExceeded) || st == Failed(CounterExhausted)
  }

  /** Each eviction was due: between the moments a and b the i-th one found a sound store with the records of v from number i on
      that was full for an event of n bytes. */
  ghost predicate Justified(cfg: Config, a: Snap, b: Snap, v: seq<Item>, when: seq<Snap>, n: nat) {
    && |when| <= |v| && a.trace <= b.trace
    && forall i | 0 <= i < |when| ::
         && a.trace <= when[i].trace <= b.trace
         && (0 < i ==> when[i - 1].trace <= when[i].trace)
         && Sound(when[i].files, when[i].ram, cfg.limit, when[i].durable, when[i].exact)
         && Items(when[i].files, when[i].ram.records) == v[i..]
         && Full(cfg, when[i].ram, n)
  }

  lemma JustifiedNone(cfg: Config, a: Snap, b: Snap, v: seq<Item>, n: nat)
    requires a.trace <= b.trace
    ensures Justified(cfg, a, b, v, [], n)
  {
  }

  lemma JustifiedCount(cfg: Config, a: Snap, b: Snap, v: seq<Item>, when: seq<Snap>, n: nat)
    requires Justified(cfg, a, b, v, when, n)
    ensures |when| <= |v|
  {
    hide Full, Sound, Items;
  }

  /** One more eviction, in the state b, after which the store is in the state c. */
  lemma JustifiedMore(cfg: Config, a: Snap, b: Snap, c: Snap, v: seq<Item>, when: seq<Snap>, n: nat)
    requires Justified(cfg, a, b, v, when, n) && |when| < |v| && b.trace <= c.trace
    requires Sound(b.files, b.ram, cfg.limit, b.durable, b.exact) && Items(b.files, b.ram.records) == v[|when|..] && Full(cfg, b.ram, n)
    ensures Justified(cfg, a, c, v, when + [b], n)
  {
    hide Full, Sound, Items;
  }

  /** The same evictions seen from an earlier moment and up to a later one. */
  lemma JustifiedWider(cfg: Config, a: Snap, b: Snap, c: Snap, d: Snap, v: seq<Item>, when: seq<Snap>, n: nat)
    requires Justified(cfg, b, c, v, when, n) && a.trace <= b.trace && c.trace <= d.trace
    ensures Justified(cfg, a, d, v, when, n)
  {
    hide Full, Sound, Items;
  }

  /** What to do when the store is full. */
  datatype FullQueuePolicy = RejectNewest | DropOldest

  class Queue {
    const store: AppendLogStore
    const policy: FullQueuePolicy

    // index_: the first sequence, the one behind the last, and the number of records.
    var head: u32
    var tail: u32
    var count: nat

    constructor (store: AppendLogStore, policy: FullQueuePolicy)
      ensures this.store == store && this.policy == policy
    {
      this.store, this.policy := store, policy;
      head, tail, count := 0, 0, 0;
    }

    ghost predicate Valid()
      reads store, store.fs
    {
      store.Valid()
    }

    /** The queue's contents, front first. */
    ghost function Contents(): seq<seq<byte>>
      reads store, store.fs
    {
      Payloads(store.Contents())
    }

    /** The cached index describes the store. */
    ghost predicate Indexed()
      reads this, store, store.fs
    {
      var v := store.Contents();
      && count == |v|
      && (v != [] ==> tail == head + count)
      && forall i | 0 <= i < |v| :: v[i].sequence == head + i
    }

    /** loadLatestIndex. */
    method LoadLatestIndex()
      requires Valid()
      modifies this
      ensures Indexed() && tail == NextSequence()
    {
      hide Sound, Items;
      head, tail, count := store.ReadIndex();
    }

    /** The sequence the next record gets. */
    ghost function NextSequence(): int
      reads store, store.fs
    {
      var v := store.Contents();
      if v == [] then store.ram.nextSeq else v[|v| - 1].sequence + 1
    }

    /** The record can be taken without any compaction. */
    ghost predicate Taken(record: seq<byte>)
      reads store, store.fs
    {
      && !TooLarge(store.cfg, record) && NextSequence() != 0xFFFF_FFFF
      && Fits(store.cfg, store.ram, ENQUEUE_OVERHEAD_BYTES + |record|)
    }

    /** enqueue. Under RejectNewest the record is appended or nothing changes. Under DropOldest the oldest records give way, as
        many as it takes, each only in a state in which the store was full; when even that fails, the ones given up stay gone. */
    method Enqueue(record: seq<byte>) returns (st: Status, ghost when: seq<Snap>, ghost taken: seq<Stretch>)
      requires Valid()
      modifies this, store, store.fs
      ensures Valid() && Held(store.cfg, old(store.Now()), store.Now(), taken, st)
      ensures Dropping(store.cfg, old(store.Now()), store.Now(), |when|)
      ensures Justified(store.cfg, old(store.Now()), store.Now(), old(store.Contents()), when, ENQUEUE_OVERHEAD_BYTES + |record|)
      ensures policy.RejectNewest? ==> when == []
      ensures st.Ok? ==> Contents() == old(Contents())[|when|..] + [record] && NextSequence() == old(NextSequence()) + 1
      ensures !st.Ok? ==> st.Failed? && Contents() == old(Contents())[|when|..]
      ensures |record| > store.cfg.limit ==> st == Failed(RecordTooLarge) && store.Now() == old(store.Now())
      ensures TooLarge(store.cfg, record) && (policy.RejectNewest? || old(Fits(store.cfg, store.ram, ENQUEUE_OVERHEAD_BYTES + |record|))) ==>
        st == Failed(RecordTooLarge) && store.Now() == old(store.Now())
      ensures st == Failed(QueueFull) ==>
        Full(store.cfg, store.ram, ENQUEUE_OVERHEAD_BYTES + |record|) && (policy.DropOldest? ==> Contents() == [])
      ensures st.Ok? ==> store.Capped() && store.ram.tailBytes <= store.cfg.maxSegmentBytes && store.ram.tailGen != 0
      ensures old(Fits(store.cfg, store.ram, ENQUEUE_OVERHEAD_BYTES + |record|)) ==>
        taken == [] && when == [] && (st.Ok? ==> Grew(store.cfg, old(store.ram), store.ram, ENQUEUE_OVERHEAD_BYTES + |record|))
      ensures old(store.ram.tailGen) == 0 ==> taken == []
      ensures old(store.fs.Faultless() && Taken(record)) ==>
        if old(Ready(store.cfg, store.fs.files, store.ram, ENQUEUE_OVERHEAD_BYTES + |record|)) then st.Ok?
        else Excused(old(store.fs.files), old(store.ram), st)
      ensures old(store.fs.Faultless() && store.SlotFree()) ==> st.Ok? || Honest(st)
    {
      hide Sound, Items, Fits, Payloads, NothingLeft, Inactive, Ready, Excused, Total, Grew, Held, Crashable, Dropping, Justified,
        Full, Headroom, RangeRoom, Reclaimable;
      ghost var v, s0 := store.Contents(), store.Now();
      when, taken := [], [];
      HeldNone(store.cfg, s0, Failed(RecordTooLarge));
      CrashDropping(store.cfg, s0, s0);
      JustifiedNone(store.cfg, s0, s0, v, ENQUEUE_OVERHEAD_BYTES + |record|);
      PayloadsFrom(v, 0);
      LoadLatestIndex();
      if |record| > store.cfg.limit { return Failed(RecordTooLarge), when, taken; }
      st, when, taken := CommitEvicting(tail, record);
      JustifiedCount(store.cfg, s0, store.Now(), v, when, ENQUEUE_OVERHEAD_BYTES + |record|);
      PayloadsFrom(v, |when|);
      if st.Ok? {
        PayloadsPush(v[|when|..], Item(tail, record));
        tail := tail + 1;
        count := count + 1;
      }
    }

    /** Write the record. Where the policy allows it, a dead front segment goes first, and then the oldest records one by one
        while the store is full. */
    method CommitEvicting(sequence: u32, record: seq<byte>) returns (st: Status, ghost when: seq<Snap>, ghost taken: seq<Stretch>)
      requires Valid() && Indexed() && sequence == tail
      modifies this, store, store.fs
      ensures Valid() && tail == old(tail) && Held(store.cfg, old(store.Now()), store.Now(), taken, st)
      ensures Dropping(store.cfg, old(store.Now()), store.Now(), |when|)
      ensures Justified(store.cfg, old(store.Now()), store.Now(), old(store.Contents()), when, ENQUEUE_OVERHEAD_BYTES + |record|)
      ensures |when| <= |old(store.Contents())|
      ensures policy.RejectNewest? ==> when == []
      ensures st.Ok? ==> store.Contents() == old(store.Contents())[|when|..] + [Item(sequence, record)] && sequence != 0xFFFF_FFFF
      ensures !st.Ok? ==> st.Failed? && store.Contents() == old(store.Contents())[|when|..]
      ensures TooLarge(store.cfg, record) && (policy.RejectNewest? || old(Fits(store.cfg, store.ram, ENQUEUE_OVERHEAD_BYTES + |record|))) ==>
        st == Failed(RecordTooLarge) && store.Now() == old(store.Now())
      ensures st == Failed(QueueFull) ==>
        Full(store.cfg, store.ram, ENQUEUE_OVERHEAD_BYTES + |record|) && (policy.DropOldest? ==> store.Contents() == [])
      ensures st.Ok? ==> store.Capped() && store.ram.tailBytes <= store.cfg.maxSegmentBytes && store.ram.tailGen != 0
      ensures old(Fits(store.cfg, store.ram, ENQUEUE_OVERHEAD_BYTES + |record|)) ==>
        taken == [] && when == [] && (st.Ok? ==> Grew(store.cfg, old(store.ram), store.ram, ENQUEUE_OVERHEAD_BYTES + |record|))
      ensures old(store.ram.tailGen) == 0 ==> taken == []
      ensures old(store.fs.Faultless() && Fits(store.cfg, store.ram, ENQUEUE_OVERHEAD_BYTES + |record|))
              && !TooLarge(store.cfg, record) && sequence != 0xFFFF_FFFF ==>
        if old(Ready(store.cfg, store.fs.files, store.ram, ENQUEUE_OVERHEAD_BYTES + |record|)) then st.Ok?
        else Excused(old(store.fs.files), old(store.ram), st)
      ensures old(store.fs.Faultless() && store.SlotFree()) ==> st.Ok? || Honest(st)
    {
      hide Sound, Items, Fits, NothingLeft, Inactive, Ready, Excused, Total, Headroom, RangeRoom, Grew, Held, Crashable, Dropping,
        Justified, Full, Kept, Reclaimable;
      ghost var v, s0, n := store.Contents(), store.Now(), ENQUEUE_OVERHEAD_BYTES + |record|;
      TailCommits();
      when, taken := [], [];
      assert v[0..] == v;
      var reclaim := RelievePressure(|record|);
      TailCommits();
      ghost var s1 := store.Now();
      KeptParts(store.cfg, s0, s1, []);
      KeptHeld(store.cfg, s0, s1, [], reclaim);
      CrashDropping(store.cfg, s0, s1);
      HeldParts(store.cfg, s0, s1, [], reclaim);
      JustifiedNone(store.cfg, s0, s1, v, n);
      if reclaim.Failed? { return reclaim, when, taken; }
      st, taken := store.CommitEnqueue(sequence, record);
      ghost var s2 := store.Now();
      KeptThenHeld(store.cfg, s0, s1, s2, [], taken, st);
      CrashDropping(store.cfg, s0, s2);
      assert [] + taken == taken;
      HeldParts(store.cfg, s0, s2, taken, st);
      JustifiedNone(store.cfg, s0, s2, v, n);
      if st == Failed(QueueFull) && policy.DropOldest? && count > 0 {
        ghost var steps;
        st, when, steps := EvictUntilTaken(sequence, record);
        HeldJoin(store.cfg, s0, s2, store.Now(), taken, steps, Failed(QueueFull), st);
        DroppingJoin(store.cfg, s0, s2, store.Now(), 0, |when|, taken, steps, Failed(QueueFull), st);
        JustifiedWider(store.cfg, s0, s2, store.Now(), store.Now(), v, when, n);
        taken := taken + steps;
      }
    }

    /** The store is full: drop the oldest records one by one until the new one is taken or none is left. */
    method EvictUntilTaken(sequence: u32, record: seq<byte>) returns (st: Status, ghost when: seq<Snap>, ghost taken: seq<Stretch>)
      requires Valid() && Indexed() && sequence == tail && count > 0
      requires Full(store.cfg, store.ram, ENQUEUE_OVERHEAD_BYTES + |record|)
      modifies this, store, store.fs
      ensures Valid() && tail == old(tail) && Held(store.cfg, old(store.Now()), store.Now(), taken, st)
      ensures (when == [] ==> !st.Ok?) && Dropping(store.cfg, old(store.Now()), store.Now(), |when|)
      ensures Justified(store.cfg, old(store.Now()), store.Now(), old(store.Contents()), when, ENQUEUE_OVERHEAD_BYTES + |record|)
      ensures |when| <= |old(store.Contents())|
      ensures st.Ok? ==> store.Contents() == old(store.Contents())[|when|..] + [Item(sequence, record)] && sequence != 0xFFFF_FFFF
      ensures !st.Ok? ==> st.Failed? && store.Contents() == old(store.Contents())[|when|..]
      ensures st == Failed(QueueFull) ==> Full(store.cfg, store.ram, ENQUEUE_OVERHEAD_BYTES + |record|) && store.Contents() == []
      ensures st.Ok? ==> store.Capped() && store.ram.tailBytes <= store.cfg.maxSegmentBytes && store.ram.tailGen != 0
      ensures old(store.fs.Faultless()) ==> st.Ok? || Honest(st)
    {
      hide Sound, Items, Fits, NothingLeft, Inactive, Ready, Excused, Total, Headroom, RangeRoom, Held, Crashable, Dropping,
        Justified, Full;
      ghost var v, s0, n := store.Contents(), store.Now(), ENQUEUE_OVERHEAD_BYTES + |record|;
      TailCommits();
      HeldNone(store.cfg, s0, Failed(QueueFull));
      CrashDropping(store.cfg, s0, s0);
      JustifiedNone(store.cfg, s0, s0, v, n);
      st, when, taken := Failed(QueueFull), [], [];
      assert v[0..] == v;
      while st == Failed(QueueFull) && count > 0
        invariant Valid() && |when| + count == |v| && tail == old(tail) && store.ram.tailGen != 0
        invariant Held(store.cfg, s0, store.Now(), taken, st) && Dropping(store.cfg, s0, store.Now(), |when|)
        invariant Justified(store.cfg, s0, store.Now(), v, when, n)
        invariant when == [] ==> st == Failed(QueueFull) && store.Now() == s0 && taken == []
        invariant st.Ok? ==> store.Contents() == v[|when|..] + [Item(sequence, record)] && sequence != 0xFFFF_FFFF
        invariant !st.Ok? ==> st.Failed? && store.Contents() == v[|when|..]
        invariant st == Failed(QueueFull) ==> Full(store.cfg, store.ram, n)
        invariant st.Ok? ==> store.Capped() && store.ram.tailBytes <= store.cfg.maxSegmentBytes
        invariant count > 0 ==> v[|when|].sequence == head && head + count == sequence
        invariant old(store.fs.Faultless()) ==> store.fs.Faultless() && (st.Ok? || Honest(st))
        decreases count
      {
        assert v[|when|..][1..] == v[|when| + 1..];
        ghost var s1 := store.Now();
        var gone;
        ghost var step;
        st, gone, step := EvictThenCommit(sequence, record);
        HeldJoin(store.cfg, s0, s1, store.Now(), taken, step, Failed(QueueFull), st);
        DroppingJoin(store.cfg, s0, s1, store.Now(), |when|, if gone then 1 else 0, taken, step, Failed(QueueFull), st);
        HeldParts(store.cfg, s1, store.Now(), step, st);
        taken := taken + step;
        if !gone {
          JustifiedWider(store.cfg, s0, s0, s1, store.Now(), v, when, n);
          return;
        }
        JustifiedMore(store.cfg, s0, s1, store.Now(), v, when, n);
        when := when + [s1];
      }
    }

    /** Give up the oldest record and try to write the new one again. */
    method EvictThenCommit(sequence: u32, record: seq<byte>) returns (st: Status, gone: bool, ghost taken: seq<Stretch>)
      requires Valid() && count > 0 && head + count == sequence
      requires |store.Contents()| == count && store.Contents()[0].sequence == head
      modifies this, store, store.fs
      ensures Valid() && tail == old(tail) && Held(store.cfg, old(store.Now()), store.Now(), taken, st)
      ensures gone && st.Ok? ==> store.Contents() == old(store.Contents())[1..] + [Item(sequence, record)] && sequence != 0xFFFF_FFFF
      ensures gone && !st.Ok? ==> st.Failed? && store.Contents() == old(store.Contents())[1..]
      ensures st == Failed(QueueFull) ==> Full(store.cfg, store.ram, ENQUEUE_OVERHEAD_BYTES + |record|)
      ensures st.Ok? ==> store.Capped() && store.ram.tailBytes <= store.cfg.maxSegmentBytes
      ensures gone ==> count == old(count) - 1 && head == old(head) + 1
      ensures gone && count > 0 ==> old(store.Contents())[1].sequence == head
      ensures !gone ==> Hard(st) && store.Contents() == old(store.Contents()) && taken == []
      ensures Dropping(store.cfg, old(store.Now()), store.Now(), if gone then 1 else 0)
      ensures store.ram.tailGen != 0 && old(store.ram.tailGen) != 0
      ensures old(store.fs.Faultless()) ==> store.fs.Faultless() && (st.Ok? || Honest(st))
    {
      hide Sound, Items, Fits, NothingLeft, Inactive, Ready, Total, Headroom, RangeRoom, Quiet, Due, Held, Crashable, Dropping,
        Staged, Full, Grew;
      InSequenceItems();
      TailCommits();
      taken := [];
      ghost var s0 := store.Now();
      st := EvictFront();
      TailCommits();
      HeldParts(store.cfg, s0, store.Now(), [], st);
      if st.Failed? {
        CrashDropping(store.cfg, s0, store.Now());
        return st, false, taken;
      }
      ghost var s1, st1 := store.Now(), st;
      st, taken := store.CommitEnqueue(sequence, record);
      HeldParts(store.cfg, s1, store.Now(), taken, st);
      HeldJoin(store.cfg, s0, s1, store.Now(), [], taken, st1, st);
      assert [] + taken == taken;
      PopDropping(store.cfg, s0, s1);
      CrashDropping(store.cfg, s1, store.Now());
      DroppingJoin(store.cfg, s0, s1, store.Now(), 1, 0, [], taken, st1, st);
      gone := true;
    }

    /** With records there is a tail, and a slot for the next manifest. */
    lemma TailCommits()
      requires Valid()
      ensures store.ram.tailGen != 0 ==> store.SlotFree()
      ensures store.Contents() != [] ==> store.ram.tailGen != 0
    {
      hide Items, RecordsOk, BytesOk, DurableOk, ExactOk, Winner, Inactive;
      SoundParts(store.fs.files, store.ram, store.cfg.limit, store.durable, store.exact);
    }

    lemma InSequenceItems()
      requires Valid()
      ensures forall i | 0 <= i < |store.Contents()| :: store.Contents()[i].sequence == store.Contents()[0].sequence + i
    {
      hide Sound, Items;
      IndexInOrder(store.fs.files, store.ram, store.cfg.limit, store.durable, store.exact);
    }

    /** Under DropOldest, near the byte budget, drop a dead front segment before any live record has to give way. */
    method RelievePressure(recordSize: nat) returns (st: Status)
      requires Valid() && Indexed()
      modifies store, store.fs
      ensures Valid() && Kept(store.cfg, old(store.Now()), store.Now(), [])
      ensures st.Failed? ==> Hard(st)
      ensures st.NoOp? <==>
        policy.RejectNewest? || old(Contents()) == []
        || old(Fits(store.cfg, store.ram, ENQUEUE_OVERHEAD_BYTES + recordSize) || !Reclaimable(store.cfg, store.ram))
      ensures st.NoOp? ==> store.Now() == old(store.Now())
      ensures old(store.fs.Faultless()) && st.Failed? ==> st == Failed(CounterExhausted)
    {
      hide Sound, Items, Fits, Reclaimable, Inactive, StepCounters, Kept;
      KeptNone(store.cfg, store.Now());
      st := NoOp;
      if policy.DropOldest? && count > 0 {
        var pressed := AdmissionPressure(recordSize);
        if pressed {
          var reclaim, _, _ := store.ReclaimDeadFrontSegment();
          st := reclaim;
        }
      }
    }

    /** appendWouldHitAdmissionPressure. */
    method AdmissionPressure(recordSize: nat) returns (pressed: bool)
      ensures pressed <==> !Fits(store.cfg, store.ram, ENQUEUE_OVERHEAD_BYTES + recordSize)
    {
      var growth := AppendGrowth(store.cfg, store.ram, ENQUEUE_OVERHEAD_BYTES + recordSize);
      pressed := store.cfg.maxTotalBytes > 0 && store.ram.total + growth + store.cfg.drainReserveBytes > store.cfg.maxTotalBytes;
    }

    /** evictFront: drop the oldest record. */
    method EvictFront() returns (st: Status)
      requires Valid() && count > 0 && head + count < 0x1_0000_0000
      requires store.Contents() != [] && store.Contents()[0].sequence == head
      modifies this, store, store.fs
      ensures Valid() && Held(store.cfg, old(store.Now()), store.Now(), [], st) && Crashable(store.cfg, old(store.Now()), store.Now())
      ensures st.Ok? ==> store.Contents() == old(store.Contents())[1..] && head == old(head) + 1 && count == old(count) - 1
      ensures !st.Ok? ==> Hard(st) && store.Contents() == old(store.Contents()) && head == old(head) && count == old(count)
      ensures tail == old(tail)
      ensures old(store.fs.Faultless()) ==>
        if old(Ready(store.cfg, store.fs.files, store.ram, POP_EVENT_BYTES)) then st.Ok?
        else Excused(old(store.fs.files), old(store.ram), st)
    {
      hide Grew, Sound, Items, Inactive, Ready, Excused, Quiet, Due, Held, Crashable;
      st := store.CommitPop(head);
      if st.Ok? {
        head := head + 1;
        count := count - 1;
      }
    }

    /** pop: remove the front record. */
    method Pop() returns (st: Status)
      requires Valid()
      modifies this, store, store.fs
      ensures Valid() && Held(store.cfg, old(store.Now()), store.Now(), [], st) && Crashable(store.cfg, old(store.Now()), store.Now())
      ensures old(Contents()) == [] ==> st == Failed(QueueEmpty) && store.Now() == old(store.Now())
      ensures st.Ok? ==> old(Contents()) != [] && Contents() == old(Contents())[1..]
      ensures st.Ok? ==> Grew(store.cfg, old(store.ram), store.ram, POP_EVENT_BYTES)
      ensures st.Ok? ==> NextSequence() == if Contents() == [] then old(store.ram.nextSeq) else old(NextSequence())
      ensures st.Ok? ==>
        store.ram.tailBytes <= store.cfg.maxSegmentBytes || store.ram.tailBytes == SEGMENT_HEADER_BYTES + POP_EVENT_BYTES
      ensures !st.Ok? ==> st.Failed? && Contents() == old(Contents())
      ensures old(store.fs.Faultless() && Contents() != []) ==>
        if old(Ready(store.cfg, store.fs.files, store.ram, POP_EVENT_BYTES)) then st.Ok?
        else Excused(old(store.fs.files), old(store.ram), st)
    {
      hide Grew, Sound, Items, Payloads, Inactive, Ready, Excused, Quiet, Due, Held, Crashable;
      ghost var v := store.Contents();
      HeldNone(store.cfg, store.Now(), Failed(QueueEmpty));
      LoadLatestIndex();
      if count == 0 { return Failed(QueueEmpty); }
      st := store.CommitPop(head);
      if st.Ok? {
        PayloadsFrom(v, 1);
        GrewNext(store.cfg, old(store.ram), store.ram, POP_EVENT_BYTES);
        head := head + 1;
        count := count - 1;
      }
    }

    /** peek: the front record. */
    method Peek() returns (st: Status, out: seq<byte>)
      requires Valid()
      modifies this
      ensures Contents() == [] ==> st == Failed(QueueEmpty)
      ensures Contents() != [] ==> st.Ok? && out == Contents()[0]
    {
      hide Sound, Items;
      LoadLatestIndex();
      if count == 0 { return Failed(QueueEmpty), []; }
      FindBounds(store.Contents(), head, head);
      st, out := store.ReadRecord(head);
    }

    /** rewriteFront: replace the front record's bytes. The record keeps its place. */
    method RewriteFront(record: seq<byte>) returns (st: Status, ghost taken: seq<Stretch>)
      requires Valid()
      modifies this, store, store.fs
      ensures Valid() && Held(store.cfg, old(store.Now()), store.Now(), taken, st) && Crashable(store.cfg, old(store.Now()), store.Now())
      ensures old(Contents()) == [] ==> st == Failed(QueueEmpty) && store.Now() == old(store.Now())
      ensures st.Ok? ==> old(Contents()) != [] && Contents() == [record] + old(Contents())[1..] && NextSequence() == old(NextSequence())
      ensures !st.Ok? ==> st.Failed? && Contents() == old(Contents())
      ensures old(Contents()) != [] && TooLarge(store.cfg, record) ==> st == Failed(RecordTooLarge) && store.Now() == old(store.Now())
      ensures st == Failed(QueueFull) ==> Full(store.cfg, store.ram, ENQUEUE_OVERHEAD_BYTES + |record|)
      ensures st.Ok? ==> store.Capped() && store.ram.tailBytes <= store.cfg.maxSegmentBytes
      ensures old(Fits(store.cfg, store.ram, ENQUEUE_OVERHEAD_BYTES + |record|)) ==>
        taken == [] && (st.Ok? ==> Grew(store.cfg, old(store.ram), store.ram, ENQUEUE_OVERHEAD_BYTES + |record|))
      ensures old(store.fs.Faultless() && Contents() != [] && Fits(store.cfg, store.ram, ENQUEUE_OVERHEAD_BYTES + |record|))
              && !TooLarge(store.cfg, record) ==>
        if old(Ready(store.cfg, store.fs.files, store.ram, ENQUEUE_OVERHEAD_BYTES + |record|)) then st.Ok?
        else Excused(old(store.fs.files), old(store.ram), st)
      ensures old(store.fs.Faultless() && store.SlotFree() && Contents() != []) ==> st.Ok? || Honest(st)
    {
      hide Grew, Sound, Items, Fits, Payloads, NothingLeft, Inactive, Ready, Excused, Total, FindItem, Held, Crashable, Full;
      ghost var v := store.Contents();
      HeldNone(store.cfg, store.Now(), Failed(QueueEmpty));
      HeldNone(store.cfg, store.Now(), Failed(RecordTooLarge));
      taken := [];
      LoadLatestIndex();
      if count == 0 { return Failed(QueueEmpty), taken; }
      if |record| > store.cfg.limit { return Failed(RecordTooLarge), taken; }
      FindBounds(v, head, head);
      st, taken := store.RewriteRecord(head, record);
      if st.Ok? {
        PayloadsSet(v, 0, Item(head, record));
      }
    }

    /** isCorruptRecordStatus. */
    static predicate CorruptRead(read: Status) {
      read == Failed(InvalidRecord) || read == Failed(CrcMismatch)
    }

    /** What dropFrontIfCorrupt does after reading the front record: only a record that reads as corrupt is popped. */
    method DropAfterRead(read: Status) returns (st: Status)
      requires Valid() && Indexed() && count > 0 && read != NoOp
      modifies this, store, store.fs
      ensures Valid()
      ensures !CorruptRead(read) ==>
        st == (if read.Ok? then Failed(InvalidArgument) else read)
        && store.ram == old(store.ram) && store.fs.files == old(store.fs.files) && store.fs.trace == old(store.fs.trace)
      ensures CorruptRead(read) && st.Ok? ==> Contents() == old(Contents())[1..] && count == old(count) - 1 && head == old(head) + 1
      ensures CorruptRead(read) && !st.Ok? ==> st.Failed? && Contents() == old(Contents())
      ensures CorruptRead(read) && old(store.fs.Faultless() && Ready(store.cfg, store.fs.files, store.ram, POP_EVENT_BYTES)) ==> st.Ok?
    {
      hide Sound, Items, Payloads, Recoverable, Ready, Excused, Tidy, Inactive, Quiet, Due;
      if read.Ok? { return Failed(InvalidArgument); }
      if !CorruptRead(read) { return read; }
      PayloadsFrom(store.Contents(), 1);
      st := store.CommitPop(head);
      if !st.Ok? { return; }
      head := head + 1;
      count := count - 1;
    }

    /** dropFrontIfCorrupt: in a valid store the front can always be read, so nothing is ever dropped. */
    method DropFrontIfCorrupt() returns (st: Status)
      requires Valid()
      modifies this, store, store.fs
      ensures Valid() && store.ram == old(store.ram) && store.fs.files == old(store.fs.files) && store.fs.trace == old(store.fs.trace)
      ensures st == Failed(if Contents() == [] then QueueEmpty else InvalidArgument)
    {
      hide Sound, Items;
      LoadLatestIndex();
      if count == 0 { return Failed(QueueEmpty); }
      FindBounds(store.Contents(), head, head);
      var read, ignored := store.ReadRecord(head);
      st := DropAfterRead(read);
    }

    /** visitRecords: the records from the front on, up to and including the first that the visitor stops at. */
    method VisitRecords(visitor: (seq<byte>, u32, nat) -> bool) returns (visited: seq<seq<byte>>)
      requires Valid()
      modifies this
      ensures |visited| <= |Contents()| && visited == Contents()[..|visited|]
      ensures forall i | 0 <= i < |visited| - 1 :: visitor(Contents()[i], store.Contents()[i].sequence, i)
      ensures 0 < |visited| < |Contents()| ==>
        !visitor(Contents()[|visited| - 1], store.Contents()[|visited| - 1].sequence, |visited| - 1)
      ensures visited == [] ==> Contents() == []
    {
      hide Sound, Items, FindItem, Payloads;
      ghost var v := store.Contents();
      LoadLatestIndex();
      ghost var p := Payloads(v);
      visited := [];
      var ordinal := 0;
      while ordinal < count
        invariant 0 <= ordinal <= count == |v| == |p| && store.Contents() == v && Indexed()
        invariant |visited| == ordinal && visited == p[..ordinal]
        invariant forall i | 0 <= i < ordinal :: visitor(p[i], v[i].sequence, i)
      {
        var sequence := head + ordinal;
        FindBounds(v, sequence, head);
        PayloadAt(v, ordinal);
        var _, record := store.ReadRecord(sequence);
        visited := visited + [record];
        if !visitor(record, sequence, ordinal) { break; }
        ordinal := ordinal + 1;
      }
    }

    /** compactIdle does not change the queue. */
    method CompactIdle(maxSteps: nat) returns (result: CompactResult, ghost taken: seq<Stretch>)
      requires Valid()
      modifies this, store, store.fs
      ensures Valid() && store.Contents() == old(store.Contents())
      ensures Held(store.cfg, old(store.Now()), store.Now(), taken, result.status) && Crashable(store.cfg, old(store.Now()), store.Now())
      ensures !result.status.Failed? && result.compactions < maxSteps ==> NothingLeft(store.cfg, store.ram, true)
      ensures old(store.fs.Faultless()) && result.status.Failed? ==> result.status == Failed(CounterExhausted)
    {
      hide Sound, Items, NothingLeft, Inactive, Kept, Held, Crashable;
      ghost var s := store.Now();
      result, taken := store.CompactIdle(maxSteps);
      TailCommits();
      KeptParts(store.cfg, s, store.Now(), taken);
      KeptHeld(store.cfg, s, store.Now(), taken, result.status);
    }
  }
}
