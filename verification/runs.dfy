/** Whole runs: any sequence of queue operations, with failing calls, and with crashes in the middle of any write followed by a
    remount. */
module Runs {
  import opened Bytes
  import opened Codec
  import opened LogReplay
  import opened Disk
  import opened Slots
  import opened Coherence
  import opened Session
  import opened ManifestCodec
  import opened Layout
  import opened CompactionStep
  import Selection
  import opened Store
  import opened Queues

  datatype Command =
    | Push(record: seq<byte>)
    | PopFront
    | RewriteFront(record: seq<byte>)
    | ReclaimFront
    | CompactFront(endGen: u32)
    | Idle(maxSteps: nat)

  /** A mount that a crash cuts off: of the writes it would make, those before number `at` are done, and of that one `part`
      bytes have reached the disk. */
  datatype Cut = Cut(faults: seq<bool>, at: nat, part: nat)

  /** Starting over: some mounts that crashes cut off, then one that runs to its end, each with its own failing calls. */
  datatype Boot = Boot(cuts: seq<Cut>, faults: seq<bool>)

  /** A step runs a command to its end, or is cut off by a crash as a mount is, and the store starts over; or the store just
      starts over. */
  datatype Step =
    | Finish(command: Command)
    | CrashIn(command: Command, at: nat, part: nat, boot: Boot)
    | Restart(boot: Boot)

  /** What a command means for a first-in first-out list. */
  function Effect(p: seq<seq<byte>>, c: Command): seq<seq<byte>> {
    match c
    case Push(x) => p + [x]
    case PopFront => if p == [] then p else p[1..]
    case RewriteFront(x) => if p == [] then p else [x] + p[1..]
    case ReclaimFront => p
    case CompactFront(_) => p
    case Idle(_) => p
  }

  /** What one command of a session did: whether it took effect, and the moments at which the oldest records gave way to it, one by
      one. */
  datatype Mark = Mark(took: bool, when: seq<Snap>)

  datatype Call = Do(command: Command) | Compact(range: Range, fallback: bool) | CompactAll

  /** A call drops what gave way from the front, and then takes effect or does not. */
  function AfterCall(p: seq<seq<byte>>, c: Call, m: Mark): seq<seq<byte>> {
    var kept := if |m.when| <= |p| then p[|m.when|..] else [];
    if m.took && c.Do? then Effect(kept, c.command) else kept
  }

  /** Each record that gave way did so in a sound store whose queue was the list p from that record on, and which was full for an
      event of n bytes with nothing left to compact. */
  ghost predicate Warranted(cfg: Config, p: seq<seq<byte>>, when: seq<Snap>, n: nat) {
    && |when| <= |p|
    && forall j | 0 <= j < |when| ::
         && Sound(when[j].files, when[j].ram, cfg.limit, when[j].durable, when[j].exact)
         && Payloads(Items(when[j].files, when[j].ram.records)) == p[j..]
         && Full(cfg, when[j].ram, n)
  }

  lemma JustifiedWarranted(cfg: Config, a: Snap, b: Snap, v: seq<Item>, when: seq<Snap>, n: nat)
    requires Justified(cfg, a, b, v, when, n)
    ensures Warranted(cfg, Payloads(v), when, n)
  {
    hide Sound, Full, Items, Payloads;
    forall j | 0 <= j < |when| ensures Payloads(Items(when[j].files, when[j].ram.records)) == Payloads(v)[j..] {
      PayloadsFrom(v, j);
    }
  }

  /** Records give way only to a new one, and only where that is warranted. */
  ghost predicate GaveWay(cfg: Config, p: seq<seq<byte>>, c: Call, m: Mark) {
    m.when != [] ==> c.Do? && c.command.Push? && Warranted(cfg, p, m.when, ENQUEUE_OVERHEAD_BYTES + |c.command.record|)
  }

  /** What a step means: records may have given way to its command, and it took effect or did not. */
  function StepEffect(p: seq<seq<byte>>, s: Step, m: Mark): seq<seq<byte>> {
    if s.Restart? then p else AfterCall(p, Do(s.command), m)
  }

  /** The list after the steps. */
  function Outcome(p: seq<seq<byte>>, steps: seq<Step>, marks: seq<Mark>): seq<seq<byte>>
    requires |marks| == |steps|
  {
    if steps == [] then p
    else
      var n := |steps| - 1;
      StepEffect(Outcome(p, steps[..n], marks[..n]), steps[n], marks[n])
  }

  lemma OutcomeStep(p: seq<seq<byte>>, steps: seq<Step>, marks: seq<Mark>, s: Step, m: Mark)
    requires |marks| == |steps|
    ensures Outcome(p, steps + [s], marks + [m]) == StepEffect(Outcome(p, steps, marks), s, m)
  {
    assert (steps + [s])[..|steps|] == steps && (marks + [m])[..|marks|] == marks;
  }

  lemma OutcomeNone(p: seq<seq<byte>>)
    ensures Outcome(p, [], []) == p
  {
  }

  /** A mounted queue that a run can go on with. */
  ghost predicate Usable(q: Queue)
    reads q, q.store, q.store.fs
  {
    q.Valid() && q.store.ram.tailGen != 0
  }

  /** A queue whose files would remount to exactly its contents. */
  ghost predicate Lasting(q: Queue)
    reads q, q.store, q.store.fs
  {
    Usable(q) && q.store.durable
  }

  /** Such a queue, with nothing left over behind its tail's last event. */
  ghost predicate Steady(q: Queue)
    reads q, q.store, q.store.fs
  {
    Lasting(q) && q.store.Tidied()
  }

  /** The command is a compaction of any stretch, or needs more room than the cap leaves it. */
  ghost predicate Pressed(cfg: Config, r: Ram, c: Command) {
    c.Idle? || ((c.Push? || c.RewriteFront?) && !Fits(cfg, r, ENQUEUE_OVERHEAD_BYTES + |c.record|))
  }

  lemma PressedCapped(cfg: Config, r: Ram, c: Command)
    ensures Pressed(cfg, r, c) ==> c.Idle? || cfg.maxTotalBytes != 0
  {
  }

  /** compactRange on a stretch that starts at the oldest sealed segment. */
  method CompactFromFront(store: AppendLogStore, endGen: u32) returns (st: Status)
    requires store.Valid()
    modifies store, store.fs
    ensures store.Valid() && Kept(store.cfg, old(store.Now()), store.Now(), [])
    ensures st.Failed? ==> Hard(st)
    ensures old(store.fs.Faultless()) && st.Failed? ==> st == Failed(CounterExhausted)
    ensures old(store.ram.tailGen) == 0 ==> store.Now() == old(store.Now())
  {
    hide Sound, Items, Recoverable, Shape, Cuts, SafeInput, StartsAt, Lower, PlannedInput, Reached, Tidy, Inactive, StepCounters,
      Kept, SmallStore, SegmentBound, AllFitting, Gone;
    ghost var d, r, s := store.fs.files, store.ram, store.Now();
    KeptNone(store.cfg, s);
    StretchesNone(store.cfg.limit);
    StepStart(d, r, store.cfg.limit, store.durable, store.exact);
    if store.ram.ranges == [] { return NoOp; }
    var range := Range(store.ram.ranges[0].startGen, endGen);
    var compact, _, _, before, input := store.CompactRange(range, true);
    if compact.Ok? {
      FrontStep(d, r, range, before, input);
      FrontSafe(d, Gens(input), store.cfg.limit);
    }
    st := compact;
    store.OneStepKept(s, st, []);
  }

  /** What every operation does to a tidy session that has a tail. */
  lemma HeldSteady(cfg: Config, a: Snap, b: Snap, taken: seq<Stretch>, st: Status, n: nat)
    requires Held(cfg, a, b, taken, st) && a.ram.tailGen != 0 && Tidy(a.files, a.ram)
    ensures b.ram.tailGen != 0 && Tidy(b.files, b.ram) && AllGenuine(taken) && (b.durable <==> a.durable && AllSafe(taken, cfg.limit))
    ensures SmallSnap(cfg, a) ==> SmallSnap(cfg, b)
    ensures Dropping(cfg, a, b, n) && b.durable ==>
              Staged(a.trace, b.trace, cfg.limit, Items(a.files, a.ram.records), n, Items(b.files, b.ram.records))
  {
    hide Items, SmallStore, AllFitting, Tidy, Staged, AllSafe, AllGenuine, Inactive, SegmentBound;
  }

  /** No segment is, or ever was, larger than the store's own bound, and every record has room in a segment of its own. */
  ghost predicate SmallSnap(cfg: Config, s: Snap) {
    SmallStore(s.files, s.trace, SegmentBound(cfg)) && AllFitting(cfg, Items(s.files, s.ram.records))
  }

  /** Compaction as an operation. */
  lemma CompactedHeld(store: AppendLogStore, s: Snap, taken: seq<Stretch>, st: Status)
    requires store.Valid() && Kept(store.cfg, s, store.Now(), taken) && s.ram.tailGen != 0
    ensures Held(store.cfg, s, store.Now(), taken, st) && Crashable(store.cfg, s, store.Now())
    ensures store.Contents() == Items(s.files, s.ram.records)
  {
    hide Sound, Items, Kept, Held, Crashable, LayoutOk, Inactive;
    KeptParts(store.cfg, s, store.Now(), taken);
    SoundParts(store.fs.files, store.ram, store.cfg.limit, store.durable, store.exact);
    TailHasSlot(store.fs.files, store.ram);
    KeptHeld(store.cfg, s, store.Now(), taken, st);
  }

  lemma TailHasSlot(d: Files, r: Ram)
    requires LayoutOk(d, r) && r.tailGen != 0
    ensures Inactive(d).Some?
  {
    hide Winner, Shape;
    InactiveIsOther(d);
  }

  /** One command to its end. Only compaction under pressure or at idle times can cost the session its durability, and only by a
      stretch that changes a record stored before it. Records give way to it only where that is warranted. Nor does it ever write a
      segment above the store's own bound. */
  method Execute(q: Queue, c: Command) returns (done: bool, ghost mark: Mark, ghost taken: seq<Stretch>)
    requires Usable(q) && q.store.Tidied()
    modifies q, q.store, q.store.fs
    ensures Usable(q) && q.store.Tidied() && mark.took == done
    ensures q.Contents() == AfterCall(old(q.Contents()), Do(c), mark)
    ensures GaveWay(q.store.cfg, old(q.Contents()), Do(c), mark) && (q.policy.RejectNewest? ==> mark.when == [])
    ensures AllGenuine(taken) && (q.store.durable <==> old(q.store.durable) && AllSafe(taken, q.store.cfg.limit))
    ensures taken != [] ==> old(Pressed(q.store.cfg, q.store.ram, c))
    ensures q.store.durable ==>
      Staged(old(q.store.fs.trace), q.store.fs.trace, q.store.cfg.limit, old(q.store.Contents()), |mark.when|, q.store.Contents())
    ensures old(q.store.Small()) ==> q.store.Small()
  {
    hide Sound, Items, Recoverable, Payloads, Fits, AllSafe, AllGenuine, Tidy, Inactive, Ready, Excused, Selection.NothingLeft,
      Grew, Held, Crashable, Dropping, Staged, Kept, Full, Justified, GaveWay, AfterCall, Total, SmallStore, AllFitting,
      SegmentBound, Reclaimable, StepCounters, Queue.NextSequence, Headroom, RangeRoom, TooLarge;
    ghost var p, s := q.Contents(), q.store.Now();
    StretchesNone(q.store.cfg.limit);
    taken := [];
    var st: Status;
    if c.Push? {
      st, mark, taken := ExecutePush(q, c.record);
    } else {
      match c {
        case PopFront =>
          st := q.Pop();
        case RewriteFront(record) =>
          st, taken := q.RewriteFront(record);
        case ReclaimFront =>
          var reclaim, _, _ := q.store.ReclaimDeadFrontSegment();
          CompactedHeld(q.store, s, [], reclaim);
          st := reclaim;
        case CompactFront(endGen) =>
          st := CompactFromFront(q.store, endGen);
          CompactedHeld(q.store, s, [], st);
        case Idle(maxSteps) =>
          var result;
          result, taken := q.CompactIdle(maxSteps);
          st := result.status;
      }
      CrashDropping(q.store.cfg, s, q.store.Now());
      mark := Mark(!st.Failed?, []);
      NoneGave(q.store.cfg, p, c, mark);
    }
    HeldSteady(q.store.cfg, s, q.store.Now(), taken, st, |mark.when|);
    done := !st.Failed?;
  }

  /** A PUSH, to its end. */
  method ExecutePush(q: Queue, record: seq<byte>) returns (st: Status, ghost mark: Mark, ghost taken: seq<Stretch>)
    requires q.Valid()
    modifies q, q.store, q.store.fs
    ensures q.Valid() && st != NoOp && mark.took == st.Ok?
    ensures Held(q.store.cfg, old(q.store.Now()), q.store.Now(), taken, st)
    ensures Dropping(q.store.cfg, old(q.store.Now()), q.store.Now(), |mark.when|)
    ensures q.Contents() == AfterCall(old(q.Contents()), Do(Push(record)), mark)
    ensures GaveWay(q.store.cfg, old(q.Contents()), Do(Push(record)), mark) && (q.policy.RejectNewest? ==> mark.when == [])
    ensures taken != [] ==> !old(Fits(q.store.cfg, q.store.ram, ENQUEUE_OVERHEAD_BYTES + |record|))
    ensures old(q.store.fs.Faultless() && q.store.SlotFree()) ==> st.Ok? || Honest(st)
  {
    hide Sound, Items, Payloads, Fits, Inactive, Ready, Excused, Selection.NothingLeft, Grew, Held, Crashable, Dropping, Full,
      Justified, Warranted, Total, Queue.NextSequence, TooLarge;
    ghost var p, v, s, n := q.Contents(), q.store.Contents(), q.store.Now(), ENQUEUE_OVERHEAD_BYTES + |record|;
    ghost var when;
    st, when, taken := q.Enqueue(record);
    JustifiedCount(q.store.cfg, s, q.store.Now(), v, when, n);
    JustifiedWarranted(q.store.cfg, s, q.store.Now(), v, when, n);
    mark := Mark(st.Ok?, when);
  }

  lemma NoneGave(cfg: Config, p: seq<seq<byte>>, c: Command, m: Mark)
    requires m.when == []
    ensures AfterCall(p, Do(c), m) == (if m.took then Effect(p, c) else p) && GaveWay(cfg, p, Do(c), m)
  {
    assert p[0..] == p;
  }

  /** The files a crash leaves: after all of the writes from number t0 on when there are no more than at of them, else in the
      middle of one. */
  function CrashFiles(files: Files, trace: seq<Write>, t0: nat, at: nat, part: nat): Files {
    if t0 + at < |trace| && Applicable(trace[t0 + at].before, trace[t0 + at].op)
    then
      var w := trace[t0 + at];
      Partial(w.before, w.op, if part < Length(w.op) then part else Length(w.op))
    else files
  }

  /** Wherever the crash falls, what is left is an initialised store that holds the queue before or after the command. */
  lemma CrashHolds(files: Files, before: seq<Write>, trace: seq<Write>, at: nat, part: nat, limit: RecordLimit, v: seq<Item>, w: seq<Item>)
    requires Recoverable(before, trace, limit, v, w)
    requires Holds(files, limit, w, w)
    ensures Holds(CrashFiles(files, trace, |before|, at, part), limit, v, w)
  {
    hide Coherent, DiskView, Winner;
    var i := |before| + at;
    if i < |trace| {
      var s := trace[i];
      assert s == trace[|before|..][at] && s in trace[|before|..];
      assert SafeWrite(s, limit, v, w);
    }
  }

  /** The same for a command that records gave way to: what is left holds the queue between two of its states. */
  lemma CrashStaged(files: Files, before: seq<Write>, trace: seq<Write>, at: nat, part: nat, limit: RecordLimit, v: seq<Item>, n: nat,
                    w: seq<Item>)
    returns (i: nat)
    requires Staged(before, trace, limit, v, n, w)
    requires Holds(files, limit, w, w)
    ensures i <= n <= |v| && Holds(CrashFiles(files, trace, |before|, at, part), limit, Stage(v, n, w, i).0, Stage(v, n, w, i).1)
  {
    hide Coherent, DiskView, Winner;
    i := n;
    var k := |before| + at;
    if k < |trace| {
      var s := trace[k];
      assert s == trace[|before|..][at] && s in trace[|before|..];
      assert StagedWrite(s, limit, v, n, w);
      i :| i <= n && SafeWrite(s, limit, Stage(v, n, w, i).0, Stage(v, n, w, i).1);
    }
  }

  /** Nor does a crash leave a segment above the bound. */
  lemma CrashSmall(files: Files, trace: seq<Write>, t0: nat, at: nat, part: nat, bound: nat)
    requires SmallStore(files, trace, bound)
    ensures AllSmall(CrashFiles(files, trace, t0, at, part), bound)
  {
    var i := t0 + at;
    if i < |trace| && Applicable(trace[i].before, trace[i].op) {
      var w := trace[i];
      assert w in trace;
      SmallPartial(w.before, w.op, if part < Length(w.op) then part else Length(w.op), bound);
    }
  }

  lemma LastingHolds(q: Queue)
    requires Lasting(q)
    ensures Holds(q.store.fs.files, q.store.cfg.limit, q.store.Contents(), q.store.Contents())
  {
    hide Sound, Items, Coherent, DiskView;
    SoundParts(q.store.fs.files, q.store.ram, q.store.cfg.limit, q.store.durable, q.store.exact);
  }

  /** A new store is mounted on files. On an initialised coherent store this fails only beyond the limits that mount alone
      imposes; nothing is left over behind the tail unless the call that cuts it off failed. */
  method Reboot(cfg: Config, policy: FullQueuePolicy, files: Files, faults: seq<bool>) returns (ok: bool, q: Queue)
    requires Coherent(files, cfg.limit) && Winner(files).Some?
    ensures ok <==> WithinMountLimits(files)
    ensures fresh(q) && fresh(q.store) && fresh(q.store.fs) && q.store.cfg == cfg && q.policy == policy
    ensures ok ==> Lasting(q) && q.store.Contents() == DiskView(files, cfg.limit)
                   && Recoverable([], q.store.fs.trace, cfg.limit, q.store.Contents(), q.store.Contents())
    ensures ok && true !in faults ==> Steady(q)
    ensures AllSmall(files, SegmentBound(cfg)) ==> q.store.SmallFiles()
  {
    hide AllSmall, SegmentBound, Sound, Items, Coherent, DiskView, Winner, Recoverable, Mountable, WithinMountLimits, Tidy;
    CoherentMounts(files, cfg.limit);
    var fs := new FileSystem(files, faults);
    var store := new AppendLogStore(cfg, fs);
    var st := store.Mount();
    q := new Queue(store, policy);
    ok := st.Ok?;
  }

  /** Starting over, with mounts that are themselves cut off by crashes: the queue stays what the files hold. */
  method BootUp(cfg: Config, policy: FullQueuePolicy, files: Files, boot: Boot) returns (ok: bool, q: Queue, ghost left: Files)
    requires Coherent(files, cfg.limit) && Winner(files).Some?
    ensures fresh(q) && fresh(q.store) && fresh(q.store.fs) && q.store.cfg == cfg && q.policy == policy
    ensures Holds(left, cfg.limit, DiskView(files, cfg.limit), DiskView(files, cfg.limit))
    ensures ok ==> Lasting(q) && q.store.Contents() == DiskView(files, cfg.limit) && left == q.store.fs.files
    ensures ok && true !in boot.faults ==> Steady(q)
    ensures !ok ==> !WithinMountLimits(left)
    ensures AllSmall(files, SegmentBound(cfg)) ==> AllSmall(left, SegmentBound(cfg)) && (ok ==> q.store.SmallFiles())
  {
    hide AllSmall, SegmentBound, Sound, Items, Coherent, DiskView, Winner, Recoverable, WithinMountLimits, Tidy;
    var now := files;
    ghost var v := DiskView(files, cfg.limit);
    var i := 0;
    while i < |boot.cuts|
      invariant 0 <= i <= |boot.cuts|
      invariant Holds(now, cfg.limit, v, v)
      invariant AllSmall(files, SegmentBound(cfg)) ==> AllSmall(now, SegmentBound(cfg))
    {
      var c := boot.cuts[i];
      ok, q := Reboot(cfg, policy, now, c.faults);
      left := now;
      if !ok { return; }
      LastingHolds(q);
      CrashHolds(q.store.fs.files, [], q.store.fs.trace, c.at, c.part, cfg.limit, v, v);
      now := CrashFiles(q.store.fs.files, q.store.fs.trace, 0, c.at, c.part);
      if q.store.SmallFiles() { CrashSmall(q.store.fs.files, q.store.fs.trace, 0, c.at, c.part, SegmentBound(cfg)); }
      i := i + 1;
    }
    ok, q := Reboot(cfg, policy, now, boot.faults);
    left := now;
    if ok {
      LastingHolds(q);
      left := q.store.fs.files;
    }
  }

  /** Some call of the last mount of a boot fails. */
  predicate Faulty(boot: Boot, steps: seq<Step>) {
    true in boot.faults || exists i :: 0 <= i < |steps| && !steps[i].Finish? && true in steps[i].boot.faults
  }

  lemma FaultyBoot(boot: Boot, steps: seq<Step>)
    ensures true in boot.faults ==> Faulty(boot, steps)
  {
  }

  lemma FaultyMore(boot: Boot, steps: seq<Step>, s: Step)
    ensures Faulty(boot, steps) ==> Faulty(boot, steps + [s])
    ensures !s.Finish? && true in s.boot.faults ==> Faulty(boot, steps + [s])
  {
    if Faulty(boot, steps) && true !in boot.faults {
      var i :| 0 <= i < |steps| && !steps[i].Finish? && true in steps[i].boot.faults;
      assert (steps + [s])[i] == steps[i];
    }
    assert (steps + [s])[|steps|] == s;
  }

  /** A command cut off by a crash: it took effect wholly or not at all, and some of the records that were to give way to it may be
      gone, unless it took a stretch that was not safe. */
  method CrashDuring(q: Queue, c: Command, at: nat, part: nat) returns (files: Files, ghost mark: Mark, ghost taken: seq<Stretch>)
    requires Usable(q) && q.store.Tidied()
    modifies q, q.store, q.store.fs
    ensures AllGenuine(taken) && (taken != [] ==> old(Pressed(q.store.cfg, q.store.ram, c)))
    ensures GaveWay(q.store.cfg, old(q.Contents()), Do(c), mark) && (q.policy.RejectNewest? ==> mark.when == [])
    ensures old(q.store.durable) && AllSafe(taken, q.store.cfg.limit) ==>
      && Coherent(files, q.store.cfg.limit) && Winner(files).Some?
      && Payloads(DiskView(files, q.store.cfg.limit)) == AfterCall(old(q.Contents()), Do(c), mark)
      && (old(q.store.Small()) ==> AllFitting(q.store.cfg, DiskView(files, q.store.cfg.limit)))
    ensures old(q.store.Small()) ==> AllSmall(files, SegmentBound(q.store.cfg))
  {
    hide AllSmall, AllFitting, SegmentBound, Sound, Items, Coherent, DiskView, Winner, Staged, Stage, Payloads, AllSafe, AllGenuine,
      Tidy, Pressed, GaveWay, AfterCall;
    ghost var before, v := q.store.fs.trace, q.store.Contents();
    var t0 := |q.store.fs.trace|;
    var done;
    done, mark, taken := Execute(q, c);
    files := CrashFiles(q.store.fs.files, q.store.fs.trace, t0, at, part);
    if q.store.SmallFiles() { CrashSmall(q.store.fs.files, q.store.fs.trace, t0, at, part, SegmentBound(q.store.cfg)); }
    if q.store.durable {
      LastingHolds(q);
      ghost var i := CrashStaged(q.store.fs.files, before, q.store.fs.trace, at, part, q.store.cfg.limit, v, |mark.when|,
                                 q.store.Contents());
      mark := CutShort(q.store.cfg, files, c, v, q.store.Contents(), mark, i);
    }
  }

  /** What a command has done when a crash leaves the queue between two of its states. */
  lemma CutShort(cfg: Config, files: Files, c: Command, v: seq<Item>, w: seq<Item>, mark: Mark, i: nat) returns (m: Mark)
    requires i <= |mark.when| <= |v| && Payloads(w) == AfterCall(Payloads(v), Do(c), mark)
    requires Holds(files, cfg.limit, Stage(v, |mark.when|, w, i).0, Stage(v, |mark.when|, w, i).1)
    requires GaveWay(cfg, Payloads(v), Do(c), mark)
    ensures GaveWay(cfg, Payloads(v), Do(c), m) && (mark.when == [] ==> m.when == [])
    ensures Coherent(files, cfg.limit) && Winner(files).Some?
    ensures Payloads(DiskView(files, cfg.limit)) == AfterCall(Payloads(v), Do(c), m)
    ensures AllFitting(cfg, v) && AllFitting(cfg, w) ==> AllFitting(cfg, DiskView(files, cfg.limit))
  {
    hide Coherent, Winner, DiskView, Payloads, Warranted;
    var d := DiskView(files, cfg.limit);
    if d == w { return mark; }
    var j := if d == v[i..] then i else i + 1;
    m := Mark(false, mark.when[..j]);
    PayloadsFrom(v, j);
    WarrantedPrefix(cfg, Payloads(v), mark.when, j, if c.Push? then ENQUEUE_OVERHEAD_BYTES + |c.record| else 0);
    if AllFitting(cfg, v) {
      assert forall x | x in d :: x in v;
    }
  }

  lemma WarrantedPrefix(cfg: Config, p: seq<seq<byte>>, when: seq<Snap>, j: nat, n: nat)
    requires j <= |when|
    ensures Warranted(cfg, p, when, n) ==> Warranted(cfg, p, when[..j], n)
  {
    hide Sound, Items, Payloads, Full;
  }

  /** How a run ends: after its last step; at a mount beyond the limits; at the first write of a session whose mount could not cut
      off what lay behind the tail's last event; or where a crash left no coherent store. */
  datatype End = AllDone | BeyondLimits | LeftOver | Broken

  /** A queue that would remount to exactly its contents, which are p, from the files given. */
  ghost predicate At(q: Queue, files: Files, p: seq<seq<byte>>)
    reads q, q.store, q.store.fs
  {
    Lasting(q) && files == q.store.fs.files && q.Contents() == p
  }

  /** One step of a run from such a queue, as AnyRun takes it. */
  method StepFrom(cfg: Config, q: Queue, s: Step, ghost p: seq<seq<byte>>)
    returns (end: End, q': Queue, reported: bool, ghost mark: Mark, ghost left: Files, ghost taken: seq<Stretch>)
    requires Usable(q) && q.store.cfg == cfg
    modifies q, q.store, q.store.fs
    ensures q' == q || (fresh(q') && fresh(q'.store) && fresh(q'.store.fs))
    ensures q'.store.cfg == cfg && q'.policy == q.policy && (s.Finish? ==> mark.took == reported)
    ensures q.policy.RejectNewest? ==> mark.when == []
    ensures AllGenuine(taken) && (taken != [] ==> !s.Restart? && (s.command.Idle? || cfg.maxTotalBytes != 0))
    ensures end.AllDone? ==> Usable(q') && left == q'.store.fs.files && (q'.store.Tidied() || (!s.Finish? && true in s.boot.faults))
    ensures end.LeftOver? ==> q' == q && left == old(q.store.fs.files) && taken == [] && !q.store.Tidied() && !old(q.store.Tidied())
    ensures old(At(q, q.store.fs.files, p)) && AllSafe(taken, cfg.limit) ==>
      && !end.Broken? && Coherent(left, cfg.limit) && Payloads(DiskView(left, cfg.limit)) == StepEffect(p, s, mark)
      && (end.AllDone? ==> At(q', left, StepEffect(p, s, mark)))
      && StepGaveWay(cfg, p, s, mark) && (end.BeyondLimits? ==> !WithinMountLimits(left))
      && (old(q.store.Small()) ==> AllSmall(left, SegmentBound(cfg)) && (end.AllDone? ==> q'.store.Small()))
  {
    hide Sound, Items, Coherent, DiskView, Winner, Recoverable, Payloads, WithinMountLimits, AllSafe, AllGenuine, Tidy, Pressed,
      AllSmall, AllFitting, SegmentBound, StepEffect, StepGaveWay, Fits;
    if !s.Restart? { PressedCapped(cfg, q.store.ram, s.command); }
    end, q', reported, mark, left, taken := OneStep(cfg, q, s);
  }

  /** One step of a run. */
  method OneStep(cfg: Config, q: Queue, s: Step)
    returns (end: End, q': Queue, reported: bool, ghost mark: Mark, ghost left: Files, ghost taken: seq<Stretch>)
    requires Usable(q) && q.store.cfg == cfg
    modifies q, q.store, q.store.fs
    ensures q' == q || (fresh(q') && fresh(q'.store) && fresh(q'.store.fs))
    ensures q'.store.cfg == cfg && q'.policy == q.policy && (s.Finish? ==> mark.took == reported)
    ensures q.policy.RejectNewest? ==> mark.when == []
    ensures AllGenuine(taken) && (taken != [] ==> !s.Restart? && old(Pressed(cfg, q.store.ram, s.command)))
    ensures end.AllDone? ==>
      && Usable(q') && left == q'.store.fs.files
      && (q'.store.Tidied() || (!s.Finish? && true in s.boot.faults))
    ensures end.LeftOver? ==> q' == q && left == old(q.store.fs.files) && taken == [] && !q.store.Tidied() && !old(q.store.Tidied())
    ensures old(Lasting(q)) && AllSafe(taken, cfg.limit) ==>
      && !end.Broken? && Coherent(left, cfg.limit)
      && Payloads(DiskView(left, cfg.limit)) == StepEffect(old(q.Contents()), s, mark)
      && (end.AllDone? ==> Lasting(q') && q'.Contents() == StepEffect(old(q.Contents()), s, mark))
      && StepGaveWay(cfg, old(q.Contents()), s, mark) && (end.BeyondLimits? ==> !WithinMountLimits(left))
      && (old(q.store.Small()) ==> AllSmall(left, SegmentBound(cfg)) && (end.AllDone? ==> q'.store.Small()))
  {
    hide AllSmall, AllFitting, SegmentBound, Sound, Items, Coherent, DiskView, Winner, Recoverable, Payloads, WithinMountLimits,
      AllSafe, AllGenuine, Tidy, Pressed, GaveWay, AfterCall, Staged;
    end, q', reported, mark, left, taken := AllDone, q, false, Mark(false, []), q.store.fs.files, [];
    StretchesNone(cfg.limit);
    NothingGivesWay(cfg, q.Contents(), s);
    if q.store.durable { LastingHolds(q); }
    var files := q.store.fs.files;
    if !s.Restart? {
      if !Tidy(q.store.fs.files, q.store.ram) { end := LeftOver; return; }
      if s.Finish? {
        reported, mark, taken := Execute(q, s.command);
        left := q.store.fs.files;
        if q.store.durable { LastingHolds(q); }
        return;
      }
      files, mark, taken := CrashDuring(q, s.command, s.at, s.part);
    }
    if Winner(files).None? || !Coherent(files, cfg.limit) { end := Broken; return; }
    var ok;
    ok, q', left := BootUp(cfg, q.policy, files, s.boot);
    if !ok { end := BeyondLimits; }
  }

  /** Records give way only within a command, and only where that is warranted. */
  ghost predicate StepGaveWay(cfg: Config, p: seq<seq<byte>>, s: Step, m: Mark) {
    if s.Restart? then m.when == [] else GaveWay(cfg, p, Do(s.command), m)
  }

  lemma NothingGivesWay(cfg: Config, p: seq<seq<byte>>, s: Step)
    ensures StepEffect(p, s, Mark(false, [])) == p && StepGaveWay(cfg, p, s, Mark(false, []))
  {
  }

  /** How far a run has come: the first `held` steps are accounted for by what the files `left` hold. */
  ghost predicate Accounted(cfg: Config, p: seq<seq<byte>>, steps: seq<Step>, marks: seq<Mark>, held: nat, left: Files,
                            taken: seq<Stretch>)
  {
    && held <= |marks| <= |steps|
    && Coherent(left, cfg.limit) && Payloads(DiskView(left, cfg.limit)) == Outcome(p, steps[..held], marks[..held])
    && AllGenuine(taken) && (held == |marks| <==> AllSafe(taken, cfg.limit))
    && (held < |marks| ==> !steps[held].Restart? && (steps[held].command.Idle? || cfg.maxTotalBytes != 0))
    && forall i | 0 <= i < held :: StepGaveWay(cfg, Outcome(p, steps[..i], marks[..i]), steps[i], marks[i])
  }

  lemma AccountedNone(cfg: Config, steps: seq<Step>, left: Files)
    requires Coherent(left, cfg.limit)
    ensures Accounted(cfg, Payloads(DiskView(left, cfg.limit)), steps, [], 0, left, [])
  {
    hide Coherent, DiskView, Payloads;
    OutcomeNone(Payloads(DiskView(left, cfg.limit)));
    StretchesNone(cfg.limit);
  }

  /** One more step, which took effect or not and left the files `now`. */
  lemma AccountedMore(cfg: Config, p: seq<seq<byte>>, steps: seq<Step>, marks: seq<Mark>, held: nat, left: Files, taken: seq<Stretch>,
                      m: Mark, now: Files, step: seq<Stretch>)
    requires Accounted(cfg, p, steps, marks, held, left, taken) && |marks| < |steps|
    requires AllGenuine(step)
    requires step != [] ==> !steps[|marks|].Restart? && (steps[|marks|].command.Idle? || cfg.maxTotalBytes != 0)
    requires held == |marks| && AllSafe(step, cfg.limit) ==>
               && Coherent(now, cfg.limit)
               && Payloads(DiskView(now, cfg.limit)) == StepEffect(Outcome(p, steps[..|marks|], marks), steps[|marks|], m)
               && StepGaveWay(cfg, Outcome(p, steps[..|marks|], marks), steps[|marks|], m)
    ensures if AllSafe(taken + step, cfg.limit) then Accounted(cfg, p, steps, marks + [m], |marks| + 1, now, taken + step)
            else Accounted(cfg, p, steps, marks + [m], held, left, taken + step)
    ensures AllSafe(taken + step, cfg.limit) ==> held == |marks| && AllSafe(step, cfg.limit)
    ensures Outcome(p, steps[..|marks| + 1], marks + [m]) == StepEffect(Outcome(p, steps[..|marks|], marks), steps[|marks|], m)
  {
    hide Coherent, DiskView, Payloads, AllSafe, AllGenuine, Outcome, StepEffect, StepGaveWay;
    var i := |marks|;
    assert forall k | 0 <= k <= i :: (marks + [m])[..k] == marks[..k];
    assert steps[..i + 1] == steps[..i] + [steps[i]];
    assert (marks + [m])[..held] == marks[..held] && (marks + [m])[..i + 1] == marks + [m] && marks[..i] == marks;
    OutcomeStep(p, steps[..i], marks, steps[i], m);
    StretchesJoin(taken, step, cfg.limit);
    StretchesNone(cfg.limit);
  }

  /** A store that can only outgrow mount in the number of its generations: its segments keep to its own bound, which is within the
      size that mount accepts, and each record has room in a segment of its own. */
  ghost predicate WellSized(cfg: Config, d: Files) {
    cfg.maxSegmentBytes <= MAX_REPLAY_SEGMENT_BYTES && AllSmall(d, SegmentBound(cfg)) && AllFitting(cfg, DiskView(d, cfg.limit))
  }

  /** More generations are listed than mount accepts. */
  ghost predicate TooMany(d: Files) {
    Winner(d).Some? && |ActiveOf(Winner(d).value)| > MAX_TOTAL_GENERATIONS
  }

  lemma OnlyTooMany(cfg: Config, d: Files)
    requires cfg.maxSegmentBytes <= MAX_REPLAY_SEGMENT_BYTES && AllSmall(d, SegmentBound(cfg)) && !WithinMountLimits(d)
    ensures TooMany(d)
  {
    hide Winner, ActiveOf;
    if !TooMany(d) {
      forall g | g in ActiveOf(Winner(d).value) ensures |Content(d, g)| <= MAX_REPLAY_SEGMENT_BYTES {
        if Segment(g) in d { assert |d[Segment(g)]| <= SegmentBound(cfg); }
      }
      assert false;
    }
  }

  /** Where a run stands: while every step is accounted for, its queue holds the outcome. */
  ghost predicate Standing(cfg: Config, q: Queue, p: seq<seq<byte>>, steps: seq<Step>, marks: seq<Mark>, held: nat, left: Files,
                           taken: seq<Stretch>)
    reads q, q.store, q.store.fs
  {
    && Accounted(cfg, p, steps, marks, held, left, taken)
    && Usable(q) && q.store.cfg == cfg
    && (held == |marks| ==> At(q, q.store.fs.files, Outcome(p, steps[..held], marks)) && left == q.store.fs.files)
  }

  /** The segments of such a run. */
  ghost predicate Sized(q: Queue, marks: seq<Mark>, held: nat, left: Files)
    reads q, q.store, q.store.fs
  {
    AllSmall(left, SegmentBound(q.store.cfg)) && (held == |marks| ==> q.store.Small())
  }

  /** The next step of a run. */
  method TakeStep(cfg: Config, q: Queue, steps: seq<Step>, ghost p: seq<seq<byte>>, ghost marks: seq<Mark>, ghost held: nat,
                  ghost left: Files, ghost taken: seq<Stretch>, i: nat)
    returns (end: End, q': Queue, reported: bool, ghost m: Mark, ghost held': nat, ghost left': Files, ghost taken': seq<Stretch>)
    requires Standing(cfg, q, p, steps, marks, held, left, taken) && i == |marks| < |steps|
    modifies q, q.store, q.store.fs
    ensures (q' == q || (fresh(q') && fresh(q'.store) && fresh(q'.store.fs))) && q'.store.cfg == cfg && q'.policy == q.policy
    ensures q.policy.RejectNewest? ==> m.when == []
    ensures end.LeftOver? ==> q' == q && !q.store.Tidied() && !old(q.store.Tidied())
    ensures !end.LeftOver? ==>
      && Accounted(cfg, p, steps, marks + [m], held', left', taken')
      && (steps[i].Finish? ==> m.took == reported)
      && (end.Broken? ==> held' <= i) && (end.BeyondLimits? && held' == i + 1 ==> !WithinMountLimits(left'))
      && (old(Sized(q, marks, held, left)) ==> AllSmall(left', SegmentBound(cfg)))
    ensures end.AllDone? ==>
      && Standing(cfg, q', p, steps, marks + [m], held', left', taken')
      && (q'.store.Tidied() || (!steps[i].Finish? && true in steps[i].boot.faults))
      && (old(Sized(q, marks, held, left)) ==> Sized(q', marks + [m], held', left'))
  {
    hide Sound, Items, Coherent, DiskView, Winner, Recoverable, Payloads, WithinMountLimits, Outcome, AllSafe, AllGenuine, Tidy,
      Fits, StepEffect, StepGaveWay, Pressed, Accounted, AllSmall, AllFitting, SegmentBound, AppendLogStore.SmallFiles, At;
    ghost var now, step;
    AccountedParts(cfg, p, steps, marks, held, left, taken);
    assert steps[..i + 1] == steps[..i] + [steps[i]];
    end, q', reported, m, now, step := StepFrom(cfg, q, steps[i], Outcome(p, steps[..i], marks));
    held', left', taken' := held, left, taken + step;
    if end.LeftOver? { return; }
    AccountedMore(cfg, p, steps, marks, held, left, taken, m, now, step);
    if AllSafe(taken', cfg.limit) {
      held', left' := i + 1, now;
    }
    AccountedParts(cfg, p, steps, marks + [m], held', left', taken');
  }

  /** Any run. From a coherent store, whatever commands are run under whatever cap and policy, whichever calls fail, and wherever
      crashes cut off commands and mounts, the queue holds what a plain list would after those of the commands that took effect, in
      their order. A command that reported success took effect; one that reported failure did not; one cut off by a crash did so
      wholly or not at all. Under DropOldest alone, and only where the store was full, the oldest records may have given way to a
      new one first, also to one that a crash then kept out. This holds for the first `held` steps: all that were made, or those
      before the first that compacted a stretch which changed a record stored before it. `left` is what the files hold then. From
      well-sized files the segments stay within the size that mount accepts, so only the number of generations can keep the store
      from mounting again. */
  method AnyRun(cfg: Config, policy: FullQueuePolicy, files: Files, boot: Boot, steps: seq<Step>)
    returns (end: End, q: Queue, reported: seq<bool>, ghost marks: seq<Mark>, ghost held: nat, ghost left: Files, ghost taken: seq<Stretch>)
    requires Coherent(files, cfg.limit) && Winner(files).Some?
    ensures held <= |marks| <= |steps| && Truthful(steps, marks, reported)
    ensures Coherent(left, cfg.limit)
    ensures Payloads(DiskView(left, cfg.limit)) == Outcome(Payloads(DiskView(files, cfg.limit)), steps[..held], marks[..held])
    ensures policy.RejectNewest? ==> NoneGaveWay(marks)
    ensures forall i | 0 <= i < held ::
              StepGaveWay(cfg, Outcome(Payloads(DiskView(files, cfg.limit)), steps[..i], marks[..i]), steps[i], marks[i])
    ensures AllGenuine(taken) && (held == |marks| <==> AllSafe(taken, cfg.limit))
    ensures held < |marks| ==> !steps[held].Restart? && (steps[held].command.Idle? || cfg.maxTotalBytes != 0)
    ensures end.AllDone? ==> |marks| == |steps|
    ensures end.AllDone? && held == |steps| ==>
      Lasting(q) && left == q.store.fs.files && q.Contents() == Outcome(Payloads(DiskView(files, cfg.limit)), steps, marks)
    ensures end.BeyondLimits? && held == |marks| ==> !WithinMountLimits(left) && (WellSized(cfg, files) ==> TooMany(left))
    ensures end.LeftOver? ==> |marks| < |steps| && !q.store.Tidied() && Faulty(boot, steps[..|marks|])
    ensures end.Broken? ==> held < |marks|
    ensures WellSized(cfg, files) ==> AllSmall(left, SegmentBound(cfg))
  {
    hide Sound, Items, Coherent, DiskView, Winner, Recoverable, Payloads, WithinMountLimits, Outcome, AllSafe, AllGenuine, Tidy,
      Faulty, StepEffect, StepGaveWay, Accounted, AllSmall, SegmentBound, TooMany, AllFitting, Standing, Sized, Usable, Truthful,
      NoneGaveWay;
    ghost var p := Payloads(DiskView(files, cfg.limit));
    marks, reported, held, taken := [], [], 0, [];
    TruthfulNone(steps);
    end := AllDone;
    var ok;
    ok, q, left := FirstBoot(cfg, policy, files, boot, steps);
    if !ok {
      AccountedParts(cfg, p, steps, marks, held, left, taken);
      if WellSized(cfg, files) { OnlyTooMany(cfg, left); }
      end := BeyondLimits;
      return;
    }
    var i := 0;
    while i < |steps|
      invariant 0 <= i <= |steps| && |marks| == i && Truthful(steps, marks, reported)
      invariant end.AllDone?
      invariant fresh(q) && fresh(q.store) && fresh(q.store.fs) && q.store.cfg == cfg && q.policy == policy
      invariant policy.RejectNewest? ==> NoneGaveWay(marks)
      invariant Standing(cfg, q, p, steps, marks, held, left, taken) && (!q.store.Tidied() ==> Faulty(boot, steps[..i]))
      invariant WellSized(cfg, files) ==> Sized(q, marks, held, left)
    {
      assert steps[..i + 1] == steps[..i] + [steps[i]];
      FaultyMore(boot, steps[..i], steps[i]);
      StandingAccounted(cfg, q, p, steps, marks, held, left, taken);
      ghost var m, held', left', taken';
      var r;
      end, q, r, m, held', left', taken' := TakeStep(cfg, q, steps, p, marks, held, left, taken, i);
      if end.LeftOver? {
        AccountedParts(cfg, p, steps, marks, held, left, taken);
        return;
      }
      TruthfulMore(steps, marks, reported, m, r);
      marks, reported, taken, held, left := marks + [m], reported + [r], taken', held', left';
      i := i + 1;
      if !end.AllDone? {
        AccountedParts(cfg, p, steps, marks, held, left, taken);
        if WellSized(cfg, files) && end.BeyondLimits? && held == i { OnlyTooMany(cfg, left); }
        return;
      }
    }
    StandingParts(cfg, q, p, steps, marks, held, left, taken);
  }

  /** What was reported of each command that ran to its end is what it did. */
  predicate Truthful(steps: seq<Step>, marks: seq<Mark>, reported: seq<bool>) {
    |marks| == |reported| <= |steps| && forall i | 0 <= i < |marks| :: steps[i].Finish? ==> marks[i].took == reported[i]
  }

  predicate NoneGaveWay(marks: seq<Mark>) {
    forall i | 0 <= i < |marks| :: marks[i].when == []
  }

  lemma TruthfulNone(steps: seq<Step>)
    ensures Truthful(steps, [], []) && NoneGaveWay([])
  {
  }

  lemma TruthfulMore(steps: seq<Step>, marks: seq<Mark>, reported: seq<bool>, m: Mark, r: bool)
    requires Truthful(steps, marks, reported) && |marks| < |steps| && (steps[|marks|].Finish? ==> m.took == r)
    ensures Truthful(steps, marks + [m], reported + [r])
    ensures NoneGaveWay(marks) && m.when == [] ==> NoneGaveWay(marks + [m])
  {
  }

  lemma StandingAccounted(cfg: Config, q: Queue, p: seq<seq<byte>>, steps: seq<Step>, marks: seq<Mark>, held: nat, left: Files,
                          taken: seq<Stretch>)
    requires Standing(cfg, q, p, steps, marks, held, left, taken)
    ensures Accounted(cfg, p, steps, marks, held, left, taken)
    ensures Sized(q, marks, held, left) ==> AllSmall(left, SegmentBound(q.store.cfg))
  {
    hide AllSmall, Accounted, Sound, Items, SegmentBound;
  }

  lemma StandingParts(cfg: Config, q: Queue, p: seq<seq<byte>>, steps: seq<Step>, marks: seq<Mark>, held: nat, left: Files,
                      taken: seq<Stretch>)
    requires Standing(cfg, q, p, steps, marks, held, left, taken)
    ensures Accounted(cfg, p, steps, marks, held, left, taken) && held <= |marks| <= |steps|
    ensures Coherent(left, cfg.limit) && Payloads(DiskView(left, cfg.limit)) == Outcome(p, steps[..held], marks[..held])
    ensures AllGenuine(taken) && (held == |marks| <==> AllSafe(taken, cfg.limit))
    ensures held < |marks| ==> !steps[held].Restart? && (steps[held].command.Idle? || cfg.maxTotalBytes != 0)
    ensures forall i | 0 <= i < held :: StepGaveWay(cfg, Outcome(p, steps[..i], marks[..i]), steps[i], marks[i])
    ensures |marks| == |steps| == held ==> Lasting(q) && left == q.store.fs.files && q.Contents() == Outcome(p, steps, marks)
    ensures Sized(q, marks, held, left) ==> AllSmall(left, SegmentBound(q.store.cfg))
  {
    hide Coherent, DiskView, Payloads, AllSafe, AllGenuine, Outcome, AllSmall, Accounted, Sound, Items, SegmentBound, StepGaveWay;
    AccountedParts(cfg, p, steps, marks, held, left, taken);
    assert steps[..|steps|] == steps;
  }

  /** The first boot of a run. */
  method FirstBoot(cfg: Config, policy: FullQueuePolicy, files: Files, boot: Boot, ghost steps: seq<Step>)
    returns (ok: bool, q: Queue, ghost left: Files)
    requires Coherent(files, cfg.limit) && Winner(files).Some?
    ensures fresh(q) && fresh(q.store) && fresh(q.store.fs) && q.store.cfg == cfg && q.policy == policy
    ensures Accounted(cfg, Payloads(DiskView(files, cfg.limit)), steps, [], 0, left, [])
    ensures !ok ==> !WithinMountLimits(left)
    ensures ok ==>
      && Standing(cfg, q, Payloads(DiskView(files, cfg.limit)), steps, [], 0, left, [])
      && (!q.store.Tidied() ==> Faulty(boot, steps[..0]))
    ensures WellSized(cfg, files) ==> AllSmall(left, SegmentBound(cfg)) && (ok ==> Sized(q, [], 0, left))
  {
    hide Sound, Items, Coherent, DiskView, Winner, Recoverable, Payloads, WithinMountLimits, AllSafe, AllGenuine, Tidy, Faulty,
      Accounted, AllSmall, SegmentBound, AllFitting, Outcome;
    ok, q, left := BootUp(cfg, policy, files, boot);
    AccountedNone(cfg, steps, left);
    assert steps[..0] == [];
    OutcomeNone(Payloads(DiskView(files, cfg.limit)));
    FaultyBoot(boot, []);
  }

  lemma AccountedParts(cfg: Config, p: seq<seq<byte>>, steps: seq<Step>, marks: seq<Mark>, held: nat, left: Files, taken: seq<Stretch>)
    requires Accounted(cfg, p, steps, marks, held, left, taken)
    ensures held <= |marks| <= |steps|
    ensures Coherent(left, cfg.limit) && Payloads(DiskView(left, cfg.limit)) == Outcome(p, steps[..held], marks[..held])
    ensures AllGenuine(taken) && (held == |marks| <==> AllSafe(taken, cfg.limit))
    ensures held < |marks| ==> !steps[held].Restart? && (steps[held].command.Idle? || cfg.maxTotalBytes != 0)
    ensures forall i | 0 <= i < held :: StepGaveWay(cfg, Outcome(p, steps[..i], marks[..i]), steps[i], marks[i])
  {
    hide Coherent, DiskView, Payloads, AllSafe, AllGenuine, Outcome, StepGaveWay;
  }

  // From nothing.

  /** A store on no files at all mounts empty. */
  method Create(cfg: Config, policy: FullQueuePolicy, faults: seq<bool>) returns (q: Queue)
    ensures fresh(q) && fresh(q.store) && fresh(q.store.fs) && q.store.cfg == cfg && q.policy == policy
    ensures q.Valid() && q.store.durable && q.store.exact && q.store.Tidied() && q.store.SlotFree()
    ensures q.store.Contents() == [] && q.NextSequence() == q.store.ram.nextSeq == 0
    ensures Grown(q.store.ram, 0) && q.store.ram.tailGen == 0 && q.store.ram.cachedSlot.None?
    ensures forall n: nat :: Fits(cfg, q.store.ram, n) == Fits(cfg, UNMOUNTED, n)
    ensures true !in faults ==> q.store.fs.Faultless()
    ensures q.store.Small()
  {
    hide Sound, Items, Winner, Recoverable, Coherent, DiskView, Mountable, Inactive;
    BlankMounts(cfg.limit);
    var fs := new FileSystem(map[], faults);
    var store := new AppendLogStore(cfg, fs);
    var _ := store.Mount();
    q := new Queue(store, policy);
    BlankSizes(q);
  }

  lemma BlankSizes(q: Queue)
    requires q.Valid() && q.store.exact && q.store.fs.files == map[] && q.store.ram.ranges == [] && q.store.ram.tailGen == 0
    requires q.store.ram.tailBytes == 0 && q.store.ram.cachedSlot.None?
    ensures forall n: nat :: Fits(q.store.cfg, q.store.ram, n) == Fits(q.store.cfg, UNMOUNTED, n)
  {
    hide Items, LayoutOk, RecordsOk, BytesOk, DurableOk, LengthsOk, Flatten;
    SoundTotal(q.store.fs.files, q.store.ram, q.store.cfg.limit, q.store.durable, q.store.exact);
  }

  lemma BlankMounts(limit: RecordLimit)
    ensures Winner(map[]).None? && Inactive(map[]).Some?
    ensures Coherent(map[], limit) && Mountable(map[], limit) && DiskView(map[], limit) == []
  {
  }

  /** Once a first record is in, the queue is one that any run can go on from. Without failing calls it gets in whenever it is not
      too large and the cap leaves it room. */
  method FirstPush(cfg: Config, faults: seq<bool>, record: seq<byte>) returns (ok: bool, q: Queue)
    ensures fresh(q) && fresh(q.store) && fresh(q.store.fs) && q.store.cfg == cfg
    ensures ok ==> Steady(q) && q.Contents() == [record]
    ensures ok && cfg.maxSegmentBytes <= MAX_REPLAY_SEGMENT_BYTES ==> WellSized(cfg, q.store.fs.files)
    ensures !ok ==> q.Valid() && q.Contents() == []
    ensures true !in faults && !TooLarge(cfg, record) && Fits(cfg, UNMOUNTED, ENQUEUE_OVERHEAD_BYTES + |record|) ==> ok
  {
    hide Sound, Items, Winner, Recoverable, Payloads, Coherent, DiskView, AllSafe, Fits, Advances, Tidy, Ready, Excused, Inactive;
    q := Create(cfg, RejectNewest, faults);
    PayloadsNone();
    GrowsOn(q, 0, ENQUEUE_OVERHEAD_BYTES + |record|);
    StretchesNone(cfg.limit);
    ghost var s := q.store.Now();
    var st, when, taken := q.Enqueue(record);
    HeldParted(cfg, s, q.store.Now(), taken, st);
    ok := st.Ok?;
    if ok { LastingHolds(q); }
  }

  lemma PayloadsNone()
    ensures Payloads([]) == []
  {
  }

  /** A store that was never compacted always has room for one more tail. */
  lemma GrowsOn(q: Queue, n: nat, bytes: nat)
    requires q.Valid() && q.store.SlotFree() && Grown(q.store.ram, n) && n + 2 < 0x1_0000_0000
    ensures Ready(q.store.cfg, q.store.fs.files, q.store.ram, bytes)
  {
    hide Sound, Items, Grown, Ready, Inactive;
    SoundParts(q.store.fs.files, q.store.ram, q.store.cfg.limit, q.store.durable, q.store.exact);
    GrownReady(q.store.cfg, q.store.fs.files, q.store.ram, n, bytes);
  }

  /** The status a command must have. */
  function Due(cfg: Config, p: seq<seq<byte>>, c: Command): Status {
    match c
    case Push(x) => if TooLarge(cfg, x) then Failed(RecordTooLarge) else Status.Ok
    case PopFront => if p == [] then Failed(QueueEmpty) else Status.Ok
    case RewriteFront(x) => if p == [] then Failed(QueueEmpty) else if TooLarge(cfg, x) then Failed(RecordTooLarge) else Status.Ok
    case _ => NoOp
  }

  /** The list after the commands, each taking effect exactly when its status must be Ok. */
  function Listed(cfg: Config, commands: seq<Command>): seq<seq<byte>> {
    if commands == [] then []
    else
      var c, p := commands[|commands| - 1], Listed(cfg, commands[..|commands| - 1]);
      if Due(cfg, p, c).Ok? then Effect(p, c) else p
  }

  /** Any fault-free run of pushes, pops and rewrites on a new store without a cap: every command succeeds unless its record is
      too large or there is nothing to pop or to rewrite, the queue is the list these commands make, and the byte counter is
      the size of the files. */
  method PlainRun(cfg: Config, policy: FullQueuePolicy, commands: seq<Command>) returns (q: Queue, statuses: seq<Status>)
    requires cfg.maxTotalBytes == 0 && |commands| + 2 < 0x1_0000_0000
    requires forall c | c in commands :: c.Push? || c.PopFront? || c.RewriteFront?
    ensures fresh(q) && fresh(q.store) && fresh(q.store.fs)
    ensures |statuses| == |commands|
    ensures forall i | 0 <= i < |commands| :: statuses[i] == Due(cfg, Listed(cfg, commands[..i]), commands[i])
    ensures q.Valid() && q.store.durable && q.Contents() == Listed(cfg, commands)
    ensures q.store.ram.total == Total(q.store.fs.files) && q.store.Small()
  {
    hide Sound, Items, Recoverable, Payloads, AllSafe, Grew, Tidy, Ready, Inactive, Grown, Listed, Total, Fits, TooLarge;
    q := Create(cfg, policy, []);
    statuses := [];
    PayloadsNone();
    ListedNone(cfg);
    assert commands[..0] == [];
    var i := 0;
    while i < |commands|
      invariant 0 <= i == |statuses| <= |commands|
      invariant fresh(q) && fresh(q.store) && fresh(q.store.fs) && q.store.cfg == cfg
      invariant forall k | 0 <= k < i :: statuses[k] == Due(cfg, Listed(cfg, commands[..k]), commands[k])
      invariant Smooth(q, i) && q.Contents() == Listed(cfg, commands[..i])
    {
      assert commands[..i + 1] == commands[..i] + [commands[i]];
      ListedNext(cfg, commands[..i], commands[i]);
      var st := PlainCommand(q, commands[i], i);
      statuses := statuses + [st];
      i := i + 1;
    }
    assert commands[..i] == commands;
    SoundTotal(q.store.fs.files, q.store.ram, cfg.limit, q.store.durable, q.store.exact);
  }

  lemma ListedNone(cfg: Config)
    ensures Listed(cfg, []) == []
  {
  }

  lemma ListedNext(cfg: Config, commands: seq<Command>, c: Command)
    ensures var p := Listed(cfg, commands);
            Listed(cfg, commands + [c]) == if Due(cfg, p, c).Ok? then Effect(p, c) else p
  {
    assert (commands + [c])[..|commands|] == commands;
  }

  /** A queue on a new store in which n commands have met no fault. */
  ghost predicate Smooth(q: Queue, n: nat)
    reads q, q.store, q.store.fs
  {
    && q.Valid() && q.store.durable && q.store.exact && q.store.Tidied() && q.store.SlotFree() && q.store.fs.Faultless()
    && Grown(q.store.ram, n) && q.NextSequence() <= n && q.store.ram.nextSeq == 0
    && (q.store.ram.tailGen == 0 ==> q.store.ram.cachedSlot.None?) && q.store.Small()
  }

  method PlainCommand(q: Queue, c: Command, ghost n: nat) returns (st: Status)
    requires Smooth(q, n) && n + 2 < 0x1_0000_0000 && q.store.cfg.maxTotalBytes == 0
    requires c.Push? || c.PopFront? || c.RewriteFront?
    modifies q, q.store, q.store.fs
    ensures Smooth(q, n + 1) && st == Due(q.store.cfg, old(q.Contents()), c)
    ensures q.Contents() == if st.Ok? then Effect(old(q.Contents()), c) else old(q.Contents())
  {
    hide Sound, Items, Recoverable, Payloads, AllSafe, Grew, Tidy, Ready, Inactive, Grown, Fits, TooLarge, Excused, Total,
      AllGenuine, Selection.NothingLeft, Held, Crashable, Full, Justified, SmallStore, AllFitting, SegmentBound;
    ghost var p, r, s := q.Contents(), q.store.ram, q.store.Now();
    ghost var taken: seq<Stretch> := [];
    StretchesNone(q.store.cfg.limit);
    GrownMore(r, n);
    q.TailCommits();
    assert p[0..] == p;
    match c {
      case Push(record) =>
        var bytes := ENQUEUE_OVERHEAD_BYTES + |record|;
        GrowsOn(q, n, bytes);
        Uncapped(q.store.cfg, q.store.ram, bytes);
        ghost var when;
        st, when, taken := q.Enqueue(record);
        if st.Ok? { GrownTaken(q.store.cfg, r, q.store.ram, n, bytes); }
      case PopFront =>
        GrowsOn(q, n, POP_EVENT_BYTES);
        st := q.Pop();
        if st.Ok? { GrownTaken(q.store.cfg, r, q.store.ram, n, POP_EVENT_BYTES); }
      case RewriteFront(record) =>
        var bytes := ENQUEUE_OVERHEAD_BYTES + |record|;
        GrowsOn(q, n, bytes);
        Uncapped(q.store.cfg, q.store.ram, bytes);
        st, taken := q.RewriteFront(record);
        if st.Ok? { GrownTaken(q.store.cfg, r, q.store.ram, n, bytes); }
    }
    HeldParted(q.store.cfg, s, q.store.Now(), taken, st);
  }

  lemma GrownMore(r: Ram, n: nat)
    ensures Grown(r, n) ==> Grown(r, n + 1)
  {
  }

  lemma GrownTaken(cfg: Config, r: Ram, r': Ram, n: nat, bytes: nat)
    requires Grown(r, n) && Grew(cfg, r, r', bytes) && (r.tailGen == 0 ==> r.cachedSlot.None?)
    ensures Grown(r', n + 1) && r'.nextSeq == r.nextSeq && r'.tailGen != 0
  {
    hide Sealed;
    GrownAdvances(cfg, r, r', n, bytes);
  }

  // Sessions: no crash, any policy, any cap, any compaction.

  /** The list after the calls. */
  function Folded(p: seq<seq<byte>>, calls: seq<Call>, marks: seq<Mark>): seq<seq<byte>>
    requires |marks| == |calls|
  {
    if calls == [] then p
    else
      var n := |calls| - 1;
      var before := Folded(p, calls[..n], marks[..n]);
      AfterCall(before, calls[n], marks[n])
  }

  /** The statuses possible when no call to the file system fails: an empty queue has nothing to pop or to rewrite, and otherwise
      only a full store, an unacceptable record or a limit of the format is in the way. */
  predicate Explained(p: seq<seq<byte>>, c: Call, st: Status) {
    match c
    case Do(Push(_)) => st.Ok? || Honest(st)
    case Do(PopFront) =>
      if p == [] then st == Failed(QueueEmpty)
      else st.Ok? || st == Failed(RangeLimitExceeded) || st == Failed(CounterExhausted)
    case Do(RewriteFront(_)) => if p == [] then st == Failed(QueueEmpty) else st.Ok? || Honest(st)
    case _ => !st.Failed? || st == Failed(CounterExhausted)
  }

  /** In a session the queue is a first-in first-out list, whatever compaction does underneath: a record leaves it by a POP at
      the front or, under DropOldest alone, from the front to make room for a new one, once the store was full and nothing was
      left to compact. Its files stay good for a remount as long
      as every stretch compacted was safe, and only that long. Without failing calls, every status is explained by the list and
      the limits, and the byte counter stays exact. */
  method AnySession(q: Queue, calls: seq<Call>)
    returns (statuses: seq<Status>, ghost marks: seq<Mark>, ghost taken: seq<Stretch>)
    requires q.Valid()
    modifies q, q.store, q.store.fs
    ensures q.Valid() && |marks| == |calls| && Borne(q.store.cfg, old(q.Contents()), calls, marks, statuses)
    ensures q.Contents() == Folded(old(q.Contents()), calls, marks)
    ensures q.policy.RejectNewest? ==> NoneGaveWay(marks)
    ensures AllGenuine(taken)
    ensures old(q.store.Tidied() && q.store.ram.tailGen != 0) ==>
      q.store.durable == (old(q.store.durable) && AllSafe(taken, q.store.cfg.limit))
    ensures old(q.store.fs.Faultless() && q.store.SlotFree()) ==> AllExplained(old(q.Contents()), calls, marks, statuses)
    ensures old(q.store.fs.Faultless() && q.store.SlotFree() && q.store.Tidied()) ==> q.store.exact == old(q.store.exact)
    ensures old(q.store.Small()) ==> q.store.Small()
  {
    hide Held, Sound, Items, Folded, Explained, Tidy, Inactive, AllSafe, AllGenuine, Payloads, AfterCall, GaveWay, SmallStore,
      AllFitting, SegmentBound, Borne, AllExplained, NoneGaveWay;
    statuses, marks, taken := [], [], [];
    ghost var p := q.Contents();
    FoldedNone(p);
    BorneNone(q.store.cfg, p, calls);
    StretchesNone(q.store.cfg.limit);
    assert calls[..0] == [];
    var i := 0;
    while i < |calls|
      invariant 0 <= i <= |calls| && |marks| == i
      invariant Borne(q.store.cfg, p, calls, marks, statuses)
      invariant q.Valid() && q.Contents() == Folded(p, calls[..i], marks)
      invariant q.policy.RejectNewest? ==> NoneGaveWay(marks)
      invariant AllGenuine(taken)
      invariant old(q.store.Tidied()) ==> q.store.Tidied()
      invariant old(q.store.ram.tailGen) != 0 ==> q.store.ram.tailGen != 0
      invariant old(q.store.Tidied() && q.store.ram.tailGen != 0) ==>
        q.store.durable == (old(q.store.durable) && AllSafe(taken, q.store.cfg.limit))
      invariant old(q.store.fs.Faultless()) ==> q.store.fs.Faultless()
      invariant old(q.store.SlotFree()) ==> q.store.SlotFree()
      invariant old(q.store.fs.Faultless() && q.store.SlotFree()) ==> AllExplained(p, calls, marks, statuses)
      invariant old(q.store.fs.Faultless() && q.store.SlotFree() && q.store.Tidied()) ==> q.store.exact == old(q.store.exact)
      invariant old(q.store.Small()) ==> q.store.Small()
    {
      assert calls[..i + 1] == calls[..i] + [calls[i]];
      ghost var s := q.store.Now();
      var st, mark, step := OneCall(q, calls[i]);
      HeldParted(q.store.cfg, s, q.store.Now(), step, st);
      FoldedStep(p, calls[..i], marks, calls[i], mark);
      BorneMore(q.store.cfg, p, calls, marks, statuses, mark, st);
      StretchesJoin(taken, step, q.store.cfg.limit);
      statuses, marks, taken := statuses + [st], marks + [mark], taken + step;
      i := i + 1;
    }
    assert calls[..i] == calls;
  }

  /** Every call's mark is borne out: by its status, and, where records gave way to it, by the state the store was in. */
  ghost predicate Borne(cfg: Config, p: seq<seq<byte>>, calls: seq<Call>, marks: seq<Mark>, statuses: seq<Status>) {
    && |marks| == |statuses| <= |calls|
    && forall i | 0 <= i < |marks| ::
         marks[i].took == statuses[i].Ok? && GaveWay(cfg, Folded(p, calls[..i], marks[..i]), calls[i], marks[i])
  }

  ghost predicate AllExplained(p: seq<seq<byte>>, calls: seq<Call>, marks: seq<Mark>, statuses: seq<Status>) {
    && |marks| == |statuses| <= |calls|
    && forall i | 0 <= i < |marks| :: Explained(Folded(p, calls[..i], marks[..i]), calls[i], statuses[i])
  }

  lemma BorneNone(cfg: Config, p: seq<seq<byte>>, calls: seq<Call>)
    ensures Borne(cfg, p, calls, [], []) && AllExplained(p, calls, [], []) && NoneGaveWay([])
  {
  }

  lemma BorneMore(cfg: Config, p: seq<seq<byte>>, calls: seq<Call>, marks: seq<Mark>, statuses: seq<Status>, m: Mark, st: Status)
    requires Borne(cfg, p, calls, marks, statuses) && |marks| < |calls|
    requires m.took == st.Ok? && GaveWay(cfg, Folded(p, calls[..|marks|], marks), calls[|marks|], m)
    ensures Borne(cfg, p, calls, marks + [m], statuses + [st])
    ensures AllExplained(p, calls, marks, statuses) && Explained(Folded(p, calls[..|marks|], marks), calls[|marks|], st) ==>
              AllExplained(p, calls, marks + [m], statuses + [st])
    ensures NoneGaveWay(marks) && m.when == [] ==> NoneGaveWay(marks + [m])
  {
    hide GaveWay, Explained, Folded;
    assert forall k | 0 <= k <= |marks| :: (marks + [m])[..k] == marks[..k];
    assert marks[..|marks|] == marks;
  }

  lemma FoldedNone(p: seq<seq<byte>>)
    ensures Folded(p, [], []) == p
  {
  }

  lemma FoldedStep(p: seq<seq<byte>>, calls: seq<Call>, marks: seq<Mark>, c: Call, m: Mark)
    requires |marks| == |calls|
    ensures Folded(p, calls + [c], marks + [m]) == AfterCall(Folded(p, calls, marks), c, m)
  {
    assert (calls + [c])[..|calls|] == calls && (marks + [m])[..|marks|] == marks;
  }

  /** What every operation does to a session. */
  lemma HeldParted(cfg: Config, a: Snap, b: Snap, taken: seq<Stretch>, st: Status)
    requires Held(cfg, a, b, taken, st)
    ensures AllGenuine(taken) && (Tidy(a.files, a.ram) ==> Tidy(b.files, b.ram)) && (a.ram.tailGen != 0 ==> b.ram.tailGen != 0)
    ensures Tidy(a.files, a.ram) && (st.Ok? || a.ram.tailGen != 0) ==> b.durable == (a.durable && AllSafe(taken, cfg.limit))
    ensures (true !in a.faults ==> true !in b.faults) && (Inactive(a.files).Some? ==> Inactive(b.files).Some?)
    ensures true !in a.faults && Inactive(a.files).Some? && Tidy(a.files, a.ram) ==> b.exact == a.exact
    ensures SmallSnap(cfg, a) ==> SmallSnap(cfg, b)
  {
    hide Items, SmallStore, AllFitting, Tidy, AllSafe, AllGenuine, Inactive, SegmentBound;
  }

  method OneCall(q: Queue, c: Call) returns (st: Status, ghost mark: Mark, ghost taken: seq<Stretch>)
    requires q.Valid()
    modifies q, q.store, q.store.fs
    ensures mark.took == st.Ok?
    ensures q.Valid() && q.Contents() == AfterCall(old(q.Contents()), c, mark)
    ensures q.policy.RejectNewest? ==> mark.when == []
    ensures GaveWay(q.store.cfg, old(q.Contents()), c, mark)
    ensures Held(q.store.cfg, old(q.store.Now()), q.store.Now(), taken, st)
    ensures old(q.store.fs.Faultless() && q.store.SlotFree()) ==> Explained(old(q.Contents()), c, st)
  {
    hide Sound, Items, Recoverable, Payloads, Fits, AllSafe, AllGenuine, Tidy, Inactive, Ready, Selection.NothingLeft, Grew, Held,
      Crashable, Dropping, Kept, Full, Total, SmallStore, AllFitting, SegmentBound, Reclaimable, StepCounters, Queue.NextSequence,
      Headroom, RangeRoom, TooLarge, GaveWay, AfterCall;
    ghost var p := q.Contents();
    StretchesNone(q.store.cfg.limit);
    q.TailCommits();
    taken := [];
    if c.Do? && c.command.Push? {
      st, mark, taken := ExecutePush(q, c.command.record);
    } else {
      if c == Do(PopFront) {
        st := q.Pop();
      } else if c.Do? && c.command.RewriteFront? {
        st, taken := q.RewriteFront(c.command.record);
      } else {
        st, taken := CompactCall(q.store, c);
      }
      mark := Mark(st.Ok?, []);
      CallGaveNone(q.store.cfg, p, c, mark);
    }
  }

  lemma CallGaveNone(cfg: Config, p: seq<seq<byte>>, c: Call, m: Mark)
    requires m.when == []
    ensures AfterCall(p, c, m) == (if m.took && c.Do? then Effect(p, c.command) else p) && GaveWay(cfg, p, c, m)
  {
    assert p[0..] == p;
  }

  /** A call that compacts. */
  method CompactCall(store: AppendLogStore, c: Call) returns (st: Status, ghost taken: seq<Stretch>)
    requires store.Valid() && (c.Do? ==> !c.command.Push? && !c.command.PopFront? && !c.command.RewriteFront?)
    modifies store, store.fs
    ensures store.Valid() && store.Contents() == old(store.Contents())
    ensures Held(store.cfg, old(store.Now()), store.Now(), taken, st)
    ensures old(store.fs.Faultless()) && st.Failed? ==> st == Failed(CounterExhausted)
  {
    hide Sound, Items, Recoverable, Lower, PlannedInput, Reached, Tidy, StepCounters, AllSafe, AllGenuine, SafeInput, Cuts,
      Inactive, Selection.NothingLeft, StartsAt, SmallStore, AllFitting, SegmentBound, Kept, Held, Crashable, Gone;
    ghost var d, r, s := store.fs.files, store.ram, store.Now();
    StretchesNone(store.cfg.limit);
    StepStart(d, r, store.cfg.limit, store.durable, store.exact);
    taken := [];
    match c {
      case Do(Idle(n)) =>
        var result;
        result, taken := store.CompactIdle(n);
        st := result.status;
      case CompactAll =>
        st, taken := store.CompactFull();
      case Compact(range, fallback) =>
        var compact, _, _, before, input := store.CompactRange(range, fallback);
        st := compact;
        if st.Ok? {
          taken := [Stretch(d, before, input)];
          TakenFrom(d, r, store.cfg.limit, old(store.durable), old(store.exact), range, before, input);
        }
        store.OneStepKept(s, st, taken);
      case Do(CompactFront(endGen)) =>
        st := CompactFromFront(store, endGen);
      case Do(ReclaimFront) =>
        var reclaim, _, _ := store.ReclaimDeadFrontSegment();
        st := reclaim;
    }
    SlotKept(store, s, taken);
    KeptHeld(store.cfg, s, store.Now(), taken, st);
  }

  lemma SlotKept(store: AppendLogStore, s: Snap, taken: seq<Stretch>)
    requires store.Valid() && Kept(store.cfg, s, store.Now(), taken)
    requires s.ram.tailGen == 0 && Inactive(s.files).Some? ==> store.SlotFree()
    ensures Inactive(s.files).Some? ==> Inactive(store.fs.files).Some?
    ensures store.Contents() == Items(s.files, s.ram.records)
  {
    hide Sound, Items, Kept, LayoutOk, Inactive;
    KeptParts(store.cfg, s, store.Now(), taken);
    SoundParts(store.fs.files, store.ram, store.cfg.limit, store.durable, store.exact);
    if store.ram.tailGen != 0 { TailHasSlot(store.fs.files, store.ram); }
  }

  lemma TakenFrom(d: Files, r: Ram, limit: RecordLimit, durable: bool, exact: bool, range: Range, before: seq<u32>, input: Range)
    requires Sound(d, r, limit, durable, exact) && StartsAt(r, range, input) && Cuts(r.gens, before, input)
    ensures AllGenuine([Stretch(d, before, input)])
    ensures AllSafe([Stretch(d, before, input)], limit) <==> SafeInput(d, before, Gens(input), limit)
  {
    hide Sound, LayoutOk, Cuts, SafeInput, AllGenuine, AllSafe;
    StepStart(d, r, limit, durable, exact);
    RangesBound(d, r);
    StretchTaken(d, r, before, input, limit);
  }

  /** Any fault-free session on a new store: the queue is the list its calls make, every status is explained, and at the end the
      byte counter is the size of the files. */
  method FreshSession(cfg: Config, policy: FullQueuePolicy, calls: seq<Call>)
    returns (q: Queue, statuses: seq<Status>, ghost marks: seq<Mark>)
    ensures fresh(q) && fresh(q.store) && fresh(q.store.fs)
    ensures |marks| == |calls| && Borne(cfg, [], calls, marks, statuses) && AllExplained([], calls, marks, statuses)
    ensures q.Valid() && q.Contents() == Folded([], calls, marks)
    ensures policy.RejectNewest? ==> NoneGaveWay(marks)
    ensures q.store.ram.total == Total(q.store.fs.files)
    ensures q.store.Small()
  {
    hide Sound, Items, Folded, Explained, Tidy, Inactive, AllSafe, AllGenuine, Payloads, Total, Grown, Fits, Borne, AllExplained,
      NoneGaveWay, SmallStore, AllFitting, SegmentBound;
    q := Create(cfg, policy, []);
    PayloadsNone();
    ghost var taken;
    statuses, marks, taken := AnySession(q, calls);
    SoundTotal(q.store.fs.files, q.store.ram, cfg.limit, q.store.durable, q.store.exact);
  }
}
