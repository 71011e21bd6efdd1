/** The outbox on top of the queue: sending in order, retry delays, and the drain rate. */
module Outboxes {
  import opened Bytes
  import opened Codec
  import opened Disk
  import opened Session
  import opened Slots
  import opened CompactionStep
  import opened Selection
  import opened Store
  import opened Queues
  import Envelope

  datatype OutboxConfig = OutboxConfig(
    maxDrainAttemptsPerSecond: u16,
    initialRetryDelayMs: u32,
    maxRetryDelayMs: u32,
    jitterPct: byte,
    maxCorruptDropsPerLifetime: u16)

  datatype SendDecision = Sent | Drop | RetryLater

  datatype SendResult = SendResult(decision: SendDecision, retryAfterMs: u32)

  datatype SubmitStatus = SubmitSent | SubmitQueued | SubmitDropped | SubmitQueueFull | SubmitError

  datatype DrainResult = DrainResult(
    attempts: nat, sent: nat, dropped: nat, corruptDropped: nat,
    rateLimited: bool, notDue: bool, queueError: bool)

  /** What the sender is given: a payload, and how often it was tried before. */
  datatype Dispatch = Dispatch(payload: seq<byte>, attempts: byte)

  /** Whether the front payload waits, until when, and how often it was tried. */
  datatype Retry = Retry(cooling: bool, nextAttemptMs: nat, attempts: byte)

  const NEVER_TRIED := Retry(false, 0, 0)

  /** What can be seen of an outbox and its sender. */
  datatype View = View(
    contents: seq<seq<byte>>,
    finished: seq<Option<seq<byte>>>,
    dispatched: seq<Dispatch>,
    answers: seq<SendResult>,
    times: seq<nat>,
    retry: Retry)

  const NOTHING_DRAINED := DrainResult(0, 0, 0, 0, false, false, false)

  /** Clock, sender and random numbers. The clock never goes back; the sender may answer anything. */
  class World {
    var clock: nat
    /** What was handed to the sender, and what it answered each time. */
    ghost var dispatched: seq<Dispatch>
    ghost var answers: seq<SendResult>

    constructor ()
    {
      clock, dispatched, answers := 0, [], [];
    }

    method Now() returns (t: nat)
      modifies this`clock
      ensures t == clock >= old(clock)
    {
      var passed: nat :| true;
      clock := clock + passed;
      t := clock;
    }

    method Send(payload: seq<byte>, attempts: byte) returns (r: SendResult)
      modifies this`dispatched, this`answers
      ensures dispatched == old(dispatched) + [Dispatch(payload, attempts)] && answers == old(answers) + [r]
    {
      r := *;
      dispatched, answers := dispatched + [Dispatch(payload, attempts)], answers + [r];
    }

    method Sample() returns (n: u32)
    {
      n := *;
    }
  }

  // Retry delays.

  function Pow2(n: nat): nat {
    if n == 0 then 1 else 2 * Pow2(n - 1)
  }

  function Min(a: nat, b: nat): nat {
    if a < b then a else b
  }

  /** The delay before jitter: the server's hint, or the initial delay doubled exponent times, capped either way. */
  function BaseDelay(cfg: OutboxConfig, exponent: nat, serverHintMs: u32): nat {
    if serverHintMs > 0 then Min(serverHintMs, cfg.maxRetryDelayMs)
    else Min(cfg.maxRetryDelayMs, cfg.initialRetryDelayMs * Pow2(exponent))
  }

  lemma Doubled(v: nat, n: nat)
    ensures v * Pow2(n + 1) == 2 * (v * Pow2(n))
  {
  }

  lemma {:induction false} DoubledGrows(v: nat, i: nat, n: nat)
    requires i <= n
    ensures v * Pow2(i) <= v * Pow2(n)
  {
    if i < n {
      DoubledGrows(v, i, n - 1);
      Doubled(v, n - 1);
    }
  }

  /** Without a hint the first delay is the initial one and each next one twice the one before, up to the cap; a hint takes the
      place of that, up to the cap. */
  lemma DelaysDouble(cfg: OutboxConfig, k: nat, hint: u32)
    ensures BaseDelay(cfg, 0, 0) == if cfg.initialRetryDelayMs < cfg.maxRetryDelayMs then cfg.initialRetryDelayMs else cfg.maxRetryDelayMs
    ensures var twice := 2 * BaseDelay(cfg, k, 0);
            BaseDelay(cfg, k + 1, 0) == if twice < cfg.maxRetryDelayMs then twice else cfg.maxRetryDelayMs
    ensures hint > 0 ==> BaseDelay(cfg, k, hint) == if hint < cfg.maxRetryDelayMs then hint else cfg.maxRetryDelayMs
  {
    Doubled(cfg.initialRetryDelayMs, k);
    PowZero();
  }

  /** The delay before jitter. The doubling stops once the cap is reached. */
  method ComputeBase(cfg: OutboxConfig, exponent: byte, serverHintMs: u32) returns (base: u32)
    ensures base == BaseDelay(cfg, exponent, serverHintMs) <= cfg.maxRetryDelayMs
  {
    hide Pow2;
    if serverHintMs > 0 {
      return if serverHintMs < cfg.maxRetryDelayMs then serverHintMs else cfg.maxRetryDelayMs;
    }
    var v: nat := cfg.initialRetryDelayMs;
    var i: nat := 0;
    PowZero();
    while i < exponent && v < cfg.maxRetryDelayMs
      invariant 0 <= i <= exponent
      invariant v == cfg.initialRetryDelayMs * Pow2(i)
    {
      Doubled(cfg.initialRetryDelayMs, i);
      v := v * 2;
      i := i + 1;
    }
    DoubledGrows(cfg.initialRetryDelayMs, i, exponent);
    base := if v < cfg.maxRetryDelayMs then v else cfg.maxRetryDelayMs;
  }

  /** computeRetryDelay. Jitter moves the delay by at most its percentage, and never above the cap. */
  method ComputeRetryDelay(cfg: OutboxConfig, exponent: byte, serverHintMs: u32, hasRand: bool, sample: u32) returns (delay: u32)
    ensures delay <= cfg.maxRetryDelayMs
    ensures !hasRand || cfg.jitterPct == 0 ==> delay == BaseDelay(cfg, exponent, serverHintMs)
    ensures var base := BaseDelay(cfg, exponent, serverHintMs);
            var range := base * cfg.jitterPct / 100;
            sample <= 2 * range ==> base - range <= delay <= base + range
  {
    hide BaseDelay;
    var base := ComputeBase(cfg, exponent, serverHintMs);
    if !hasRand || cfg.jitterPct == 0 || base == 0 { return base; }
    var jitterRange64: nat := (base as int) * cfg.jitterPct / 100;
    if jitterRange64 == 0 { return base; }
    var jitterRange: u32 := if jitterRange64 > 0xFFFF_FFFF then 0xFFFF_FFFF else jitterRange64;
    if sample < jitterRange { return if sample < base then base - sample else 0; }
    var add := sample - jitterRange;
    delay := if add <= cfg.maxRetryDelayMs - base then base + add else cfg.maxRetryDelayMs;
  }

  lemma PowZero()
    ensures Pow2(0) == 1
  {
  }

  // The drain rate.

  /** The drain attempts of one rate window. */
  datatype Window = Window(start: nat, times: seq<nat>)

  predicate InSecond(t: nat, a: nat) {
    a <= t < a + 1000
  }

  predicate Past(times: seq<nat>, now: nat) {
    forall t | t in times :: t <= now
  }

  /** The number of times in the 1000 ms from a on. */
  function CountIn(times: seq<nat>, a: nat): (n: nat)
    ensures n <= |times|
  {
    if times == [] then 0
    else CountIn(times[..|times| - 1], a) + (if InSecond(times[|times| - 1], a) then 1 else 0)
  }

  function CountAll(history: seq<Window>, a: nat): nat {
    if history == [] then 0
    else CountAll(history[..|history| - 1], a) + CountIn(history[|history| - 1].times, a)
  }

  /** Windows start at least a second apart, each holds at most max attempts, and each attempt falls in its window's second. */
  predicate Paced(history: seq<Window>, max: nat) {
    && (forall i, j | 0 <= i < j < |history| :: history[i].start + 1000 <= history[j].start)
    && (forall i | 0 <= i < |history| :: |history[i].times| <= max)
    && (forall i, t | 0 <= i < |history| && t in history[i].times :: InSecond(t, history[i].start))
  }

  lemma {:induction false} NoneCounted(times: seq<nat>, a: nat)
    requires forall t | t in times :: !InSecond(t, a)
    ensures CountIn(times, a) == 0
  {
    if times != [] {
      NoneCounted(times[..|times| - 1], a);
    }
  }

  lemma {:induction false} EachCounted(times: seq<nat>, a: nat)
    requires forall t | t in times :: InSecond(t, a)
    ensures CountIn(times, a) == |times|
  {
    if times != [] {
      EachCounted(times[..|times| - 1], a);
    }
  }

  lemma PacedInit(history: seq<Window>, max: nat)
    requires Paced(history, max) && history != []
    ensures Paced(history[..|history| - 1], max)
  {
    var init := history[..|history| - 1];
    assert forall i | 0 <= i < |init| :: init[i] == history[i];
  }

  lemma CountLast(history: seq<Window>, a: nat)
    requires history != []
    ensures CountIn(history[|history| - 1].times, a) <= CountAll(history, a)
  {
    hide CountIn;
  }

  /** Windows that ended before a second began do not count in it. */
  lemma {:induction false} EarlierWindows(history: seq<Window>, max: nat, a: nat)
    requires Paced(history, max)
    requires forall i | 0 <= i < |history| :: history[i].start + 1000 <= a
    ensures CountAll(history, a) == 0
  {
    hide Paced;
    if history != [] {
      PacedInit(history, max);
      EarlierWindows(history[..|history| - 1], max, a);
      LastOutside(history, max, a);
    }
  }

  lemma LastOutside(history: seq<Window>, max: nat, a: nat)
    requires Paced(history, max) && history != []
    requires history[|history| - 1].start + 1000 <= a || a + 1000 <= history[|history| - 1].start
    ensures CountIn(history[|history| - 1].times, a) == 0
  {
    NoneCounted(history[|history| - 1].times, a);
  }

  /** No 1000 ms interval, wherever it starts, holds more than twice the allowed attempts. */
  lemma {:induction false} AtMostTwice(history: seq<Window>, max: nat, a: nat)
    requires Paced(history, max)
    ensures CountAll(history, a) <= 2 * max
  {
    if history != [] {
      var n := |history| - 1;
      var init := history[..n];
      PacedInit(history, max);
      if a + 1000 <= history[n].start {
        LastOutside(history, max, a);
        AtMostTwice(init, max, a);
      } else if n > 0 {
        PacedInit(init, max);
        var early := init[..n - 1];
        forall i | 0 <= i < |early| ensures early[i].start + 1000 <= a {
          assert history[i].start + 1000 <= history[n - 1].start && history[n - 1].start + 1000 <= history[n].start;
        }
        EarlierWindows(init[..n - 1], max, a);
      }
    }
  }

  /** All attempts in order. */
  function Times(history: seq<Window>): seq<nat> {
    if history == [] then [] else Times(history[..|history| - 1]) + history[|history| - 1].times
  }

  lemma {:induction false} CountConcat(x: seq<nat>, y: seq<nat>, a: nat)
    ensures CountIn(x + y, a) == CountIn(x, a) + CountIn(y, a)
  {
    if y == [] {
      assert x + y == x;
    } else {
      assert (x + y)[..|x + y| - 1] == x + y[..|y| - 1];
      CountConcat(x, y[..|y| - 1], a);
    }
  }

  lemma {:induction false} CountTimes(history: seq<Window>, a: nat)
    ensures CountIn(Times(history), a) == CountAll(history, a)
  {
    if history != [] {
      var n := |history| - 1;
      CountTimes(history[..n], a);
      CountConcat(Times(history[..n]), history[n].times, a);
    }
  }

  lemma TimesNew(history: seq<Window>, now: nat)
    ensures Times(history + [Window(now, [now])]) == Times(history) + [now]
  {
    assert (history + [Window(now, [now])])[..|history|] == history;
  }

  lemma TimesMore(history: seq<Window>, now: nat)
    requires history != []
    ensures var last := history[|history| - 1];
            Times(history[|history| - 1 := last.(times := last.times + [now])]) == Times(history) + [now]
  {
    var n := |history| - 1;
    var last := history[n];
    assert history[n := last.(times := last.times + [now])][..n] == history[..n];
    assert Times(history[..n]) + (last.times + [now]) == Times(history[..n]) + last.times + [now];
  }

  lemma PacedMore(history: seq<Window>, max: nat, now: nat)
    requires Paced(history, max) && history != []
    requires InSecond(now, history[|history| - 1].start) && |history[|history| - 1].times| < max
    ensures var last := history[|history| - 1];
            Paced(history[|history| - 1 := last.(times := last.times + [now])], max)
  {
    var last := history[|history| - 1];
    var next := history[|history| - 1 := last.(times := last.times + [now])];
    forall i, t | 0 <= i < |next| && t in next[i].times ensures InSecond(t, next[i].start) {
      if i == |history| - 1 && t != now {
        assert t in last.times;
      }
    }
  }

  lemma PacedNew(history: seq<Window>, max: nat, now: nat)
    requires Paced(history, max) && max > 0
    requires history != [] ==> history[|history| - 1].start + 1000 <= now
    ensures Paced(history + [Window(now, [now])], max)
  {
    var next := history + [Window(now, [now])];
    forall i, j | 0 <= i < j < |next| ensures next[i].start + 1000 <= next[j].start {
      if j == |history| && i < |history| - 1 {
        assert history[i].start + 1000 <= history[|history| - 1].start;
      }
    }
  }

  // What the queue holds.

  /** The payload in an envelope, if it decodes. */
  function PayloadIn(record: seq<byte>): Option<seq<byte>> {
    var e := Envelope.Opened(record);
    if e.Some? then Some(e.value.payload) else None
  }

  function Decoded(contents: seq<seq<byte>>): (p: seq<Option<seq<byte>>>)
    ensures |p| == |contents|
  {
    seq(|contents|, i requires 0 <= i < |contents| => PayloadIn(contents[i]))
  }

  lemma DecodedPush(contents: seq<seq<byte>>, attempts: byte, payload: seq<byte>)
    requires Envelope.Encodable(payload)
    ensures Decoded(contents + [Envelope.Sealed(attempts, payload)]) == Decoded(contents) + [Some(payload)]
  {
    hide Envelope.Opened, Envelope.Sealed;
    Envelope.OpenedExact(Envelope.Sealed(attempts, payload), attempts, payload);
  }

  lemma DecodedTail(contents: seq<seq<byte>>)
    requires contents != []
    ensures Decoded(contents) == [PayloadIn(contents[0])] + Decoded(contents[1..])
  {
    hide PayloadIn;
  }

  lemma DecodedNone()
    ensures Decoded([]) == []
  {
  }

  /** The number of records that did not decode. */
  function Undecoded(p: seq<Option<seq<byte>>>): nat {
    if p == [] then 0 else Undecoded(p[..|p| - 1]) + (if p[|p| - 1].None? then 1 else 0)
  }

  lemma UndecodedPush(p: seq<Option<seq<byte>>>, x: Option<seq<byte>>)
    ensures Undecoded(p + [x]) == Undecoded(p) + (if x.None? then 1 else 0)
  {
    assert (p + [x])[..|p|] == p;
  }

  class Outbox {
    const queue: Queue
    const cfg: OutboxConfig
    const world: World
    const hasRand: bool

    var windowStart: nat
    var attemptsInWindow: nat
    var hasWindow: bool
    var nextAttemptMs: nat
    var hasCooldown: bool
    var frontAttempts: byte
    var corruptDrops: nat

    /** The payloads taken in, in order, and those of them sent or dropped since. A record that was in the queue from the start
        may not decode to a payload. */
    ghost var accepted: seq<Option<seq<byte>>>
    ghost var finished: seq<Option<seq<byte>>>
    /** The drain attempts so far, window by window. */
    ghost var history: seq<Window>
    /** The payload, counted from the first, that the retry state belongs to. */
    ghost var retried: nat
    /** What each call of drainOne reported. */
    ghost var drained: seq<DrainResult>

    constructor (queue: Queue, cfg: OutboxConfig, world: World, hasRand: bool)
      requires queue.Valid() && queue.policy.RejectNewest?
      ensures Valid() && this.queue == queue && this.cfg == cfg && this.world == world
      ensures accepted == Decoded(queue.Contents()) && finished == [] && history == [] && corruptDrops == 0 && drained == []
    {
      this.queue, this.cfg, this.world, this.hasRand := queue, cfg, world, hasRand;
      windowStart, attemptsInWindow, hasWindow := 0, 0, false;
      nextAttemptMs, hasCooldown, frontAttempts, corruptDrops := 0, false, 0, 0;
      accepted, finished, history, retried, drained := Decoded(queue.Contents()), [], [], 0, [];
    }

    function MaxPerSecond(): (n: nat)
      ensures n > 0
    {
      if cfg.maxDrainAttemptsPerSecond == 0 then 1 else cfg.maxDrainAttemptsPerSecond
    }

    ghost predicate RateOk()
      reads this, world
    {
      && Paced(history, MaxPerSecond())
      && (hasWindow <==> history != [])
      && (hasWindow ==>
            && history[|history| - 1].start == windowStart <= world.clock
            && |history[|history| - 1].times| == attemptsInWindow
            && Past(history[|history| - 1].times, world.clock))
    }

    /** Nothing is lost, duplicated or reordered: what was taken in is what was finished, then what is queued. Retry state is
        kept for the front payload only. As many records were dropped as corrupt as did not decode, up to the limit. */
    ghost predicate Valid()
      reads this, world, queue, queue.store, queue.store.fs
    {
      && queue.Valid() && queue.policy.RejectNewest?
      && accepted == finished + Decoded(queue.Contents())
      && corruptDrops == Undecoded(finished) <= cfg.maxCorruptDropsPerLifetime
      && (hasCooldown || frontAttempts > 0 ==> retried == |finished| && queue.Contents() != [])
      && RateOk()
    }

    predicate DrainRateAllows(nowMs: nat)
      reads this
    {
      !hasWindow || nowMs - windowStart >= 1000 || attemptsInWindow < MaxPerSecond()
    }

    /** When an attempt at the front payload is due and the rate allows it. */
    predicate Due(nowMs: nat)
      reads this
    {
      !(hasCooldown && nextAttemptMs > nowMs) && DrainRateAllows(nowMs)
    }

    /** recordDrainAttempt: count the attempt in the open window, or open a new one. */
    method RecordDrainAttempt(nowMs: nat)
      requires Valid() && nowMs == world.clock && DrainRateAllows(nowMs)
      modifies this`windowStart, this`attemptsInWindow, this`hasWindow, this`history
      ensures Valid() && Times(history) == Times(old(history)) + [nowMs]
    {
      hide Times, Paced, Sound, Items, Payloads, Decoded, Undecoded;
      if !hasWindow || nowMs - windowStart >= 1000 {
        PacedNew(history, MaxPerSecond(), nowMs);
        TimesNew(history, nowMs);
        history := history + [Window(nowMs, [nowMs])];
        windowStart := nowMs;
        attemptsInWindow := 0;
        hasWindow := true;
      } else {
        PacedMore(history, MaxPerSecond(), nowMs);
        TimesMore(history, nowMs);
        history := history[|history| - 1 := Window(windowStart, history[|history| - 1].times + [nowMs])];
      }
      attemptsInWindow := attemptsInWindow + 1;
    }

    /** The drain rate: whatever second is looked at, it holds at most twice the configured number of attempts, where 0 stands
        for 1. */
    lemma RateBound(a: nat)
      requires Valid()
      ensures CountIn(Times(history), a) <= 2 * if cfg.maxDrainAttemptsPerSecond == 0 then 1 else cfg.maxDrainAttemptsPerSecond
    {
      CountTimes(history, a);
      AtMostTwice(history, MaxPerSecond(), a);
    }

    /** An attempt within the configured number is allowed: it is so whenever the last 1000 ms hold fewer. */
    lemma AllowedWithin(nowMs: nat)
      requires Valid() && world.clock <= nowMs
      requires CountIn(Times(history), if nowMs < 999 then 0 else nowMs - 999)
               < if cfg.maxDrainAttemptsPerSecond == 0 then 1 else cfg.maxDrainAttemptsPerSecond
      ensures DrainRateAllows(nowMs)
    {
      hide Sound, Items, Payloads, Decoded, Undecoded, CountIn, CountAll, Times;
      var a := if nowMs < 999 then 0 else nowMs - 999;
      CountTimes(history, a);
      if !DrainRateAllows(nowMs) {
        CountLast(history, a);
        EachCounted(history[|history| - 1].times, a);
      }
    }

    /** dispatchSend: hand a payload to the sender. */
    method AskSender(payload: seq<byte>, attempts: byte) returns (r: SendResult)
      requires Valid()
      modifies world`dispatched, world`answers
      ensures Valid()
      ensures world.dispatched == old(world.dispatched) + [Dispatch(payload, attempts)] && world.answers == old(world.answers) + [r]
    {
      hide Sound, Items, Payloads, Paced, Decoded, Undecoded;
      r := world.Send(payload, attempts);
    }

    method ClearFrontCooldown()
      modifies this`nextAttemptMs, this`hasCooldown, this`frontAttempts
      ensures RetryState() == NEVER_TRIED
    {
      nextAttemptMs, hasCooldown, frontAttempts := 0, false, 0;
    }

    /** enqueueRecord: wrap the payload and queue it. */
    method EnqueueRecord(payload: seq<byte>, attempts: byte) returns (status: SubmitStatus)
      requires Valid()
      modifies this`accepted, queue, queue.store, queue.store.fs
      ensures Valid()
      ensures Waits(status)
      ensures status == SubmitQueued ==>
        && Envelope.Encodable(payload)
        && accepted == old(accepted) + [Some(payload)] && queue.Contents() == old(queue.Contents()) + [Envelope.Sealed(attempts, payload)]
      ensures status != SubmitQueued ==> accepted == old(accepted) && queue.Contents() == old(queue.Contents())
      ensures status == SubmitQueueFull ==> NoRoom(payload, attempts)
      ensures old(Welcome(payload, attempts)) ==> status == SubmitQueued
    {
      hide Envelope.Opened, Envelope.Sealed, Envelope.Encodable, Decoded, Sound, Items, Payloads, Recoverable, Undecoded, Fits,
        Ready, Excused, Paced, Tidy, Inactive, AllSafe, AllGenuine, NothingLeft, Held, Crashable, Full, Grew, Justified;
      var record := Envelope.Encode(attempts, payload);
      if record.None? { return SubmitError; }
      ghost var c := queue.Contents();
      var st, _, _ := queue.Enqueue(record.value);
      assert c[0..] == c;
      if st.Ok? {
        DecodedPush(c, attempts, payload);
        accepted := accepted + [Some(payload)];
        return SubmitQueued;
      }
      status := if st == Failed(QueueFull) then SubmitQueueFull else SubmitError;
    }

    /** No call fails, and the store takes the payload in its envelope without compacting. */
    ghost predicate Welcome(payload: seq<byte>, attempts: byte)
      reads queue.store, queue.store.fs
    {
      && Envelope.Encodable(payload) && queue.store.fs.Faultless() && queue.Taken(Envelope.Sealed(attempts, payload))
      && Ready(queue.store.cfg, queue.store.fs.files, queue.store.ram, ENQUEUE_OVERHEAD_BYTES + |Envelope.Sealed(attempts, payload)|)
    }

    /** The store is full for the payload in its envelope. */
    ghost predicate NoRoom(payload: seq<byte>, attempts: byte)
      reads queue.store, queue.store.fs
    {
      && Envelope.Encodable(payload)
      && Full(queue.store.cfg, queue.store.ram, ENQUEUE_OVERHEAD_BYTES + |Envelope.Sealed(attempts, payload)|)
    }

    /** The front payload is to be tried again later: after the delay, with one more attempt counted. */
    method CoolDown(nowMs: nat, attempts: byte, retryAfterMs: u32)
      requires Valid() && queue.Contents() != [] && attempts > 0
      modifies this`frontAttempts, this`nextAttemptMs, this`hasCooldown, this`retried
      ensures Valid() && Cooling(cfg, hasRand, RetryState(), nowMs, attempts, retryAfterMs)
    {
      hide Sound, Items, Payloads, Paced, Decoded, Undecoded, BaseDelay;
      var sample := world.Sample();
      var delayMs := ComputeRetryDelay(cfg, attempts - 1, retryAfterMs, hasRand, sample);
      frontAttempts := attempts;
      nextAttemptMs := nowMs + delayMs;
      hasCooldown := true;
      retried := |finished|;
    }

    /** What is kept about retrying the front payload. */
    function RetryState(): Retry
      reads this
    {
      Retry(hasCooldown, nextAttemptMs, frontAttempts)
    }

    /** This moment of the outbox. */
    ghost function Seen(): View
      reads this, world, queue, queue.store, queue.store.fs
    {
      View(queue.Contents(), finished, world.dispatched, world.answers, Times(history), RetryState())
    }

    /** submit. With records waiting the payload is queued behind them; otherwise it is sent at once, and queued only when the
        sender asks to retry later. */
    method Submit(payload: seq<byte>) returns (status: SubmitStatus)
      requires Valid()
      modifies this, world, queue, queue.store, queue.store.fs
      ensures Valid() && drained == old(drained)
      ensures Submitted(cfg, hasRand, old(Seen()), Seen(), world.clock, payload, status)
      ensures accepted == if status == SubmitQueueFull || status == SubmitError then old(accepted) else old(accepted) + [Some(payload)]
      ensures status == SubmitQueueFull ==> NoRoom(payload, 0)
      ensures old(Welcome(payload, 0)) ==> status != SubmitError && status != SubmitQueueFull
    {
      hide Valid, Times, Queue.Contents, Envelope.Sealed, Envelope.Encodable, NoRoom, Welcome, BaseDelay, Cooling, Submitted;
      ghost var a := Seen();
      var waiting := AnyQueued();
      if waiting {
        status := EnqueueRecord(payload, 0);
        SubmittedBehind(cfg, hasRand, a, Seen(), world.clock, payload, status);
        return;
      }
      var result := AskSender(payload, 0);
      ghost var b := Seen();
      if result.decision.RetryLater? {
        status := EnqueueRecord(payload, 0);
        if status == SubmitQueued {
          var nowMs := ReadClock();
          CoolDown(nowMs, 1, result.retryAfterMs);
        }
      } else {
        FinishUnqueued(payload);
        status := if result.decision.Sent? then SubmitSent else SubmitDropped;
      }
      SubmittedAnswered(cfg, hasRand, a, b, Seen(), world.clock, payload, result, status);
    }

    method ReadClock() returns (nowMs: nat)
      requires Valid()
      modifies world`clock
      ensures Valid() && nowMs == world.clock
    {
      hide Sound, Items, Payloads, Paced, Decoded, Undecoded;
      nowMs := world.Now();
    }

    /** Whether records are waiting. */
    method AnyQueued() returns (waiting: bool)
      requires Valid()
      modifies queue
      ensures Valid() && (waiting <==> queue.Contents() != []) && Seen() == old(Seen())
    {
      hide Sound, Items, Payloads, Paced, Decoded, Undecoded, Times;
      queue.LoadLatestIndex();
      waiting := queue.count > 0;
    }

    /** A payload that never was in the queue is sent or dropped. */
    ghost method FinishUnqueued(payload: seq<byte>)
      requires Valid() && queue.Contents() == []
      modifies this`accepted, this`finished
      ensures Valid() && accepted == old(accepted) + [Some(payload)] && finished == old(finished) + [Some(payload)]
    {
      hide Decoded, Sound, Items, Payloads, Paced, Undecoded;
      DecodedNone();
      UndecodedPush(finished, Some(payload));
      accepted, finished := accepted + [Some(payload)], finished + [Some(payload)];
    }

    /** No call fails, and there is room for the event. */
    ghost predicate PopSucceeds()
      reads queue.store, queue.store.fs
    {
      queue.store.fs.Faultless() && Ready(queue.store.cfg, queue.store.fs.files, queue.store.ram, POP_EVENT_BYTES)
    }

    /** Take the front record off the queue: its payload was sent or dropped, or it did not decode. */
    method PopFront(corrupt: bool) returns (ok: bool)
      requires Valid() && queue.Contents() != [] && (corrupt <==> PayloadIn(queue.Contents()[0]).None?)
      requires corrupt ==> corruptDrops < cfg.maxCorruptDropsPerLifetime
      modifies this`finished, this`nextAttemptMs, this`hasCooldown, this`frontAttempts, this`corruptDrops, queue, queue.store, queue.store.fs
      ensures Valid()
      ensures ok ==> finished == old(finished) + [PayloadIn(old(queue.Contents())[0])]
                     && queue.Contents() == old(queue.Contents())[1..] && RetryState() == NEVER_TRIED
      ensures !ok ==> finished == old(finished) && queue.Contents() == old(queue.Contents()) && RetryState() == old(RetryState())
      ensures corruptDrops == old(corruptDrops) + (if ok && corrupt then 1 else 0)
      ensures old(PopSucceeds()) ==> ok
    {
      hide PayloadIn, Sound, Items, Payloads, Recoverable, Paced, Decoded, Undecoded, Ready, Excused, Tidy, Inactive, Held,
        Crashable, Grew;
      DecodedTail(queue.Contents());
      ghost var front := PayloadIn(queue.Contents()[0]);
      UndecodedPush(finished, front);
      var st := queue.Pop();
      if !st.Ok? { return false; }
      finished := finished + [front];
      ClearFrontCooldown();
      if corrupt { corruptDrops := corruptDrops + 1; }
      ok := true;
    }

    /** dropCorruptFrontRecord: take a record that cannot be read or decoded off the queue, so often and no more. */
    method DropCorruptFrontRecord() returns (result: DrainResult)
      requires Valid() && queue.Contents() != [] && PayloadIn(queue.Contents()[0]).None?
      modifies this`finished, this`nextAttemptMs, this`hasCooldown, this`frontAttempts, this`corruptDrops, queue, queue.store, queue.store.fs
      ensures Valid()
      ensures result == NOTHING_DRAINED.(corruptDropped := 1) || result == NOTHING_DRAINED.(queueError := true)
      ensures result.corruptDropped == 1 ==>
        && old(corruptDrops) < cfg.maxCorruptDropsPerLifetime && finished == old(finished) + [None]
        && queue.Contents() == old(queue.Contents())[1..] && RetryState() == NEVER_TRIED
      ensures result.corruptDropped == 0 ==>
        finished == old(finished) && queue.Contents() == old(queue.Contents()) && RetryState() == old(RetryState())
      ensures old(corruptDrops) < cfg.maxCorruptDropsPerLifetime && old(PopSucceeds()) ==> result.corruptDropped == 1
    {
      hide PayloadIn, Sound, Items, Payloads, Recoverable, Paced, Decoded, Undecoded, Ready, Tidy, Inactive;
      if cfg.maxCorruptDropsPerLifetime == 0 || corruptDrops >= cfg.maxCorruptDropsPerLifetime {
        return NOTHING_DRAINED.(queueError := true);
      }
      var ok := PopFront(true);
      result := if ok then NOTHING_DRAINED.(corruptDropped := 1) else NOTHING_DRAINED.(queueError := true);
    }

    /** One attempt to send the front payload, which is due. The answer decides: to retry later leaves the payload in front with a
        cooldown and one more attempt counted, while sent and dropped take it off the queue, each under its own count. */
    method SendFront(nowMs: nat, payload: seq<byte>) returns (result: DrainResult)
      requires Valid() && queue.Contents() != [] && PayloadIn(queue.Contents()[0]) == Some(payload)
      requires nowMs == world.clock && Due(nowMs)
      modifies this, world`dispatched, world`answers, queue, queue.store, queue.store.fs
      ensures Valid() && accepted == old(accepted) && corruptDrops == old(corruptDrops) && drained == old(drained)
      ensures Drains(cfg, hasRand, old(Seen()), Seen(), nowMs, result) && result.attempts == 1
      ensures !result.notDue && !result.rateLimited && result.corruptDropped == 0
      ensures old(PopSucceeds()) ==> !result.queueError
    {
      hide Valid, PayloadIn, Times, PopSucceeds, Cooling, Queue.Contents, DrainRateAllows, Envelope.Opened, Drains;
      result := NOTHING_DRAINED;
      ghost var a := Seen();
      RecordDrainAttempt(nowMs);
      result := result.(attempts := 1);
      var sendResult := AskSender(payload, frontAttempts);
      ghost var b := Tried(a, nowMs, payload, sendResult);
      assert Seen() == b;
      if sendResult.decision.RetryLater? {
        CoolDown(nowMs, if frontAttempts < 255 then frontAttempts + 1 else frontAttempts, sendResult.retryAfterMs);
        DrainsLater(cfg, hasRand, a, nowMs, payload, sendResult, RetryState());
        return;
      }
      var ok := PopFront(false);
      if !ok {
        result := result.(queueError := true);
        DrainsStuck(cfg, hasRand, a, b, nowMs, payload, sendResult, result);
        return;
      }
      result := if sendResult.decision.Sent? then result.(sent := 1) else result.(dropped := 1);
      DrainsGone(cfg, hasRand, a, Seen(), nowMs, payload, sendResult, result);
    }

    /** With the queue empty, no retry state is kept. */
    method NothingQueued()
      requires Valid()
      modifies this`nextAttemptMs, this`hasCooldown, this`frontAttempts
      ensures Valid() && RetryState() == NEVER_TRIED
    {
      hide Sound, Items, Payloads, Paced, Decoded, Undecoded;
      ClearFrontCooldown();
    }

    /** The time and the front of the queue. */
    method LookAtFront() returns (nowMs: nat, st: Status, record: seq<byte>)
      requires Valid()
      modifies world`clock, queue
      ensures Valid() && Peeked(st, record) && nowMs == world.clock >= old(world.clock) && st != NoOp
      ensures st == (if queue.Contents() == [] then Failed(QueueEmpty) else Ok)
      ensures queue.Contents() == old(queue.Contents()) && PopSucceeds() == old(PopSucceeds())
    {
      hide PayloadIn, Sound, Items, Payloads, Paced, Decoded, Undecoded, Ready;
      nowMs := world.Now();
      st, record := queue.Peek();
    }

    /** What reading the front of the queue can have brought: the record, nothing from an empty queue, or an error. */
    ghost predicate Peeked(st: Status, record: seq<byte>)
      reads queue, queue.store, queue.store.fs
    {
      var c := queue.Contents();
      && (st.Ok? ==> c != [] && record == c[0])
      && (st == Failed(QueueEmpty) <==> c == [])
      && (Queue.CorruptRead(st) ==> PayloadIn(c[0]).None?)
    }

    /** What is due stays due. */
    lemma DueOn()
      requires Due(world.clock)
      ensures forall t | world.clock <= t :: Due(t)
    {
    }

    /** The part of drainOne behind the reading of the front record. */
    method DrainPeeked(nowMs: nat, st: Status, record: seq<byte>) returns (result: DrainResult)
      requires Valid() && Peeked(st, record) && nowMs == world.clock
      modifies this, world`dispatched, world`answers, queue, queue.store, queue.store.fs
      ensures Valid() && accepted == old(accepted) && drained == old(drained)
      ensures Drains(cfg, hasRand, old(Seen()), Seen(), nowMs, result)
      ensures result.rateLimited ==> !DrainRateAllows(nowMs)
      ensures result.corruptDropped == 1 ==> old(corruptDrops) < cfg.maxCorruptDropsPerLifetime
      ensures st.Ok? ==> (result.attempts == 1 <==> PayloadIn(old(queue.Contents())[0]).Some? && old(Due(nowMs)))
      ensures st.Ok? && PayloadIn(old(queue.Contents())[0]).Some? && !old(Due(nowMs)) ==> result.notDue || result.rateLimited
      ensures st.Ok? && old(PopSucceeds()) ==>
        (result.queueError <==> PayloadIn(old(queue.Contents())[0]).None? && old(corruptDrops) >= cfg.maxCorruptDropsPerLifetime)
    {
      hide Valid, PopSucceeds, Envelope.Opened, Times, Queue.Contents, Payloads, Items, Decoded, Drains;
      ghost var a := Seen();
      if !st.Ok? {
        if st == Failed(QueueEmpty) {
          NothingQueued();
          DrainsNothing(cfg, hasRand, a, nowMs);
          return NOTHING_DRAINED;
        }
        DrainsCorrupt(cfg, hasRand, a, nowMs);
        if Queue.CorruptRead(st) {
          result := DropCorruptFrontRecord();
          return;
        }
        return NOTHING_DRAINED.(queueError := true);
      }
      var decoded := Envelope.Decode(record);
      if decoded.None? {
        DrainsCorrupt(cfg, hasRand, a, nowMs);
        result := DropCorruptFrontRecord();
        return;
      }
      DrainsHeldBack(cfg, hasRand, a, nowMs);
      if hasCooldown && nextAttemptMs > nowMs { return NOTHING_DRAINED.(notDue := true); }
      if !DrainRateAllows(nowMs) { return NOTHING_DRAINED.(rateLimited := true); }
      result := SendFront(nowMs, decoded.value.payload);
    }

    /** drainOne: one attempt to send the front payload, made exactly when it is due and the rate allows it. The answer decides as
        in SendFront. A front record that does not decode is dropped instead, as often as the configuration allows. */
    method DrainOne() returns (result: DrainResult)
      requires Valid()
      modifies this, world, queue, queue.store, queue.store.fs
      ensures Valid() && accepted == old(accepted) && drained == old(drained) + [result] && old(world.clock) <= world.clock
      ensures Drains(cfg, hasRand, old(Seen()), Seen(), world.clock, result)
      ensures var now := world.clock;
              && (result.attempts == 1 <==>
                    old(queue.Contents()) != [] && PayloadIn(old(queue.Contents())[0]).Some? && old(Due(now)))
              && (result.rateLimited ==> !DrainRateAllows(now))
      ensures AllDecode(accepted) ==> result.corruptDropped == 0
      ensures result.corruptDropped == 1 ==> old(corruptDrops) < cfg.maxCorruptDropsPerLifetime
      ensures old(queue.Contents()) != [] && old(PopSucceeds()) ==>
        (result.queueError <==> PayloadIn(old(queue.Contents())[0]).None? && old(corruptDrops) >= cfg.maxCorruptDropsPerLifetime)
    {
      hide Valid, PopSucceeds, Peeked, PayloadIn, Times, AllDecode, Queue.Contents, Payloads, Items, RateOk, Decoded, Cooling;
      QueuedAreAccepted();
      var nowMs, st, record := LookAtFront();
      result := DrainPeeked(nowMs, st, record);
      Logged(result);
    }

    /** Note what drainOne reported. */
    ghost method Logged(result: DrainResult)
      modifies this`drained
      ensures drained == old(drained) + [result]
      ensures old(Valid()) ==> Valid()
    {
      hide Sound, Items, Payloads, Paced, Decoded, Undecoded;
      drained := drained + [result];
    }

    /** drainUpTo: attempts in a row for as long as each takes a record off the queue. It ends before its limit only on an empty
        queue, at a payload that is to be tried again later, where the rate allows no more, or where the queue failed. */
    method DrainUpTo(maxDrainAttempts: u16) returns (total: DrainResult)
      requires Valid()
      modifies this, world, queue, queue.store, queue.store.fs
      ensures Valid() && accepted == old(accepted)
      ensures AllButLastGoOn(old(drained), drained) && total == SumOf(drained[|old(drained)|..])
      ensures |old(drained)| < |drained| <= |old(drained)| + AtLeastOne(maxDrainAttempts)
      ensures |drained| < |old(drained)| + AtLeastOne(maxDrainAttempts) ==> Stops(drained[|drained| - 1])
      ensures |world.dispatched| == |old(world.dispatched)| + total.attempts && |world.answers| == |old(world.answers)| + total.attempts
      ensures total.sent + total.dropped <= total.attempts
      ensures total.attempts + total.corruptDropped <= AtLeastOne(maxDrainAttempts)
      ensures total.attempts + total.corruptDropped < AtLeastOne(maxDrainAttempts) ==>
        queue.Contents() == [] || hasCooldown || total.notDue || total.rateLimited || total.queueError
      ensures (total.notDue ==> hasCooldown && world.clock < nextAttemptMs) && (total.rateLimited ==> !DrainRateAllows(world.clock))
      ensures old(queue.Contents()) != [] && PayloadIn(old(queue.Contents())[0]).Some? && old(Due(world.clock)) ==> total.attempts >= 1
      ensures |finished| == |old(finished)| + total.sent + total.dropped + total.corruptDropped <= |accepted|
      ensures finished == accepted[..|finished|]
      ensures AllDecode(old(accepted)) ==> total.corruptDropped == 0
    {
      hide Valid, PayloadIn, Times, AllDecode, Queue.Contents, DrainRateAllows, Drains, Stops, AllButLastGoOn, Counted, GoingOn,
        SumOf, PopSucceeds, Payloads, Items, Envelope.Opened;
      total := DrainResult(0, 0, 0, 0, false, false, false);
      ghost var d0, a0 := drained, Seen();
      CountedNone(a0, d0);
      if Due(world.clock) { DueOn(); }
      var limit := if maxDrainAttempts == 0 then 1 else maxDrainAttempts;
      var i := 0;
      while i < limit
        invariant 0 <= i <= limit
        invariant Valid() && accepted == old(accepted)
        invariant Counted(a0, Seen(), d0, drained, total, i) && GoingOn(d0, drained, total, i)
        invariant i == 0 ==> queue.Contents() == a0.contents && (old(Due(world.clock)) ==> forall t | world.clock <= t :: Due(t))
        invariant i > 0 && a0.contents != [] && PayloadIn(a0.contents[0]).Some? && old(Due(world.clock)) ==> total.attempts > 0
        invariant AllDecode(accepted) ==> total.corruptDropped == 0
      {
        ghost var was, a := drained, Seen();
        var current := DrainOne();
        CountedMore(cfg, hasRand, a0, a, Seen(), world.clock, d0, was, total, current, i);
        total := DrainResult(
          total.attempts + current.attempts, total.sent + current.sent, total.dropped + current.dropped,
          total.corruptDropped + current.corruptDropped, total.rateLimited || current.rateLimited,
          total.notDue || current.notDue, total.queueError || current.queueError);
        var madeProgress := current.sent != 0 || current.dropped != 0 || current.corruptDropped != 0;
        i := i + 1;
        if !madeProgress || current.notDue || current.rateLimited || current.queueError { break; }
      }
      QueuedAreAccepted();
      CountedParts(a0, Seen(), d0, drained, total, i);
    }

    /** What was finished came first; what is queued was taken in. */
    lemma QueuedAreAccepted()
      requires Valid()
      ensures |finished| <= |accepted| && finished == accepted[..|finished|]
      ensures AllDecode(accepted) && queue.Contents() != [] ==> PayloadIn(queue.Contents()[0]).Some?
    {
      hide PayloadIn, Sound, Items, Payloads, Paced, Decoded, Undecoded;
      if queue.Contents() != [] {
        DecodedFront(queue.Contents(), finished);
      }
    }
  }

  /** A drain that ends the loop of drainUpTo: it took nothing off the queue, or it says why no other is to follow. */
  predicate Stops(r: DrainResult) {
    Progress(r) == 0 || r.notDue || r.rateLimited || r.queueError
  }

  function SumOf(rs: seq<DrainResult>): DrainResult {
    if rs == [] then NOTHING_DRAINED
    else
      var sum, r := SumOf(rs[..|rs| - 1]), rs[|rs| - 1];
      DrainResult(sum.attempts + r.attempts, sum.sent + r.sent, sum.dropped + r.dropped, sum.corruptDropped + r.corruptDropped,
                  sum.rateLimited || r.rateLimited, sum.notDue || r.notDue, sum.queueError || r.queueError)
  }

  /** What i drains in a row have come to. */
  ghost predicate Counted(a: View, b: View, before: seq<DrainResult>, after: seq<DrainResult>, total: DrainResult, i: nat) {
    && AllButLastGoOn(before, after) && |after| == |before| + i && total == SumOf(after[|before|..])
    && |b.dispatched| == |a.dispatched| + total.attempts && |b.answers| == |a.answers| + total.attempts
    && |b.finished| == |a.finished| + total.sent + total.dropped + total.corruptDropped
    && total.sent + total.dropped <= total.attempts && total.attempts + total.corruptDropped <= i
  }

  /** So far each took a record off the queue. */
  predicate GoingOn(before: seq<DrainResult>, after: seq<DrainResult>, total: DrainResult, i: nat) {
    && AllGoOn(before, after) && total.attempts + total.corruptDropped == i
    && !total.notDue && !total.rateLimited && !total.queueError
  }

  lemma CountedNone(a: View, before: seq<DrainResult>)
    ensures Counted(a, a, before, before, NOTHING_DRAINED, 0) && GoingOn(before, before, NOTHING_DRAINED, 0)
  {
    SumNone(before);
  }

  /** One more drain. */
  lemma CountedMore(cfg: OutboxConfig, hasRand: bool, a0: View, a: View, b: View, nowMs: nat, before: seq<DrainResult>,
                    was: seq<DrainResult>, total: DrainResult, r: DrainResult, i: nat)
    requires Counted(a0, a, before, was, total, i) && GoingOn(before, was, total, i) && Drains(cfg, hasRand, a, b, nowMs, r)
    ensures var next := DrainResult(total.attempts + r.attempts, total.sent + r.sent, total.dropped + r.dropped,
                                    total.corruptDropped + r.corruptDropped, total.rateLimited || r.rateLimited,
                                    total.notDue || r.notDue, total.queueError || r.queueError);
            && Counted(a0, b, before, was + [r], next, i + 1)
            && (!Stops(r) ==> GoingOn(before, was + [r], next, i + 1))
            && (next.notDue ==> b.retry.cooling && nowMs < b.retry.nextAttemptMs) && (next.rateLimited ==> r.rateLimited)
            && (Stops(r) ==> b.contents == [] || b.retry.cooling || next.rateLimited || next.queueError)
    ensures Stops(r) <==> r.sent == 0 && r.dropped == 0 && r.corruptDropped == 0
    ensures r.notDue || r.rateLimited || r.queueError ==> Stops(r)
  {
    hide Drains, SumOf;
    DrainsCount(cfg, hasRand, a, b, nowMs, r);
    SumMore(before, was, r);
  }

  lemma CountedParts(a: View, b: View, before: seq<DrainResult>, after: seq<DrainResult>, total: DrainResult, i: nat)
    requires Counted(a, b, before, after, total, i)
    ensures AllButLastGoOn(before, after) && |after| == |before| + i && total == SumOf(after[|before|..])
    ensures |b.dispatched| == |a.dispatched| + total.attempts && |b.answers| == |a.answers| + total.attempts
    ensures |b.finished| == |a.finished| + total.sent + total.dropped + total.corruptDropped
    ensures total.sent + total.dropped <= total.attempts && total.attempts + total.corruptDropped <= i
    ensures GoingOn(before, after, total, i) ==>
              total.attempts + total.corruptDropped == i && !total.notDue && !total.rateLimited && !total.queueError
  {
    hide SumOf, AllButLastGoOn;
  }

  lemma SumNone(before: seq<DrainResult>)
    ensures SumOf(before[|before|..]) == NOTHING_DRAINED && AllGoOn(before, before) && AllButLastGoOn(before, before)
  {
  }

  /** One more drain, after some that went on. */
  lemma SumMore(before: seq<DrainResult>, rs: seq<DrainResult>, r: DrainResult)
    requires AllGoOn(before, rs)
    ensures |before| <= |rs|
    ensures var sum := SumOf(rs[|before|..]);
            SumOf((rs + [r])[|before|..])
            == DrainResult(sum.attempts + r.attempts, sum.sent + r.sent, sum.dropped + r.dropped, sum.corruptDropped + r.corruptDropped,
                           sum.rateLimited || r.rateLimited, sum.notDue || r.notDue, sum.queueError || r.queueError)
    ensures AllButLastGoOn(before, rs + [r]) && (!Stops(r) ==> AllGoOn(before, rs + [r]))
  {
    hide Stops;
    assert (rs + [r])[|before|..] == rs[|before|..] + [r];
    assert (rs[|before|..] + [r])[..|rs[|before|..]|] == rs[|before|..];
  }

  predicate AllGoOn(before: seq<DrainResult>, after: seq<DrainResult>) {
    before <= after && forall i | |before| <= i < |after| :: !Stops(after[i])
  }

  /** Of the drains that followed, all but the last went on. */
  predicate AllButLastGoOn(before: seq<DrainResult>, after: seq<DrainResult>) {
    before <= after && forall i | |before| <= i < |after| - 1 :: !Stops(after[i])
  }

  /** The statuses of a payload that was not sent at once: queued, or not taken. */
  predicate Waits(status: SubmitStatus) {
    status == SubmitQueued || status == SubmitQueueFull || status == SubmitError
  }

  /** The front payload was tried at nowMs and is to be tried again after the delay for so many attempts and the server's hint. */
  predicate Cooling(cfg: OutboxConfig, hasRand: bool, retry: Retry, nowMs: nat, attempts: byte, retryAfterMs: u32)
    requires attempts > 0
  {
    && retry.cooling && retry.attempts == attempts
    && nowMs <= retry.nextAttemptMs <= nowMs + cfg.maxRetryDelayMs
    && (!hasRand || cfg.jitterPct == 0 ==> retry.nextAttemptMs == nowMs + BaseDelay(cfg, attempts - 1, retryAfterMs))
  }

  /** What submitting a payload does. Behind other records it waits. With none queued the sender is asked, and its answer decides:
      only a payload to be retried later waits, with a first attempt counted. A payload that waits is queued last, or not at all. */
  predicate Submitted(cfg: OutboxConfig, hasRand: bool, a: View, b: View, nowMs: nat, payload: seq<byte>, status: SubmitStatus) {
    && b.times == a.times
    && (if a.contents != [] then b.dispatched == a.dispatched && b.answers == a.answers && Waits(status) && b.retry == a.retry
        else
          && b.dispatched == a.dispatched + [Dispatch(payload, 0)] && AnsweredOnce(a.answers, b.answers)
          && var answer := b.answers[|b.answers| - 1];
             match answer.decision
             case Sent => status == SubmitSent && b.retry == a.retry
             case Drop => status == SubmitDropped && b.retry == a.retry
             case RetryLater =>
               && Waits(status)
               && if status == SubmitQueued then Cooling(cfg, hasRand, b.retry, nowMs, 1, answer.retryAfterMs) else b.retry == a.retry)
    && b.finished == (if status == SubmitSent || status == SubmitDropped then a.finished + [Some(payload)] else a.finished)
    && (status == SubmitQueued ==> Envelope.Encodable(payload) && b.contents == a.contents + [Envelope.Sealed(0, payload)])
    && (status != SubmitQueued ==> b.contents == a.contents)
  }

  /** What one drain does: an attempt is decided by the answer, and what it says it took off the queue is gone from there. Without
      an attempt a record can only go because it does not decode. */
  predicate Drains(cfg: OutboxConfig, hasRand: bool, a: View, b: View, nowMs: nat, result: DrainResult) {
    && Drained(a.contents, result)
    && (if result.attempts == 1 then Attempted(cfg, hasRand, a, b, nowMs, result)
        else b.dispatched == a.dispatched && b.answers == a.answers && b.times == a.times)
    && (if Progress(result) == 1
        then b.finished == a.finished + [PayloadIn(a.contents[0])] && b.contents == a.contents[1..] && b.retry == NEVER_TRIED
        else b.finished == a.finished && b.contents == a.contents)
    && (result.notDue || result.rateLimited || result.queueError ==> Progress(result) == 0 && b.retry == a.retry)
    && (result.notDue ==> b.retry.cooling && nowMs < b.retry.nextAttemptMs)
    && (a.contents == [] ==> result == NOTHING_DRAINED && b.retry == NEVER_TRIED)
    && (Progress(result) == 0 ==> b.contents == [] || b.retry.cooling || result.rateLimited || result.queueError)
  }

  /** An attempt is made no earlier than it is due. It hands the front payload to the sender, whose answer decides: to retry later
      leaves it in front, cooling down, with one more attempt counted; sent and dropped take it off the queue, each under its own
      count, unless the queue fails. */
  predicate Attempted(cfg: OutboxConfig, hasRand: bool, a: View, b: View, nowMs: nat, result: DrainResult)
    requires a.contents != [] && PayloadIn(a.contents[0]).Some?
  {
    && (a.retry.cooling ==> a.retry.nextAttemptMs <= nowMs)
    && b.dispatched == a.dispatched + [Dispatch(PayloadIn(a.contents[0]).value, a.retry.attempts)]
    && AnsweredOnce(a.answers, b.answers) && b.times == a.times + [nowMs]
    && var answer := b.answers[|b.answers| - 1];
       match answer.decision
       case Sent => result.sent == 1 || result.queueError
       case Drop => result.dropped == 1 || result.queueError
       case RetryLater =>
         && result == NOTHING_DRAINED.(attempts := 1)
         && Cooling(cfg, hasRand, b.retry, nowMs, OneMore(a.retry.attempts), answer.retryAfterMs)
  }

  /** The sender was asked once more. */
  predicate AnsweredOnce(before: seq<SendResult>, after: seq<SendResult>) {
    |after| == |before| + 1 && before <= after
  }

  /** The attempt counter, which stops at 255. */
  function OneMore(attempts: byte): (n: byte)
    ensures n > 0
  {
    if attempts == 255 then 255 else attempts + 1
  }

  function AtLeastOne(n: nat): nat {
    if n == 0 then 1 else n
  }

  predicate AllDecode(p: seq<Option<seq<byte>>>) {
    forall x | x in p :: x.Some?
  }

  /** The records that a drain took off the queue. */
  function Progress(result: DrainResult): nat {
    result.sent + result.dropped + result.corruptDropped
  }

  /** What one drain counts. */
  lemma DrainsCount(cfg: OutboxConfig, hasRand: bool, a: View, b: View, nowMs: nat, result: DrainResult)
    requires Drains(cfg, hasRand, a, b, nowMs, result)
    ensures |b.dispatched| == |a.dispatched| + result.attempts && |b.answers| == |a.answers| + result.attempts
    ensures |b.finished| == |a.finished| + result.sent + result.dropped + result.corruptDropped
    ensures result.sent + result.dropped <= result.attempts && result.attempts + result.corruptDropped <= 1
    ensures Stops(result) <==> result.sent + result.dropped + result.corruptDropped == 0
    ensures Stops(result) ==> b.contents == [] || b.retry.cooling || result.notDue || result.rateLimited || result.queueError
    ensures result.notDue ==> b.retry.cooling && nowMs < b.retry.nextAttemptMs
    ensures result.notDue || result.rateLimited || result.queueError ==> Stops(result)
  {
    hide PayloadIn, Cooling;
  }

  /** A payload submitted while others wait. */
  lemma SubmittedBehind(cfg: OutboxConfig, hasRand: bool, a: View, b: View, nowMs: nat, payload: seq<byte>, status: SubmitStatus)
    requires a.contents != [] && Waits(status)
    requires status == SubmitQueued ==> Envelope.Encodable(payload) && b == a.(contents := a.contents + [Envelope.Sealed(0, payload)])
    requires status != SubmitQueued ==> b == a
    ensures Submitted(cfg, hasRand, a, b, nowMs, payload, status)
  {
    hide Envelope.Sealed, Envelope.Encodable, Cooling;
  }

  /** A payload submitted to an empty queue: b is the outbox once the sender has answered. */
  lemma SubmittedAnswered(cfg: OutboxConfig, hasRand: bool, a: View, b: View, c: View, nowMs: nat, payload: seq<byte>, answer: SendResult,
                          status: SubmitStatus)
    requires a.contents == []
    requires b == a.(dispatched := a.dispatched + [Dispatch(payload, 0)], answers := a.answers + [answer])
    requires Reported(answer.decision, status)
    requires match status
             case SubmitSent => c == b.(finished := b.finished + [Some(payload)])
             case SubmitDropped => c == b.(finished := b.finished + [Some(payload)])
             case SubmitQueued =>
               && Envelope.Encodable(payload)
               && c == b.(contents := b.contents + [Envelope.Sealed(0, payload)], retry := c.retry)
               && Cooling(cfg, hasRand, c.retry, nowMs, 1, answer.retryAfterMs)
             case _ => c == b
    ensures Submitted(cfg, hasRand, a, c, nowMs, payload, status)
  {
    hide Envelope.Sealed, Envelope.Encodable, Cooling;
  }

  /** The statuses a payload that the sender was asked about can have. */
  predicate Reported(decision: SendDecision, status: SubmitStatus) {
    match decision
    case Sent => status == SubmitSent
    case Drop => status == SubmitDropped
    case RetryLater => Waits(status)
  }

  /** The outbox once the sender has answered. */
  function Tried(a: View, nowMs: nat, payload: seq<byte>, answer: SendResult): View {
    a.(dispatched := a.dispatched + [Dispatch(payload, a.retry.attempts)], answers := a.answers + [answer], times := a.times + [nowMs])
  }

  lemma DrainsLater(cfg: OutboxConfig, hasRand: bool, a: View, nowMs: nat, payload: seq<byte>, answer: SendResult, retry: Retry)
    requires a.contents != [] && PayloadIn(a.contents[0]) == Some(payload) && (a.retry.cooling ==> a.retry.nextAttemptMs <= nowMs)
    requires answer.decision.RetryLater?
    requires Cooling(cfg, hasRand, retry, nowMs, OneMore(a.retry.attempts), answer.retryAfterMs)
    ensures Drains(cfg, hasRand, a, Tried(a, nowMs, payload, answer).(retry := retry), nowMs, NOTHING_DRAINED.(attempts := 1))
  {
    hide PayloadIn, BaseDelay;
  }

  /** The payload was sent or dropped, but the queue failed to let go of it. */
  lemma DrainsStuck(cfg: OutboxConfig, hasRand: bool, a: View, b: View, nowMs: nat, payload: seq<byte>, answer: SendResult,
                    result: DrainResult)
    requires a.contents != [] && PayloadIn(a.contents[0]) == Some(payload) && (a.retry.cooling ==> a.retry.nextAttemptMs <= nowMs)
    requires !answer.decision.RetryLater?
    requires b == Tried(a, nowMs, payload, answer) && result == NOTHING_DRAINED.(attempts := 1, queueError := true)
    ensures Drains(cfg, hasRand, a, b, nowMs, result)
  {
    hide PayloadIn, Cooling, Attempted;
    AttemptAnswered(cfg, hasRand, a, b, nowMs, payload, answer, result);
  }

  /** The payload was sent or dropped, and taken off the queue. */
  lemma DrainsGone(cfg: OutboxConfig, hasRand: bool, a: View, b: View, nowMs: nat, payload: seq<byte>, answer: SendResult,
                   result: DrainResult)
    requires a.contents != [] && PayloadIn(a.contents[0]) == Some(payload) && (a.retry.cooling ==> a.retry.nextAttemptMs <= nowMs)
    requires !answer.decision.RetryLater?
    requires b == Tried(a, nowMs, payload, answer).(contents := a.contents[1..], finished := a.finished + [Some(payload)],
                                                    retry := NEVER_TRIED)
    requires result == if answer.decision.Sent? then NOTHING_DRAINED.(attempts := 1, sent := 1)
                       else NOTHING_DRAINED.(attempts := 1, dropped := 1)
    ensures Drains(cfg, hasRand, a, b, nowMs, result)
  {
    hide PayloadIn, Cooling, Attempted;
    AttemptAnswered(cfg, hasRand, a, b, nowMs, payload, answer, result);
  }

  lemma AttemptAnswered(cfg: OutboxConfig, hasRand: bool, a: View, b: View, nowMs: nat, payload: seq<byte>, answer: SendResult,
                        result: DrainResult)
    requires a.contents != [] && PayloadIn(a.contents[0]) == Some(payload) && (a.retry.cooling ==> a.retry.nextAttemptMs <= nowMs)
    requires !answer.decision.RetryLater?
    requires var was := Tried(a, nowMs, payload, answer);
             b.dispatched == was.dispatched && b.answers == was.answers && b.times == was.times
    requires result.queueError || if answer.decision.Sent? then result.sent == 1 else result.dropped == 1
    ensures Attempted(cfg, hasRand, a, b, nowMs, result)
  {
    hide PayloadIn, Cooling;
  }

  lemma DrainsNothing(cfg: OutboxConfig, hasRand: bool, a: View, nowMs: nat)
    requires a.contents == []
    ensures Drains(cfg, hasRand, a, a.(retry := NEVER_TRIED), nowMs, NOTHING_DRAINED)
  {
  }

  /** A record that does not decode goes or stays; a queue that cannot be read stays too. */
  lemma DrainsCorrupt(cfg: OutboxConfig, hasRand: bool, a: View, nowMs: nat)
    requires a.contents != []
    ensures Drains(cfg, hasRand, a, a, nowMs, NOTHING_DRAINED.(queueError := true))
    ensures PayloadIn(a.contents[0]).None? ==>
              Drains(cfg, hasRand, a, a.(contents := a.contents[1..], finished := a.finished + [None], retry := NEVER_TRIED), nowMs,
                     NOTHING_DRAINED.(corruptDropped := 1))
  {
    hide PayloadIn, Cooling;
  }

  lemma DrainsHeldBack(cfg: OutboxConfig, hasRand: bool, a: View, nowMs: nat)
    requires a.contents != []
    ensures a.retry.cooling && a.retry.nextAttemptMs > nowMs ==> Drains(cfg, hasRand, a, a, nowMs, NOTHING_DRAINED.(notDue := true))
    ensures Drains(cfg, hasRand, a, a, nowMs, NOTHING_DRAINED.(rateLimited := true))
  {
    hide PayloadIn, Cooling;
  }

  /** What one drain may report of a queue: an attempt only at a payload, a corrupt record dropped only if it does not decode. */
  predicate Drained(contents: seq<seq<byte>>, result: DrainResult) {
    && result.sent + result.dropped <= result.attempts <= 1 && result.corruptDropped <= 1
    && (result.attempts == 1 ==>
          contents != [] && PayloadIn(contents[0]).Some? && result.corruptDropped == 0 && !result.notDue && !result.rateLimited)
    && (result.corruptDropped == 1 ==> contents != [] && PayloadIn(contents[0]).None?)
  }

  lemma DecodedFront(contents: seq<seq<byte>>, finished: seq<Option<seq<byte>>>)
    requires contents != []
    ensures PayloadIn(contents[0]) in finished + Decoded(contents)
  {
    hide PayloadIn;
    assert Decoded(contents)[0] in Decoded(contents);
  }
}
