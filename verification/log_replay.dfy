/** Replay: folding a log of events into the ordered list of live records. */
module LogReplay {
  import opened Bytes
  import opened Codec
  import opened Scan

  /** A live record: its sequence number, its payload, and where that payload lies. */
  datatype Entry = Entry(sequence: u32, payload: seq<byte>, gen: u32, offset: nat)

  /** What a reader of the queue sees of a record. */
  datatype Item = Item(sequence: u32, payload: seq<byte>)

  function View(rs: seq<Entry>): (v: seq<Item>)
    ensures |v| == |rs|
  {
    seq(|rs|, i requires 0 <= i < |rs| => Item(rs[i].sequence, rs[i].payload))
  }

  function Logs(l: Logged): Entry
    requires !l.event.Pop?
  {
    Entry(l.event.sequence, l.event.payload, l.gen, l.offset + ENQUEUE_HEADER_BYTES)
  }

  /** The first index holding sequence s, or the length when there is none. */
  function Find(rs: seq<Entry>, s: u32): (i: nat)
    ensures i <= |rs|
    ensures i < |rs| ==> rs[i].sequence == s
    ensures forall k | 0 <= k < i :: rs[k].sequence != s
  {
    if rs == [] || rs[0].sequence == s then 0 else 1 + Find(rs[1..], s)
  }

  /** The first index whose sequence is not below s, or the length when there is none. */
  function Slot(rs: seq<Entry>, s: u32): (i: nat)
    ensures i <= |rs|
    ensures i < |rs| ==> rs[i].sequence >= s
    ensures forall k | 0 <= k < i :: rs[k].sequence < s
  {
    if rs == [] || rs[0].sequence >= s then 0 else 1 + Slot(rs[1..], s)
  }

  /** The list with e written over the record of its sequence, or put in at its place when there is none. */
  function Put(rs: seq<Entry>, e: Entry): seq<Entry> {
    var i := Find(rs, e.sequence);
    if i < |rs| then rs[i := e]
    else
      var j := Slot(rs, e.sequence);
      rs[..j] + [e] + rs[j..]
  }

  /** One event of the replay. A REWRITE whose record is gone is authoritative and goes in by sequence; a POP counts
      only when it names the front. */
  function Apply(rs: seq<Entry>, l: Logged): seq<Entry> {
    match l.event
    case Enqueue(_, _) => rs + [Logs(l)]
    case Rewrite(_, _) => Put(rs, Logs(l))
    case Pop(s) => if rs != [] && rs[0].sequence == s then rs[1..] else rs
  }

  function ReplayFrom(rs: seq<Entry>, log: seq<Logged>): seq<Entry>
    decreases |log|
  {
    if log == [] then rs else ReplayFrom(Apply(rs, log[0]), log[1..])
  }

  function Replay(log: seq<Logged>): seq<Entry> {
    ReplayFrom([], log)
  }

  lemma {:induction false} ReplayConcat(rs: seq<Entry>, a: seq<Logged>, b: seq<Logged>)
    ensures ReplayFrom(rs, a + b) == ReplayFrom(ReplayFrom(rs, a), b)
    decreases |a|
  {
    hide Apply;
    if a == [] {
      assert a + b == b;
    } else {
      assert (a + b)[1..] == a[1..] + b;
      ReplayConcat(Apply(rs, a[0]), a[1..], b);
    }
  }

  lemma ReplayLast(rs: seq<Entry>, a: seq<Logged>, l: Logged)
    ensures ReplayFrom(rs, a + [l]) == Apply(ReplayFrom(rs, a), l)
  {
    hide Apply;
    ReplayConcat(rs, a, [l]);
    assert [l][1..] == [];
  }

  /** Sequences increase strictly from front to back. */
  predicate Sorted(rs: seq<Entry>) {
    forall i, j | 0 <= i < j < |rs| :: rs[i].sequence < rs[j].sequence
  }

  /** What the store guarantees of each event against the records replayed before it: an ENQUEUE is newer than every
      live record, and a POP names nothing behind the front. Nothing is needed of a REWRITE. */
  predicate Legal(rs: seq<Entry>, e: Event) {
    match e
    case Enqueue(s, _) => forall r | r in rs :: r.sequence < s
    case Rewrite(_, _) => true
    case Pop(s) => forall r | r in rs :: r.sequence >= s
  }

  predicate GoodFrom(rs: seq<Entry>, log: seq<Logged>)
    decreases |log|
  {
    log == [] || (Legal(rs, log[0].event) && GoodFrom(Apply(rs, log[0]), log[1..]))
  }

  predicate Good(log: seq<Logged>) {
    GoodFrom([], log)
  }

  lemma {:induction false} GoodConcat(rs: seq<Entry>, a: seq<Logged>, b: seq<Logged>)
    ensures GoodFrom(rs, a + b) <==> GoodFrom(rs, a) && GoodFrom(ReplayFrom(rs, a), b)
    decreases |a|
  {
    hide Apply, Legal;
    if a == [] {
      assert a + b == b;
    } else {
      assert (a + b)[1..] == a[1..] + b;
      GoodConcat(Apply(rs, a[0]), a[1..], b);
    }
  }

  lemma GoodLast(rs: seq<Entry>, a: seq<Logged>, l: Logged)
    ensures GoodFrom(rs, a + [l]) <==> GoodFrom(rs, a) && Legal(ReplayFrom(rs, a), l.event)
  {
    hide Apply, Legal;
    GoodConcat(rs, a, [l]);
  }

  /** In a sorted list a REWRITE puts its record at its place, dropping any older copy. */
  function Upsert(rs: seq<Entry>, e: Entry): seq<Entry> {
    if rs == [] || rs[0].sequence > e.sequence then [e] + rs
    else if rs[0].sequence == e.sequence then [e] + rs[1..]
    else [rs[0]] + Upsert(rs[1..], e)
  }

  lemma PlacesBehind(x: Entry, rest: seq<Entry>, s: u32)
    requires x.sequence < s
    ensures Find([x] + rest, s) == Find(rest, s) + 1 && Slot([x] + rest, s) == Slot(rest, s) + 1
  {
    assert ([x] + rest)[1..] == rest;
  }

  lemma UpdateBehind(x: Entry, rest: seq<Entry>, i: nat, e: Entry)
    requires i <= |rest|
    ensures i < |rest| ==> ([x] + rest)[i + 1 := e] == [x] + rest[i := e]
    ensures ([x] + rest)[..i + 1] + [e] + ([x] + rest)[i + 1..] == [x] + (rest[..i] + [e] + rest[i..])
  {
  }

  lemma PutBehind(x: Entry, rest: seq<Entry>, e: Entry)
    requires x.sequence < e.sequence
    ensures Put([x] + rest, e) == [x] + Put(rest, e)
  {
    hide Find, Slot;
    PlacesBehind(x, rest, e.sequence);
    UpdateBehind(x, rest, Find(rest, e.sequence), e);
    UpdateBehind(x, rest, Slot(rest, e.sequence), e);
  }

  lemma FindNone(rs: seq<Entry>, s: u32)
    requires forall y | y in rs :: y.sequence != s
    ensures Find(rs, s) == |rs|
  {
  }

  lemma PutFront(rs: seq<Entry>, e: Entry)
    requires Sorted(rs) && rs != [] && rs[0].sequence >= e.sequence
    ensures Put(rs, e) == [e] + (if rs[0].sequence == e.sequence then rs[1..] else rs)
  {
    if rs[0].sequence == e.sequence {
      assert rs[0 := e] == [e] + rs[1..];
    } else {
      FindNone(rs, e.sequence);
      assert rs[..0] + [e] + rs[0..] == [e] + rs;
    }
  }

  lemma {:induction false} PutIsUpsert(rs: seq<Entry>, e: Entry)
    requires Sorted(rs)
    ensures Put(rs, e) == Upsert(rs, e)
  {
    hide Sorted, Put;
    if rs == [] {
      PutNone(e);
    } else if rs[0].sequence < e.sequence {
      SortedTail(rs);
      assert rs == [rs[0]] + rs[1..];
      PutIsUpsert(rs[1..], e);
      PutBehind(rs[0], rs[1..], e);
    } else {
      PutFront(rs, e);
    }
  }

  lemma PutNone(e: Entry)
    ensures Put([], e) == [e]
  {
  }

  lemma RewriteIsUpsert(rs: seq<Entry>, l: Logged)
    requires Sorted(rs) && l.event.Rewrite?
    ensures Apply(rs, l) == Upsert(rs, Logs(l))
  {
    hide Sorted;
    PutIsUpsert(rs, Logs(l));
  }

  lemma SortedTail(rs: seq<Entry>)
    requires Sorted(rs) && rs != []
    ensures Sorted(rs[1..]) && forall y | y in rs[1..] :: rs[0].sequence < y.sequence
  {
  }

  lemma SortedCons(x: Entry, rs: seq<Entry>)
    requires Sorted(rs) && forall y | y in rs :: x.sequence < y.sequence
    ensures Sorted([x] + rs)
  {
    var u := [x] + rs;
    forall i, j | 0 <= i < j < |u| ensures u[i].sequence < u[j].sequence {
      assert u[j] == rs[j - 1] && u[j] in rs;
    }
  }

  lemma {:induction false} UpsertMembers(rs: seq<Entry>, e: Entry)
    requires Sorted(rs)
    ensures Sorted(Upsert(rs, e))
    ensures forall x :: x in Upsert(rs, e) <==> x == e || (x in rs && x.sequence != e.sequence)
  {
    hide Sorted;
    if rs == [] {
      SortedCons(e, []) by { assert Sorted([]) by { SortedEmpty(); } }
    } else {
      SortedTail(rs);
      assert forall x :: x in rs <==> x == rs[0] || x in rs[1..];
      if rs[0].sequence < e.sequence {
        UpsertMembers(rs[1..], e);
        SortedCons(rs[0], Upsert(rs[1..], e));
      } else if rs[0].sequence > e.sequence {
        SortedCons(e, rs);
      } else {
        SortedCons(e, rs[1..]);
      }
    }
  }

  lemma SortedEmpty()
    ensures Sorted([])
  {
  }

  /** A legal event keeps the records in strictly increasing order. */
  lemma ApplySorted(rs: seq<Entry>, l: Logged)
    requires Sorted(rs) && Legal(rs, l.event)
    ensures Sorted(Apply(rs, l))
  {
    if l.event.Rewrite? {
      RewriteIsUpsert(rs, l);
      UpsertMembers(rs, Logs(l));
    }
  }

  lemma {:induction false} GoodSorted(rs: seq<Entry>, log: seq<Logged>)
    requires Sorted(rs) && GoodFrom(rs, log)
    ensures Sorted(ReplayFrom(rs, log))
    decreases |log|
  {
    hide Apply, Legal;
    if log != [] {
      ApplySorted(rs, log[0]);
      GoodSorted(Apply(rs, log[0]), log[1..]);
    }
  }

  /** Two strictly increasing lists with the same members are the same list. */
  lemma {:induction false} SortedEqual(a: seq<Entry>, b: seq<Entry>)
    requires Sorted(a) && Sorted(b)
    requires forall x :: x in a <==> x in b
    ensures a == b
  {
    hide Sorted;
    assert a == [] <==> b == [] by {
      if a != [] { assert a[0] in b; }
      if b != [] { assert b[0] in a; }
    }
    if a != [] {
      SortedTail(a);
      SortedTail(b);
      assert a[0] in b && b[0] in a;
      assert forall x :: x in a <==> x == a[0] || x in a[1..];
      assert forall x :: x in b <==> x == b[0] || x in b[1..];
      SortedEqual(a[1..], b[1..]);
    }
  }

  lemma SameSequence(rs: seq<Entry>, x: Entry, y: Entry)
    requires Sorted(rs) && x in rs && y in rs && x.sequence == y.sequence
    ensures x == y
  {
  }

  lemma FrontIsLeast(rs: seq<Entry>, x: Entry)
    requires Sorted(rs) && x in rs
    ensures rs[0].sequence <= x.sequence
    ensures x in rs[1..] ==> rs[0].sequence < x.sequence
  {
    if x in rs[1..] {
      var k :| 0 <= k < |rs[1..]| && rs[1..][k] == x;
      assert rs[k + 1] == x;
    }
  }

  /** Every live record is either one that was there before, or one written by the event. */
  lemma ApplyMembers(rs: seq<Entry>, l: Logged, x: Entry)
    requires x in Apply(rs, l)
    ensures x in rs || (!l.event.Pop? && x == Logs(l))
  {
  }

  /** A live record stored in a generation the events do not write was there before them. */
  lemma {:induction false} NothingNew(rs: seq<Entry>, log: seq<Logged>, G: set<u32>)
    requires forall l | l in log :: l.gen !in G
    ensures forall x | x in ReplayFrom(rs, log) && x.gen in G :: x in rs
    decreases |log|
  {
    hide Apply;
    if log != [] {
      NothingNew(Apply(rs, log[0]), log[1..], G);
      forall x | x in ReplayFrom(rs, log) && x.gen in G ensures x in rs {
        ApplyMembers(rs, log[0], x);
        assert log[0] in log;
      }
    }
  }

  /** The generations of the records that the event pops or replaces. */
  function TouchedBy(rs: seq<Entry>, e: Event): set<u32> {
    match e
    case Enqueue(_, _) => {}
    case Rewrite(s, _) => if Find(rs, s) < |rs| then {rs[Find(rs, s)].gen} else {}
    case Pop(s) => if rs != [] && rs[0].sequence == s then {rs[0].gen} else {}
  }

  function Touched(rs: seq<Entry>, log: seq<Logged>): set<u32>
    decreases |log|
  {
    if log == [] then {} else TouchedBy(rs, log[0].event) + Touched(Apply(rs, log[0]), log[1..])
  }

  lemma {:induction false} TouchedConcat(rs: seq<Entry>, a: seq<Logged>, b: seq<Logged>)
    ensures Touched(rs, a + b) == Touched(rs, a) + Touched(ReplayFrom(rs, a), b)
    decreases |a|
  {
    hide Apply, TouchedBy;
    if a == [] {
      assert a + b == b;
    } else {
      assert (a + b)[1..] == a[1..] + b;
      TouchedConcat(Apply(rs, a[0]), a[1..], b);
    }
  }

  lemma TouchedLast(rs: seq<Entry>, a: seq<Logged>, l: Logged)
    ensures Touched(rs, a + [l]) == Touched(rs, a) + TouchedBy(ReplayFrom(rs, a), l.event)
  {
    hide Apply, TouchedBy;
    TouchedConcat(rs, a, [l]);
    assert Touched(ReplayFrom(rs, a), [l])
        == TouchedBy(ReplayFrom(rs, a), l.event) + Touched(Apply(ReplayFrom(rs, a), l), [l][1..]);
  }

  lemma UntouchedKept(rs: seq<Entry>, l: Logged, x: Entry)
    requires x in rs && x.gen !in TouchedBy(rs, l.event)
    ensures x in Apply(rs, l)
  {
    var k :| 0 <= k < |rs| && rs[k] == x;
    match l.event {
      case Enqueue(_, _) => assert Apply(rs, l)[k] == x;
      case Rewrite(s, _) =>
        var i := Find(rs, s);
        if i < |rs| {
          assert Apply(rs, l)[k] == x;
        } else {
          var j := Slot(rs, s);
          assert Apply(rs, l)[if k < j then k else k + 1] == x;
        }
      case Pop(s) =>
        if rs[0].sequence == s {
          assert Apply(rs, l)[k - 1] == x;
        }
    }
  }

  /** A record in a generation that no event touches is still live, unchanged, after the events. */
  lemma {:induction false} UntouchedStays(rs: seq<Entry>, log: seq<Logged>, x: Entry)
    requires x in rs && x.gen !in Touched(rs, log)
    ensures x in ReplayFrom(rs, log)
    decreases |log|
  {
    hide Apply, TouchedBy;
    if log != [] {
      UntouchedKept(rs, log[0], x);
      UntouchedStays(Apply(rs, log[0]), log[1..], x);
    }
  }

  /** One past the highest sequence named by any event, in the 32-bit arithmetic of the scan. */
  function NextSequence(n: u32, log: seq<Logged>): u32
    decreases |log|
  {
    if log == [] then n
    else
      var s: u32 := (log[0].event.sequence + 1) % 0x1_0000_0000;
      NextSequence(if s > n then s else n, log[1..])
  }

  /** The next sequence is beyond every one that any event names, and no further than one past the highest of them: a record that
      is gone does not lend its sequence to another. */
  lemma {:induction false} NextSequenceExact(n: u32, log: seq<Logged>)
    requires forall i | 0 <= i < |log| :: log[i].event.sequence < 0xFFFF_FFFF
    ensures n <= NextSequence(n, log) && forall i | 0 <= i < |log| :: log[i].event.sequence < NextSequence(n, log)
    ensures NextSequence(n, log) == n || exists i :: 0 <= i < |log| && NextSequence(n, log) == log[i].event.sequence + 1
    decreases |log|
  {
    hide NextSequence;
    NextSequenceStep(n, log);
    if log != [] {
      var s, rest := log[0].event.sequence + 1, log[1..];
      var m: u32 := if s > n then s else n;
      assert forall i | 0 < i < |log| :: log[i] == rest[i - 1];
      NextSequenceExact(m, rest);
      if NextSequence(m, rest) != m {
        var i :| 0 <= i < |rest| && NextSequence(m, rest) == rest[i].event.sequence + 1;
        assert log[i + 1] == rest[i];
      } else {
        assert m == n || m == log[0].event.sequence + 1;
      }
    }
  }

  lemma NextSequenceStep(n: u32, log: seq<Logged>)
    requires log != [] ==> log[0].event.sequence < 0xFFFF_FFFF
    ensures log == [] ==> NextSequence(n, log) == n
    ensures log != [] ==>
              var s := log[0].event.sequence + 1;
              NextSequence(n, log) == NextSequence(if s > n then s else n, log[1..])
  {
  }

  /** The event pops or replaces the record at place k. */
  predicate Hits(rs: seq<Entry>, e: Event, k: nat) {
    && k < |rs| && !e.Enqueue? && rs[k].sequence == e.sequence
    && (e.Pop? ==> k == 0)
    && (e.Rewrite? ==> forall j | 0 <= j < k :: rs[j].sequence != e.sequence)
  }

  /** Event number i of the log pops or replaces a record of generation g. */
  ghost predicate HitAt(rs: seq<Entry>, log: seq<Logged>, i: nat, g: u32)
    requires i < |log|
  {
    var now := ReplayFrom(rs, log[..i]);
    exists k: nat :: Hits(now, log[i].event, k) && now[k].gen == g
  }

  lemma HitNow(rs: seq<Entry>, log: seq<Logged>, g: u32)
    requires log != []
    ensures HitAt(rs, log, 0, g) <==> g in TouchedBy(rs, log[0].event)
  {
    var e := log[0].event;
    assert log[..0] == [] && ReplayFrom(rs, []) == rs;
    assert ReplayFrom(rs, log[..0]) == rs;
    if e.Rewrite? && Find(rs, e.sequence) < |rs| {
      assert Hits(rs, e, Find(rs, e.sequence));
      assert forall k: nat | Hits(rs, e, k) :: k == Find(rs, e.sequence);
    }
    if e.Pop? && rs != [] && rs[0].sequence == e.sequence {
      assert Hits(rs, e, 0);
    }
  }

  lemma HitLater(rs: seq<Entry>, log: seq<Logged>, i: nat, g: u32)
    requires 0 < i < |log|
    ensures HitAt(rs, log, i, g) <==> HitAt(Apply(rs, log[0]), log[1..], i - 1, g)
  {
    hide Hits, Apply;
    assert log[..i][1..] == log[1..][..i - 1] && log[..i][0] == log[0] && log[1..][i - 1] == log[i];
    assert ReplayFrom(rs, log[..i]) == ReplayFrom(Apply(rs, log[0]), log[1..][..i - 1]);
  }

  /** The generations touched are exactly those of the records that some event of the log pops or replaces. */
  lemma {:induction false} TouchedExact(rs: seq<Entry>, log: seq<Logged>, g: u32)
    ensures g in Touched(rs, log) <==> exists i :: 0 <= i < |log| && HitAt(rs, log, i, g)
    decreases |log|
  {
    hide HitAt, TouchedBy, Apply;
    if log != [] {
      HitNow(rs, log, g);
      TouchedExact(Apply(rs, log[0]), log[1..], g);
      forall i | 0 < i < |log| ensures HitAt(rs, log, i, g) <==> HitAt(Apply(rs, log[0]), log[1..], i - 1, g) {
        HitLater(rs, log, i, g);
      }
      if i :| 0 <= i < |log[1..]| && HitAt(Apply(rs, log[0]), log[1..], i, g) {
        assert HitAt(rs, log, i + 1, g);
      }
      if i :| 0 <= i < |log| && HitAt(rs, log, i, g) {
        assert i == 0 || HitAt(Apply(rs, log[0]), log[1..], i - 1, g);
      }
    }
  }
}
