/** What replacing a stretch of the log by its live records does to the replay of the whole log. */
module LogCompaction {
  import opened Bytes
  import opened Codec
  import opened Scan
  import opened LogReplay

  /** Where a compaction put the payload of a live record. */
  datatype Place = Place(gen: u32, offset: nat)

  /** The live records stored in the generations G. */
  function Live(rs: seq<Entry>, G: set<u32>): seq<Entry> {
    if rs == [] then []
    else if rs[0].gen in G then [rs[0]] + Live(rs[1..], G)
    else Live(rs[1..], G)
  }

  function Moved(x: Entry, m: map<u32, Place>): Entry
    requires x.sequence in m
  {
    Entry(x.sequence, x.payload, m[x.sequence].gen, m[x.sequence].offset)
  }

  /** A record of the compacted generations G survives at its new place, or is gone; any other stays as it is. */
  function Survivor(x: Entry, G: set<u32>, m: map<u32, Place>): seq<Entry> {
    if x.gen !in G then [x] else if x.sequence in m then [Moved(x, m)] else []
  }

  function Survivors(rs: seq<Entry>, G: set<u32>, m: map<u32, Place>): seq<Entry> {
    if rs == [] then [] else Survivor(rs[0], G, m) + Survivors(rs[1..], G, m)
  }

  /** The replacement pass over the records in RAM: every record of G gets its new place. */
  function Relocate(rs: seq<Entry>, G: set<u32>, m: map<u32, Place>): (r: seq<Entry>)
    requires forall x | x in rs && x.gen in G :: x.sequence in m
    ensures |r| == |rs|
  {
    seq(|rs|, i requires 0 <= i < |rs| => if rs[i].gen in G then Moved(rs[i], m) else rs[i])
  }

  /** C holds an ENQUEUE for each of the records in live, in their order. */
  predicate Rewritten(C: seq<Logged>, live: seq<Entry>) {
    && |C| == |live|
    && forall i | 0 <= i < |C| :: C[i].event == Enqueue(live[i].sequence, live[i].payload)
  }

  /** The first event of C for sequence q, or the length when there is none. */
  function Match(C: seq<Logged>, q: u32): (i: nat)
    ensures i <= |C|
    ensures i < |C| ==> C[i].event.sequence == q
    ensures forall k | 0 <= k < i :: C[k].event.sequence != q
  {
    if C == [] || C[0].event.sequence == q then 0 else 1 + Match(C[1..], q)
  }

  /** The places the events of C give their records. */
  function Places(C: seq<Logged>): map<u32, Place> {
    map q | q in (set l | l in C :: l.event.sequence) && Match(C, q) < |C| ::
      Place(C[Match(C, q)].gen, C[Match(C, q)].offset + ENQUEUE_HEADER_BYTES)
  }

  // Members of Live and Survivors.

  lemma {:induction false} LiveMembers(rs: seq<Entry>, G: set<u32>)
    ensures forall x :: x in Live(rs, G) <==> x in rs && x.gen in G
    ensures Sorted(rs) ==> Sorted(Live(rs, G))
  {
    hide Sorted;
    if rs != [] {
      LiveMembers(rs[1..], G);
      assert forall x :: x in rs <==> x == rs[0] || x in rs[1..];
      if Sorted(rs) {
        SortedTail(rs);
        if rs[0].gen in G {
          SortedCons(rs[0], Live(rs[1..], G));
        }
      }
    } else {
      SortedEmpty();
    }
  }

  lemma {:induction false} SurvivorsMembers(rs: seq<Entry>, G: set<u32>, m: map<u32, Place>)
    ensures forall y :: y in Survivors(rs, G, m) <==> exists x :: x in rs && y in Survivor(x, G, m)
  {
    if rs != [] {
      SurvivorsMembers(rs[1..], G, m);
      assert forall x :: x in rs <==> x == rs[0] || x in rs[1..];
      forall y ensures y in Survivors(rs, G, m) <==> exists x :: x in rs && y in Survivor(x, G, m) {
        if y in Survivors(rs, G, m) {
          if y in Survivor(rs[0], G, m) {
            assert rs[0] in rs;
          } else {
            var x :| x in rs[1..] && y in Survivor(x, G, m);
            assert x in rs;
          }
        }
        if x :| x in rs && y in Survivor(x, G, m) {
          assert x == rs[0] || x in rs[1..];
        }
      }
    }
  }

  /** Survivors keep their sequence numbers. */
  lemma SurvivorSequence(rs: seq<Entry>, G: set<u32>, m: map<u32, Place>, y: Entry)
    requires y in Survivors(rs, G, m)
    ensures exists x :: x in rs && x.sequence == y.sequence
  {
    SurvivorsMembers(rs, G, m);
    var x :| x in rs && y in Survivor(x, G, m);
    assert x.sequence == y.sequence;
  }

  lemma {:induction false} SurvivorsSorted(rs: seq<Entry>, G: set<u32>, m: map<u32, Place>)
    requires Sorted(rs)
    ensures Sorted(Survivors(rs, G, m))
  {
    hide Sorted;
    if rs == [] {
      SortedEmpty();
    } else {
      SortedTail(rs);
      SurvivorsSorted(rs[1..], G, m);
      var tail := Survivors(rs[1..], G, m);
      var head := Survivor(rs[0], G, m);
      if head != [] {
        forall y | y in tail ensures head[0].sequence < y.sequence {
          SurvivorSequence(rs[1..], G, m, y);
        }
        SortedCons(head[0], tail);
        assert head + tail == [head[0]] + tail;
      } else {
        assert head + tail == tail;
      }
    }
  }

  lemma {:induction false} SurvivorsConcat(a: seq<Entry>, b: seq<Entry>, G: set<u32>, m: map<u32, Place>)
    ensures Survivors(a + b, G, m) == Survivors(a, G, m) + Survivors(b, G, m)
  {
    hide Survivor;
    if a == [] {
      assert a + b == b;
    } else {
      assert (a + b)[1..] == a[1..] + b;
      SurvivorsConcat(a[1..], b, G, m);
    }
  }

  lemma SurvivorsOne(x: Entry, G: set<u32>, m: map<u32, Place>)
    ensures Survivors([x], G, m) == Survivor(x, G, m)
  {
    hide Survivor;
    assert [x][1..] == [];
    assert Survivors([x], G, m) == Survivor(x, G, m) + [];
  }

  lemma {:induction false} AllKept(rs: seq<Entry>, G: set<u32>, m: map<u32, Place>)
    requires forall x | x in rs :: x.gen !in G
    ensures Survivors(rs, G, m) == rs
  {
    if rs != [] {
      AllKept(rs[1..], G, m);
      assert rs == [rs[0]] + rs[1..];
    }
  }

  lemma {:induction false} AllRelocated(rs: seq<Entry>, G: set<u32>, m: map<u32, Place>)
    requires forall x | x in rs && x.gen in G :: x.sequence in m
    ensures Survivors(rs, G, m) == Relocate(rs, G, m)
  {
    if rs != [] {
      AllRelocated(rs[1..], G, m);
      var r := Relocate(rs, G, m);
      assert Survivor(rs[0], G, m) == [r[0]];
      assert r == [r[0]] + Relocate(rs[1..], G, m);
    }
  }

  // One event behind the compacted stretch, applied to all records and to the survivors.

  lemma {:induction false} UpsertSurvivors(rs: seq<Entry>, e: Entry, G: set<u32>, m: map<u32, Place>)
    requires Sorted(rs) && e.gen !in G
    requires forall x | x in rs && x.sequence == e.sequence && x.gen in G :: x.sequence !in m
    ensures Upsert(Survivors(rs, G, m), e) == Survivors(Upsert(rs, e), G, m)
  {
    hide Sorted, Survivor;
    if rs == [] {
      SurvivorsOne(e, G, m);
      assert Survivor(e, G, m) == [e] by { SurvivorShape(e, G, m); }
    } else {
      SortedTail(rs);
      var tail := Survivors(rs[1..], G, m);
      assert forall x | x in rs[1..] :: x in rs;
      SurvivorShape(rs[0], G, m);
      SurvivorShape(e, G, m);
      if rs[0].sequence < e.sequence {
        UpsertSurvivors(rs[1..], e, G, m);
        UpsertBehind(Survivor(rs[0], G, m), tail, e);
        SurvivorsCons(rs[0], Upsert(rs[1..], e), G, m);
      } else if rs[0].sequence == e.sequence {
        SurvivorsCons(e, rs[1..], G, m);
        forall y | y in tail ensures y.sequence > e.sequence { SurvivorSequence(rs[1..], G, m, y); }
        assert rs[0] in rs;
        UpsertOver(Survivor(rs[0], G, m), tail, e);
      } else {
        SurvivorsCons(e, rs, G, m);
        forall y | y in Survivors(rs, G, m) ensures y.sequence > e.sequence {
          SurvivorSequence(rs, G, m, y);
          assert forall x | x in rs :: x == rs[0] || x in rs[1..];
        }
        UpsertFront(Survivors(rs, G, m), e);
      }
    }
  }

  lemma SurvivorShape(x: Entry, G: set<u32>, m: map<u32, Place>)
    ensures var h := Survivor(x, G, m);
            && |h| <= 1 && (h != [] ==> h[0].sequence == x.sequence)
            && (x.gen !in G ==> h == [x])
            && (x.gen in G && x.sequence !in m ==> h == [])
  {
  }

  lemma SurvivorsCons(x: Entry, rest: seq<Entry>, G: set<u32>, m: map<u32, Place>)
    ensures Survivors([x] + rest, G, m) == Survivor(x, G, m) + Survivors(rest, G, m)
  {
    hide Survivor;
    assert ([x] + rest)[1..] == rest;
  }

  lemma UpsertBehind(head: seq<Entry>, tail: seq<Entry>, e: Entry)
    requires |head| <= 1 && (head != [] ==> head[0].sequence < e.sequence)
    ensures Upsert(head + tail, e) == head + Upsert(tail, e)
  {
    if head == [] {
      assert head + tail == tail;
    } else {
      assert (head + tail)[1..] == tail;
    }
  }

  lemma UpsertOver(head: seq<Entry>, tail: seq<Entry>, e: Entry)
    requires |head| <= 1 && (head != [] ==> head[0].sequence == e.sequence)
    requires forall y | y in tail :: y.sequence > e.sequence
    ensures Upsert(head + tail, e) == [e] + tail
  {
    if head == [] {
      assert head + tail == tail;
    } else {
      assert (head + tail)[1..] == tail;
    }
  }

  lemma UpsertFront(rs: seq<Entry>, e: Entry)
    requires forall y | y in rs :: y.sequence > e.sequence
    ensures Upsert(rs, e) == [e] + rs
  {
  }

  /** An event stored outside the compacted generations does the same to the survivors as to all records, provided
      that no survivor is popped or replaced by it. */
  lemma StepSurvivors(rs: seq<Entry>, l: Logged, G: set<u32>, m: map<u32, Place>)
    requires Sorted(rs) && Legal(rs, l.event) && l.gen !in G
    requires forall x | x in rs && x.gen in G && x !in Apply(rs, l) :: x.sequence !in m
    ensures Legal(Survivors(rs, G, m), l.event)
    ensures Apply(Survivors(rs, G, m), l) == Survivors(Apply(rs, l), G, m)
  {
    hide Sorted;
    var sv := Survivors(rs, G, m);
    forall y | y in sv ensures exists x :: x in rs && x.sequence == y.sequence {
      SurvivorSequence(rs, G, m, y);
    }
    match l.event {
      case Enqueue(_, _) =>
        SurvivorsConcat(rs, [Logs(l)], G, m);
        SurvivorsOne(Logs(l), G, m);
      case Rewrite(s, _) =>
        RewriteIsUpsert(rs, l);
        SurvivorsSorted(rs, G, m);
        RewriteIsUpsert(sv, l);
        UpsertMembers(rs, Logs(l));
        UpsertSurvivors(rs, Logs(l), G, m);
      case Pop(s) =>
        PopSurvivors(rs, s, G, m, l);
    }
  }

  lemma PopSurvivors(rs: seq<Entry>, s: u32, G: set<u32>, m: map<u32, Place>, l: Logged)
    requires l.event == Pop(s) && Sorted(rs) && Legal(rs, l.event)
    requires forall x | x in rs && x.gen in G && x !in Apply(rs, l) :: x.sequence !in m
    ensures Apply(Survivors(rs, G, m), l) == Survivors(Apply(rs, l), G, m)
  {
    hide Sorted;
    if rs != [] {
      SortedTail(rs);
      var sv, tail, head := Survivors(rs, G, m), Survivors(rs[1..], G, m), Survivor(rs[0], G, m);
      forall y | y in tail ensures y.sequence > s {
        SurvivorSequence(rs[1..], G, m, y);
        assert rs[0] in rs;
      }
      if rs[0].sequence == s {
        if rs[0].gen in G {
          assert rs[0] in rs && rs[0] !in rs[1..];
          assert head + tail == tail;
        } else {
          assert (head + tail)[1..] == tail;
        }
      } else {
        assert rs[0] in rs;
        assert forall y | y in head :: y.sequence > s;
        assert forall y | y in sv :: y.sequence > s;
      }
    }
  }

  /** Replaying events stored outside the compacted generations from the survivors gives the survivors of replaying
      them from all records. */
  lemma {:induction false} ReplaySurvivors(rs: seq<Entry>, B: seq<Logged>, G: set<u32>, m: map<u32, Place>)
    requires Sorted(rs) && GoodFrom(rs, B)
    requires forall l | l in B :: l.gen !in G
    requires forall s | s in m :: exists x :: x in ReplayFrom(rs, B) && x.gen in G && x.sequence == s
    ensures GoodFrom(Survivors(rs, G, m), B)
    ensures ReplayFrom(Survivors(rs, G, m), B) == Survivors(ReplayFrom(rs, B), G, m)
    decreases |B|
  {
    hide Apply, Legal, Sorted, Survivors;
    if B != [] {
      var l, next := B[0], Apply(rs, B[0]);
      assert l in B;
      assert forall k | k in B[1..] :: k in B;
      ApplySorted(rs, l);
      NoSurvivorLost(rs, B, G, m);
      StepSurvivors(rs, l, G, m);
      ReplaySurvivors(next, B[1..], G, m);
    }
  }

  /** The generations an event touches among the survivors are those it touches among all records, without the
      compacted ones. */
  lemma StepTouched(rs: seq<Entry>, l: Logged, G: set<u32>, m: map<u32, Place>)
    requires Sorted(rs) && Legal(rs, l.event) && l.gen !in G
    requires forall x | x in rs && x.gen in G && x !in Apply(rs, l) :: x.sequence !in m
    ensures TouchedBy(Survivors(rs, G, m), l.event) <= TouchedBy(rs, l.event) - G
  {
    hide Sorted, Apply, Legal;
    var sv := Survivors(rs, G, m);
    match l.event {
      case Enqueue(_, _) =>
      case Rewrite(s, _) =>
        if Find(sv, s) < |sv| {
          SurvivorTouched(rs, l, G, m, sv[Find(sv, s)]);
        }
      case Pop(s) =>
        if sv != [] && sv[0].sequence == s {
          SurvivorTouched(rs, l, G, m, sv[0]);
        }
    }
  }

  /** A survivor that the event names is a record outside the compacted generations, and is touched in the full list too. */
  lemma SurvivorTouched(rs: seq<Entry>, l: Logged, G: set<u32>, m: map<u32, Place>, y: Entry)
    requires Sorted(rs) && Legal(rs, l.event) && l.gen !in G && !l.event.Enqueue?
    requires forall x | x in rs && x.gen in G && x !in Apply(rs, l) :: x.sequence !in m
    requires y in Survivors(rs, G, m) && y.sequence == l.event.sequence
    ensures y.gen !in G && TouchedBy(rs, l.event) == {y.gen}
  {
    hide Survivors;
    SurvivorsMembers(rs, G, m);
    var x :| x in rs && y in Survivor(x, G, m);
    NamedRecord(rs, l, x);
  }

  /** The record an event names is the one it pops or replaces. */
  lemma NamedRecord(rs: seq<Entry>, l: Logged, x: Entry)
    requires Sorted(rs) && Legal(rs, l.event) && !l.event.Enqueue?
    requires x in rs && x.sequence == l.event.sequence
    ensures TouchedBy(rs, l.event) == {x.gen}
    ensures x in Apply(rs, l) ==> l.event.Rewrite? && x == Logs(l)
  {
    var k :| 0 <= k < |rs| && rs[k] == x;
    match l.event {
      case Pop(s) =>
        assert rs[0] in rs;
        assert k == 0;
      case Rewrite(s, _) =>
        assert Find(rs, s) == k;
        RewriteIsUpsert(rs, l);
        UpsertMembers(rs, Logs(l));
    }
  }

  lemma {:induction false} TouchedSurvivors(rs: seq<Entry>, B: seq<Logged>, G: set<u32>, m: map<u32, Place>)
    requires Sorted(rs) && GoodFrom(rs, B)
    requires forall l | l in B :: l.gen !in G
    requires forall s | s in m :: exists x :: x in ReplayFrom(rs, B) && x.gen in G && x.sequence == s
    ensures Touched(Survivors(rs, G, m), B) <= Touched(rs, B) - G
    decreases |B|
  {
    hide Apply, Legal, Sorted, Survivors, TouchedBy;
    if B != [] {
      var l, next := B[0], Apply(rs, B[0]);
      assert l in B;
      assert forall k | k in B[1..] :: k in B;
      ApplySorted(rs, l);
      NoSurvivorLost(rs, B, G, m);
      StepSurvivors(rs, l, G, m);
      StepTouched(rs, l, G, m);
      TouchedSurvivors(next, B[1..], G, m);
    }
  }

  /** A compacted record that the first event removes does not survive. */
  lemma NoSurvivorLost(rs: seq<Entry>, B: seq<Logged>, G: set<u32>, m: map<u32, Place>)
    requires B != [] && Sorted(rs) && GoodFrom(rs, B)
    requires forall l | l in B :: l.gen !in G
    requires forall s | s in m :: exists x :: x in ReplayFrom(rs, B) && x.gen in G && x.sequence == s
    ensures forall x | x in rs && x.gen in G && x !in Apply(rs, B[0]) :: x.sequence !in m
  {
    hide Apply, Legal, Sorted, Survivors;
    var l, next := B[0], Apply(rs, B[0]);
    assert l in B;
    assert forall k | k in B[1..] :: k in B;
    forall x | x in rs && x.gen in G && x !in next ensures x.sequence !in m {
      if x.sequence in m {
        var y :| y in ReplayFrom(next, B[1..]) && y.gen in G && y.sequence == x.sequence;
        NothingNew(next, B[1..], G);
        ApplyMembers(rs, l, y);
        SameSequence(rs, x, y);
      }
    }
  }

  // The rewritten records themselves.

  /** Appending the rewritten records one by one. */
  function Fresh(C: seq<Logged>): seq<Entry>
    requires forall i | 0 <= i < |C| :: !C[i].event.Pop?
  {
    seq(|C|, i requires 0 <= i < |C| => Logs(C[i]))
  }

  lemma {:induction false} ReplayFresh(rs: seq<Entry>, C: seq<Logged>)
    requires forall i | 0 <= i < |C| :: C[i].event.Enqueue?
    requires Sorted(rs + Fresh(C))
    ensures GoodFrom(rs, C) && ReplayFrom(rs, C) == rs + Fresh(C)
    decreases |C|
  {
    if C != [] {
      var e := Logs(C[0]);
      assert Fresh(C) == [e] + Fresh(C[1..]);
      assert rs + Fresh(C) == (rs + [e]) + Fresh(C[1..]);
      forall r | r in rs ensures r.sequence < e.sequence {
        var k :| 0 <= k < |rs| && rs[k] == r;
        assert (rs + Fresh(C))[k] == r && (rs + Fresh(C))[|rs|] == e;
      }
      ReplayFresh(rs + [e], C[1..]);
    } else {
      assert rs + Fresh(C) == rs;
    }
  }

  lemma PlacesOf(C: seq<Logged>, live: seq<Entry>, i: nat)
    requires Rewritten(C, live) && Sorted(live) && i < |C|
    ensures live[i].sequence in Places(C) && Moved(live[i], Places(C)) == Logs(C[i])
  {
    var q := live[i].sequence;
    assert C[i].event.sequence == q && C[i] in C;
    var k := Match(C, q);
    assert k <= i && live[k].sequence == q;
  }

  lemma PlacesKeys(C: seq<Logged>, live: seq<Entry>)
    requires Rewritten(C, live)
    ensures forall s :: s in Places(C) <==> exists x :: x in live && x.sequence == s
  {
    forall s ensures s in Places(C) <==> exists x :: x in live && x.sequence == s {
      if s in Places(C) {
        var i := Match(C, s);
        assert C[i].event.sequence == s;
        assert live[i] in live;
      }
      if x :| x in live && x.sequence == s {
        var i :| 0 <= i < |live| && live[i] == x;
        assert C[i] in C && C[i].event.sequence == s;
        assert Match(C, s) <= i;
      }
    }
  }

  lemma FreshSurvives(X: seq<Entry>, C: seq<Logged>, live: seq<Entry>, G: set<u32>, y: Entry)
    requires Sorted(X) && Sorted(live) && Rewritten(C, live)
    requires forall x | x in live :: x in X && x.gen in G
    requires forall i | 0 <= i < |C| :: !C[i].event.Pop?
    requires y in Fresh(C)
    ensures exists x :: x in X && y in Survivor(x, G, Places(C))
  {
    hide Places, Sorted;
    var i :| 0 <= i < |C| && Fresh(C)[i] == y;
    PlacesOf(C, live, i);
    assert live[i] in live;
    assert y in Survivor(live[i], G, Places(C));
  }

  lemma SurvivorIsFresh(X: seq<Entry>, C: seq<Logged>, live: seq<Entry>, G: set<u32>, x: Entry, y: Entry)
    requires Sorted(X) && Sorted(live) && Rewritten(C, live)
    requires forall x | x in X :: x.gen in G
    requires forall x | x in live :: x in X
    requires forall i | 0 <= i < |C| :: !C[i].event.Pop?
    requires x in X && y in Survivor(x, G, Places(C))
    ensures y in Fresh(C)
  {
    hide Places, Sorted;
    PlacesKeys(C, live);
    var z :| z in live && z.sequence == x.sequence;
    SameSequence(X, x, z);
    var i :| 0 <= i < |live| && live[i] == x;
    PlacesOf(C, live, i);
    assert Fresh(C)[i] == y;
  }

  /** The rewritten records are the survivors of a sorted list X that holds all of them and nothing but compacted ones. */
  lemma FreshIsSurvivors(X: seq<Entry>, C: seq<Logged>, live: seq<Entry>, G: set<u32>)
    requires Sorted(X) && Sorted(live) && Rewritten(C, live)
    requires forall x | x in X :: x.gen in G
    requires forall x | x in live :: x in X
    requires forall i | 0 <= i < |C| :: !C[i].event.Pop?
    ensures Sorted(Fresh(C)) && Fresh(C) == Survivors(X, G, Places(C))
  {
    hide Places;
    var m, f := Places(C), Fresh(C);
    SurvivorsSorted(X, G, m);
    SurvivorsMembers(X, G, m);
    assert forall i | 0 <= i < |f| :: f[i].sequence == live[i].sequence;
    forall y ensures y in f <==> y in Survivors(X, G, m) {
      if y in f {
        FreshSurvives(X, C, live, G, y);
      }
      if y in Survivors(X, G, m) {
        var x :| x in X && y in Survivor(x, G, m);
        SurvivorIsFresh(X, C, live, G, x, y);
      }
    }
    SortedEqual(f, Survivors(X, G, m));
  }

  /** A list is a sequence of generations' worth of events when all of them are stored in G. */
  predicate StoredIn(log: seq<Logged>, G: set<u32>) {
    forall l | l in log :: l.gen in G
  }

  predicate StoredOutside(log: seq<Logged>, G: set<u32>) {
    forall l | l in log :: l.gen !in G
  }

  lemma StoredEntries(log: seq<Logged>, G: set<u32>)
    requires StoredOutside(log, G)
    ensures forall x | x in Replay(log) :: x.gen !in G
  {
    NothingNew([], log, G);
  }

  /** Every record of the replay is stored in a generation of the log. */
  lemma {:induction false} EntryGenerations(rs: seq<Entry>, log: seq<Logged>, H: set<u32>)
    requires StoredIn(log, H)
    ensures forall x | x in ReplayFrom(rs, log) :: x in rs || x.gen in H
    decreases |log|
  {
    hide Apply;
    if log != [] {
      assert forall l | l in log[1..] :: l in log;
      EntryGenerations(Apply(rs, log[0]), log[1..], H);
      forall x | x in ReplayFrom(rs, log) ensures x in rs || x.gen in H {
        if x in Apply(rs, log[0]) {
          ApplyMembers(rs, log[0], x);
          assert log[0] in log;
        }
      }
    }
  }

  lemma SortedPart(a: seq<Entry>, b: seq<Entry>)
    requires Sorted(a + b)
    ensures Sorted(a) && Sorted(b)
    ensures forall x, y | x in a && y in b :: x.sequence < y.sequence
  {
    var c := a + b;
    forall i, j | 0 <= i < j < |b| ensures b[i].sequence < b[j].sequence {
      assert c[|a| + i] == b[i] && c[|a| + j] == b[j];
    }
    forall i, j | 0 <= i < j < |a| ensures a[i].sequence < a[j].sequence {
      assert c[i] == a[i] && c[j] == a[j];
    }
    forall x, y | x in a && y in b ensures x.sequence < y.sequence {
      var i :| 0 <= i < |a| && a[i] == x;
      var j :| 0 <= j < |b| && b[j] == y;
      assert c[i] == x && c[|a| + j] == y;
    }
  }

  /** The stretch I leaves the records stored before it as they are, and adds its own behind them. */
  predicate KeepsPrefix(A: seq<Logged>, I: seq<Logged>) {
    Replay(A) <= Replay(A + I)
  }

  /** Compaction theorem. The log A + I + B becomes A + C + B, where C rewrites the records that are live at the end
      and stored in I. If I leaves the records before it as they are, then the whole log still replays to the same
      records in the same order, those of I at their new places, whatever events B holds: later POPs and REWRITEs of
      records that are gone have no effect, or put their record back at its place. */
  lemma CompactionKeepsReplay(A: seq<Logged>, I: seq<Logged>, C: seq<Logged>, B: seq<Logged>, G: set<u32>)
    requires Good(A + I + B)
    requires StoredOutside(A, G) && StoredIn(I, G) && StoredOutside(B, G)
    requires Rewritten(C, Live(Replay(A + I + B), G))
    requires KeepsPrefix(A, I)
    ensures Good(A + C + B)
    ensures forall x | x in Replay(A + I + B) && x.gen in G :: x.sequence in Places(C)
    ensures Replay(A + C + B) == Relocate(Replay(A + I + B), G, Places(C))
  {
    hide Apply, Legal, Sorted, Rewritten, Places, Live;
    var mid, fin, m := Replay(A + I), Replay(A + I + B), Places(C);
    ReplayConcat([], A + I, B);
    GoodConcat([], A + I, B);
    SortedEmpty();
    GoodSorted([], A + I);
    LiveMembers(fin, G);
    PlacesKeys(C, Live(fin, G));
    SurvivorsMid(A, I, C, B, G);
    ReplaySurvivors(mid, B, G, m);
    AllRelocated(fin, G, m);
    ReplayConcat([], A + C, B);
    GoodConcat([], A + C, B);
  }

  /** Where B starts, the compacted log holds the survivors of what the full log holds. */
  lemma SurvivorsMid(A: seq<Logged>, I: seq<Logged>, C: seq<Logged>, B: seq<Logged>, G: set<u32>)
    requires Good(A + I + B)
    requires StoredOutside(A, G) && StoredIn(I, G) && StoredOutside(B, G)
    requires Rewritten(C, Live(Replay(A + I + B), G))
    requires KeepsPrefix(A, I)
    ensures Good(A + C) && Replay(A + C) == Survivors(Replay(A + I), G, Places(C))
  {
    hide Apply, Legal, Sorted, Rewritten, Places, Live;
    var pre, mid, fin, m := Replay(A), Replay(A + I), Replay(A + I + B), Places(C);
    var live := Live(fin, G);
    ReplayConcat([], A + I, B);
    GoodConcat([], A + I, B);
    GoodConcat([], A, I);
    SortedEmpty();
    GoodSorted([], A + I);
    GoodSorted([], A + I + B);
    LiveMembers(fin, G);
    NothingNew(mid, B, G);
    var X := mid[|pre|..];
    assert mid == pre + X;
    SortedPart(pre, X);
    StoredEntries(A, G);
    ReplayConcat([], A, I);
    EntryGenerations(pre, I, G);
    forall x | x in X ensures x.gen in G {
      assert x in mid;
      assert x !in pre;
    }
    forall x | x in live ensures x in X {
      assert x in mid && x !in pre;
    }
    FreshEnqueues(C, live);
    FreshIsSurvivors(X, C, live, G);
    SurvivorsConcat(pre, X, G, m);
    AllKept(pre, G, m);
    SurvivorsSorted(mid, G, m);
    ReplayFresh(pre, C);
    ReplayConcat([], A, C);
    GoodConcat([], A, C);
  }

  lemma FreshEnqueues(C: seq<Logged>, live: seq<Entry>)
    requires Rewritten(C, live)
    ensures forall i | 0 <= i < |C| :: C[i].event.Enqueue?
  {
  }

  /** After the compaction the last part T of the log touches no generation that it did not touch before, and none of
      the compacted ones. */
  lemma CompactionTouched(A: seq<Logged>, I: seq<Logged>, C: seq<Logged>, B: seq<Logged>, T: seq<Logged>, G: set<u32>)
    requires Good(A + I + (B + T))
    requires StoredOutside(A, G) && StoredIn(I, G) && StoredOutside(B + T, G)
    requires Rewritten(C, Live(Replay(A + I + (B + T)), G))
    requires KeepsPrefix(A, I)
    ensures Touched(Replay(A + C + B), T) <= Touched(Replay(A + I + B), T) - G
  {
    hide Apply, Legal, Sorted, Rewritten, Places, Live;
    var mid, m := Replay(A + I), Places(C);
    var R0, fin := ReplayFrom(mid, B), Replay(A + I + (B + T));
    GoodConcat([], A + I, B + T);
    GoodConcat(mid, B, T);
    ReplayConcat([], A + I, B);
    ReplayConcat([], A + I, B + T);
    ReplayConcat(mid, B, T);
    SortedEmpty();
    GoodSorted([], A + I);
    GoodSorted(mid, B);
    SurvivorsMid(A, I, C, B + T, G);
    PlacesKeys(C, Live(fin, G));
    LiveMembers(fin, G);
    assert forall l | l in B || l in T :: l in B + T;
    NothingNew(R0, T, G);
    forall s | s in m ensures exists x :: x in R0 && x.gen in G && x.sequence == s {
      var x :| x in Live(fin, G) && x.sequence == s;
      assert x in fin && x in R0;
    }
    ReplaySurvivors(mid, B, G, m);
    TouchedSurvivors(R0, T, G, m);
    ReplayConcat([], A, C);
    ReplayConcat([], A + C, B);
  }

  /** A stretch at the front of the log always qualifies. */
  lemma FrontKeepsPrefix(I: seq<Logged>)
    ensures KeepsPrefix([], I)
  {
    assert [] + I == I;
  }

  /** What a reader sees is not changed by moving payloads. */
  lemma RelocateView(rs: seq<Entry>, G: set<u32>, m: map<u32, Place>)
    requires forall x | x in rs && x.gen in G :: x.sequence in m
    ensures View(Relocate(rs, G, m)) == View(rs)
  {
  }

  // When the stretch does change records before it.

  lemma {:induction false} LiveSplit(rs: seq<Entry>, G: set<u32>, H: set<u32>)
    requires forall x | x in rs :: x.gen in G <==> x.gen !in H
    ensures |Live(rs, G)| + |Live(rs, H)| == |rs|
  {
    if rs != [] {
      assert rs[0] in rs;
      LiveSplit(rs[1..], G, H);
    }
  }

  /** A sorted list all of whose members are in another sorted list is no longer than it, and equal when as long. */
  lemma {:induction false} SortedSubset(a: seq<Entry>, b: seq<Entry>)
    requires Sorted(a) && Sorted(b)
    requires forall x | x in a :: x in b
    ensures |a| <= |b| && (|a| == |b| ==> a == b)
    decreases |b|
  {
    hide Sorted;
    if a != [] {
      assert a[0] in b;
      SortedTail(a);
      SortedTail(b);
      assert forall x :: x in b <==> x == b[0] || x in b[1..];
      assert forall x | x in a[1..] :: x in a;
      if a[0] == b[0] {
        SortedSubset(a[1..], b[1..]);
        assert a == [a[0]] + a[1..] && b == [b[0]] + b[1..];
      } else {
        FrontIsLeast(b, a[0]);
        forall x | x in a ensures x in b[1..] {
          assert x in b;
          FrontIsLeast(a, x);
        }
        SortedSubset(a, b[1..]);
      }
    }
  }

  /** The condition is exact. With nothing behind the stretch, a reader finds the same records after the compaction if
      and only if the stretch left the records before it as they were. */
  lemma CompactionExact(A: seq<Logged>, I: seq<Logged>, C: seq<Logged>, G: set<u32>, H: set<u32>)
    requires Good(A + I)
    requires StoredOutside(A, G) && StoredIn(I, G) && StoredIn(A, H) && G !! H
    requires Rewritten(C, Live(Replay(A + I), G))
    ensures View(Replay(A + C)) == View(Replay(A + I)) <==> KeepsPrefix(A, I)
  {
    hide Apply, Legal, Sorted, Rewritten, Places, Live;
    if KeepsPrefix(A, I) {
      assert A + I + [] == A + I && A + C + [] == A + C;
      CompactionKeepsReplay(A, I, C, [], G);
      RelocateView(Replay(A + I), G, Places(C));
    }
    if View(Replay(A + C)) == View(Replay(A + I)) {
      var pre, mid := Replay(A), Replay(A + I);
      GoodConcat([], A, I);
      SortedEmpty();
      GoodSorted([], A);
      GoodSorted([], A + I);
      ReplayConcat([], A, I);
      ReplayConcat([], A, C);
      FreshEnqueues(C, Live(mid, G));
      AppendedLength(pre, C);
      EntryGenerations([], A, H);
      EntryGenerations(pre, I, G);
      LiveSplit(mid, G, H);
      LiveMembers(mid, H);
      LiveLength(C, Live(mid, G));
      forall x | x in Live(mid, H) ensures x in pre { assert x in mid; }
      SortedSubset(Live(mid, H), pre);
      assert |Live(mid, H)| == |pre|;
      forall i | 0 <= i < |pre| ensures mid[i] == pre[i] {
        assert pre[i] in Live(mid, H) && pre[i] in mid;
        AppendedPrefix(pre, C);
        assert View(Replay(A + C))[i].sequence == pre[i].sequence;
        assert View(mid)[i].sequence == mid[i].sequence;
        SameSequence(mid, mid[i], pre[i]);
      }
      assert pre <= mid;
    }
  }

  /** An ENQUEUE for each live record. */
  function Rewriting(live: seq<Entry>): (C: seq<Logged>)
    ensures Rewritten(C, live)
  {
    seq(|live|, i requires 0 <= i < |live| => Logged(Enqueue(live[i].sequence, live[i].payload), 0, 0))
  }

  /** The compaction of stretch I behind A does not show, now or after any later events B: whatever is live in I at that time
      is rewritten, the log replays to the same queue. */
  ghost predicate NeverShows(A: seq<Logged>, I: seq<Logged>, G: set<u32>) {
    forall B, C | Good(A + I + B) && StoredOutside(B, G) && Rewritten(C, Live(Replay(A + I + B), G)) ::
      View(Replay(A + C + B)) == View(Replay(A + I + B))
  }

  /** The exact condition: a compaction never shows if and only if the stretch leaves the records stored before it as they
      are. */
  lemma NeverShowsExact(A: seq<Logged>, I: seq<Logged>, G: set<u32>, H: set<u32>)
    requires Good(A + I)
    requires StoredOutside(A, G) && StoredIn(I, G) && StoredIn(A, H) && G !! H
    ensures NeverShows(A, I, G) <==> KeepsPrefix(A, I)
  {
    hide Apply, Legal, Sorted, Rewritten, Places, Live, GoodFrom, ReplayFrom, Relocate;
    if KeepsPrefix(A, I) {
      forall B, C | Good(A + I + B) && StoredOutside(B, G) && Rewritten(C, Live(Replay(A + I + B), G))
        ensures View(Replay(A + C + B)) == View(Replay(A + I + B))
      {
        CompactionKeepsReplay(A, I, C, B, G);
        RelocateView(Replay(A + I + B), G, Places(C));
      }
    }
    if NeverShows(A, I, G) {
      var C := Rewriting(Live(Replay(A + I), G));
      assert A + I + [] == A + I && A + C + [] == A + C;
      assert View(Replay(A + C + [])) == View(Replay(A + I + []));
      CompactionExact(A, I, C, G, H);
    }
  }

  lemma LiveLength(C: seq<Logged>, live: seq<Entry>)
    requires Rewritten(C, live)
    ensures |C| == |live|
  {
  }

  lemma {:induction false} AppendedLength(rs: seq<Entry>, C: seq<Logged>)
    requires forall i | 0 <= i < |C| :: C[i].event.Enqueue?
    ensures |ReplayFrom(rs, C)| == |rs| + |C|
    decreases |C|
  {
    if C != [] {
      AppendedLength(Apply(rs, C[0]), C[1..]);
    }
  }

  lemma {:induction false} AppendedPrefix(rs: seq<Entry>, C: seq<Logged>)
    requires forall i | 0 <= i < |C| :: C[i].event.Enqueue?
    ensures rs <= ReplayFrom(rs, C)
    decreases |C|
  {
    if C != [] {
      AppendedPrefix(Apply(rs, C[0]), C[1..]);
    }
  }

  /** A check on the events alone that is enough: no POP of the stretch names a record stored before it, and every
      record it writes is newer than all of those. */
  predicate Independent(pre: seq<Entry>, I: seq<Logged>) {
    forall l, r | l in I && r in pre ::
      if l.event.Pop? then r.sequence != l.event.sequence else r.sequence < l.event.sequence
  }

  lemma {:induction false} IndependentStays(pre: seq<Entry>, X: seq<Entry>, I: seq<Logged>)
    requires Independent(pre, I)
    ensures pre <= ReplayFrom(pre + X, I)
    decreases |I|
  {
    if I != [] {
      var l, rs := I[0], pre + X;
      assert l in I;
      var next := Apply(rs, l);
      assert forall k | 0 <= k < |pre| :: rs[k] in pre;
      if l.event.Rewrite? {
        assert |pre| <= Find(rs, l.event.sequence) && |pre| <= Slot(rs, l.event.sequence);
      }
      assert pre <= next;
      assert next == pre + next[|pre|..];
      assert forall k | k in I[1..] :: k in I;
      IndependentStays(pre, next[|pre|..], I[1..]);
    }
  }

  lemma IndependentKeepsPrefix(A: seq<Logged>, I: seq<Logged>)
    requires Independent(Replay(A), I)
    ensures KeepsPrefix(A, I)
  {
    ReplayConcat([], A, I);
    assert Replay(A) + [] == Replay(A);
    IndependentStays(Replay(A), [], I);
  }

  lemma FirstStep(rs: seq<Entry>, l: Logged, rest: seq<Logged>)
    ensures ReplayFrom(rs, [l] + rest) == ReplayFrom(Apply(rs, l), rest)
    ensures GoodFrom(rs, [l] + rest) <==> Legal(rs, l.event) && GoodFrom(Apply(rs, l), rest)
    ensures Touched(rs, [l] + rest) == TouchedBy(rs, l.event) + Touched(Apply(rs, l), rest)
  {
    assert ([l] + rest)[1..] == rest;
  }

  /** A compacted POP whose record is stored further forward comes undone: the popped record is back after a remount. */
  lemma DroppedPopResurrects(p: seq<byte>, q: seq<byte>)
    ensures var A := [Logged(Enqueue(0, p), 1, 20), Logged(Enqueue(1, q), 1, 44 + |p|)];
            var I := [Logged(Pop(0), 2, 20)];
            && Good(A + I) && View(Replay(A + I)) == [Item(1, q)]
            && Live(Replay(A + I), {2}) == [] && View(Replay(A + [])) == [Item(0, p), Item(1, q)]
  {
    var a, b, c := Logged(Enqueue(0, p), 1, 20), Logged(Enqueue(1, q), 1, 44 + |p|), Logged(Pop(0), 2, 20);
    var x, y := Logs(a), Logs(b);
    assert [a, b] + [c] == [a] + ([b] + ([c] + [])) && [a, b] + [] == [a] + ([b] + []);
    FirstStep([], a, [b] + ([c] + []));
    FirstStep([], a, [b] + []);
    assert Apply([], a) == [x];
    FirstStep([x], b, [c] + []);
    FirstStep([x], b, []);
    assert Apply([x], b) == [x, y];
    FirstStep([x, y], c, []);
    assert Apply([x, y], c) == [y];
    assert Live([y], {2}) == Live([y][1..], {2}) == [];
  }

  lemma ApplyFirst(a: Logged)
    requires a.event.Enqueue?
    ensures Apply([], a) == [Logs(a)]
  {
  }

  lemma LegalFirst(e: Event)
    ensures Legal([], e)
  {
  }
}
