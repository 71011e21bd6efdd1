/** Collecting the live records of a compaction: grouped by segment, then sorted by sequence. */
module Collecting {
  import opened Bytes
  import opened Codec
  import opened ManifestCodec
  import opened LogReplay
  import opened Disk
  import opened Sorting
  import opened Coherence
  import opened Session
  import opened SessionCompaction

  /** The records stored in generations a to b - 1. */
  function Stored(rs: seq<Rec>, a: int, b: int): seq<Rec> {
    if rs == [] then []
    else if a <= rs[0].gen < b then [rs[0]] + Stored(rs[1..], a, b)
    else Stored(rs[1..], a, b)
  }

  lemma {:induction false} StoredIsLive(rs: seq<Rec>, input: Range)
    ensures Stored(rs, input.startGen, input.endGen + 1) == LiveRecs(rs, input)
  {
    if rs != [] {
      StoredIsLive(rs[1..], input);
    }
  }

  lemma {:induction false} StoredPush(rs: seq<Rec>, x: Rec, a: int, b: int)
    ensures Stored(rs + [x], a, b) == Stored(rs, a, b) + (if a <= x.gen < b then [x] else [])
  {
    if rs == [] {
      assert [] + [x] == [x] && [x][1..] == [];
    } else {
      assert (rs + [x])[1..] == rs[1..] + [x];
      StoredPush(rs[1..], x, a, b);
    }
  }

  /** The records of adjacent stretches of generations, as a bag. */
  lemma {:induction false} StoredSplit(rs: seq<Rec>, a: int, b: int, c: int)
    requires a <= b <= c
    ensures multiset(Stored(rs, a, c)) == multiset(Stored(rs, a, b) + Stored(rs, b, c))
  {
    if rs != [] {
      StoredSplit(rs[1..], a, b, c);
    }
  }

  lemma {:induction false} StoredNone(rs: seq<Rec>, a: int)
    ensures Stored(rs, a, a) == []
  {
    if rs != [] {
      StoredNone(rs[1..], a);
    }
  }

  predicate Ascending(rs: seq<Rec>) {
    forall i, j | 0 <= i < j < |rs| :: rs[i].sequence < rs[j].sequence
  }

  lemma {:induction false} LiveAscending(rs: seq<Rec>, input: Range)
    requires Ascending(rs)
    ensures Ascending(LiveRecs(rs, input))
  {
    if rs != [] {
      LiveAscending(rs[1..], input);
      LiveRecsMembers(rs[1..], input);
      var rest := LiveRecs(rs[1..], input);
      forall j | 0 <= j < |rest| ensures rs[0].sequence < rest[j].sequence {
        assert rest[j] in rest;
      }
    }
  }

  lemma ItemsSplit(d: Files, a: seq<Rec>, b: seq<Rec>)
    ensures Items(d, a + b) == Items(d, a) + Items(d, b)
  {
  }

  lemma BagCut<T>(s: seq<T>, i: nat)
    requires i < |s|
    ensures multiset(s) == multiset(s[..i] + s[i + 1..]) + multiset{s[i]}
  {
    assert s == s[..i] + [s[i]] + s[i + 1..];
  }

  lemma BagHead<T>(s: seq<T>)
    requires s != []
    ensures multiset(s) == multiset(s[1..]) + multiset{s[0]}
  {
    BagCut(s, 0);
    assert s[..0] + s[1..] == s[1..];
  }

  lemma BagCancel<T>(a: multiset<T>, b: multiset<T>, x: T)
    requires a + multiset{x} == b + multiset{x}
    ensures a == b
  {
    assert a == (a + multiset{x}) - multiset{x};
    assert b == (b + multiset{x}) - multiset{x};
  }

  lemma BagFind<T>(s: seq<T>, x: T) returns (i: nat)
    requires x in multiset(s)
    ensures i < |s| && s[i] == x
  {
    assert x in s;
    i :| 0 <= i < |s| && s[i] == x;
  }

  lemma ItemsCut(d: Files, s: seq<Rec>, i: nat)
    requires i < |s|
    ensures multiset(Items(d, s)) == multiset(Items(d, s[..i] + s[i + 1..])) + multiset{ItemOf(d, s[i])}
  {
    hide ItemOf;
    BagCut(Items(d, s), i);
    assert Items(d, s)[..i] + Items(d, s)[i + 1..] == Items(d, s[..i] + s[i + 1..]);
  }

  /** The same records in another order hold the same items. */
  lemma {:induction false} ItemsBag(d: Files, a: seq<Rec>, b: seq<Rec>)
    requires multiset(a) == multiset(b)
    ensures multiset(Items(d, a)) == multiset(Items(d, b))
    decreases |a|
  {
    hide Items, ItemOf;
    if a == [] {
      BagNone(b);
    } else {
      BagHead(a);
      assert a[0] in multiset(a);
      var i := BagFind(b, a[0]);
      BagCut(b, i);
      BagCancel(multiset(a[1..]), multiset(b[..i] + b[i + 1..]), a[0]);
      ItemsBag(d, a[1..], b[..i] + b[i + 1..]);
      ItemsCut(d, b, i);
      ItemsCut(d, a, 0);
      assert a[..0] + a[1..] == a[1..];
    }
  }

  lemma BagNone<T>(s: seq<T>)
    requires multiset(s) == multiset{}
    ensures s == []
  {
    assert |multiset(s)| == |s|;
  }

  function SequenceOf(x: Item): int {
    x.sequence
  }

  predicate StrictlyOrdered(v: seq<Item>) {
    forall i, j | 0 <= i < j < |v| :: v[i].sequence < v[j].sequence
  }

  lemma FirstSame(a: seq<Item>, b: seq<Item>)
    requires Ordered(a, SequenceOf) && StrictlyOrdered(b) && multiset(a) == multiset(b) && a != []
    ensures b != [] && a[0] == b[0]
  {
    assert a[0] in multiset(a);
    var i := BagFind(b, a[0]);
    assert b[0] in multiset(b);
    var j := BagFind(a, b[0]);
    assert SequenceOf(a[0]) <= SequenceOf(a[j]);
  }

  /** A list without equal sequences can be sorted in one way only. */
  lemma {:induction false} SortedOnce(a: seq<Item>, b: seq<Item>)
    requires Ordered(a, SequenceOf) && StrictlyOrdered(b) && multiset(a) == multiset(b)
    ensures a == b
    decreases |a|
  {
    if a == [] {
      BagNone(b);
    } else {
      FirstSame(a, b);
      BagHead(a);
      BagHead(b);
      BagCancel(multiset(a[1..]), multiset(b[1..]), a[0]);
      SortedOnce(a[1..], b[1..]);
      assert a == [a[0]] + a[1..] && b == [b[0]] + b[1..];
    }
  }

  /** The records of a stretch of generations grouped by generation. */
  predicate Grouped(byGen: map<u32, seq<Rec>>, rs: seq<Rec>, input: Range) {
    forall g: u32 :: (if InRange(g, input) && g in byGen then byGen[g] else []) == (if InRange(g, input) then Stored(rs, g, g + 1) else [])
  }

  /** Group the live records of the input by segment. */
  method GroupByGen(rs: seq<Rec>, input: Range) returns (byGen: map<u32, seq<Rec>>)
    ensures Grouped(byGen, rs, input)
  {
    byGen := map[];
    var i := 0;
    while i < |rs|
      invariant 0 <= i <= |rs|
      invariant Grouped(byGen, rs[..i], input)
    {
      var g := rs[i].gen;
      assert rs[..i + 1] == rs[..i] + [rs[i]];
      GroupStep(byGen, rs[..i], rs[i], input);
      if input.startGen <= g <= input.endGen {
        byGen := byGen[g := (if g in byGen then byGen[g] else []) + [rs[i]]];
      }
      i := i + 1;
    }
    assert rs[..i] == rs;
  }

  lemma GroupStep(byGen: map<u32, seq<Rec>>, rs: seq<Rec>, x: Rec, input: Range)
    requires Grouped(byGen, rs, input)
    ensures Grouped(if InRange(x.gen, input) then byGen[x.gen := (if x.gen in byGen then byGen[x.gen] else []) + [x]] else byGen,
                    rs + [x], input)
  {
    hide Stored;
    var next := if InRange(x.gen, input) then byGen[x.gen := (if x.gen in byGen then byGen[x.gen] else []) + [x]] else byGen;
    forall g: u32
      ensures (if InRange(g, input) && g in next then next[g] else [])
           == (if InRange(g, input) then Stored(rs + [x], g, g + 1) else [])
    {
      StoredPush(rs, x, g, g + 1);
    }
  }

  /** Sorting what was collected segment by segment gives the input's items in queue order. */
  lemma CollectedSorted(d: Files, rs: seq<Rec>, input: Range, found: seq<Rec>, out: seq<Item>)
    requires InOrder(rs)
    requires multiset(found) == multiset(LiveRecs(rs, input))
    requires Ordered(out, SequenceOf) && multiset(out) == multiset(Items(d, found))
    ensures out == Items(d, LiveRecs(rs, input))
  {
    hide ItemOf, LiveRecs;
    var live := LiveRecs(rs, input);
    assert Ascending(rs);
    LiveAscending(rs, input);
    ItemsBag(d, found, live);
    assert forall i | 0 <= i < |live| :: Items(d, live)[i].sequence == live[i].sequence by {
      forall i | 0 <= i < |live| ensures Items(d, live)[i].sequence == live[i].sequence {
        ItemSequence(d, live[i]);
      }
    }
    SortedOnce(out, Items(d, live));
  }

  lemma ItemsNone(d: Files)
    ensures Items(d, []) == []
  {
  }

  lemma BagJoin(a: seq<Rec>, b: seq<Rec>, c: seq<Rec>)
    requires multiset(a) == multiset(b)
    ensures multiset(a + c) == multiset(b + c)
  {
  }

  lemma GroupedAt(byGen: map<u32, seq<Rec>>, rs: seq<Rec>, input: Range, g: u32)
    requires Grouped(byGen, rs, input) && InRange(g, input)
    ensures (if g in byGen then byGen[g] else []) == Stored(rs, g, g + 1)
    ensures forall x | x in Stored(rs, g, g + 1) :: x in rs && x.gen == g
  {
    assert (if InRange(g, input) && g in byGen then byGen[g] else []) == (if InRange(g, input) then Stored(rs, g, g + 1) else []);
    StoredIsLive(rs, Range(g, g));
    LiveRecsMembers(rs, Range(g, g));
  }

  lemma RecordLocated(d: Files, r: Ram, x: Rec)
    requires RecordsOk(d, r) && x in r.records
    ensures RecLocated(d, r.gens, x)
  {
  }

  lemma RecordsInOrder(d: Files, r: Ram)
    requires RecordsOk(d, r)
    ensures InOrder(r.records)
  {
  }
}
