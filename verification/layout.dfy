/** The order of the generations: manifest ranges, and how rotation and compaction change them. */
module Layout {
  import opened Bytes
  import opened ManifestCodec

  /** The generations of a range, in order. */
  function Gens(r: Range): (g: seq<u32>) {
    if r.startGen > r.endGen then []
    else seq(r.endGen - r.startGen + 1, i requires 0 <= i < r.endGen - r.startGen + 1 => r.startGen + i)
  }

  predicate AllFormed(rs: seq<Range>) {
    forall r | r in rs :: RangeFormed(r)
  }

  /** The generations of all ranges, in manifest order. */
  function Flatten(rs: seq<Range>): seq<u32> {
    if rs == [] then [] else Gens(rs[0]) + Flatten(rs[1..])
  }

  /** The replay order: the sealed generations of every range, then the tail. */
  function Active(rs: seq<Range>, tail: u32): seq<u32> {
    if tail == 0 then Flatten(rs) else Flatten(rs) + [tail]
  }

  predicate Distinct(g: seq<u32>) {
    forall i, j | 0 <= i < j < |g| :: g[i] != g[j]
  }

  /** The shape every published manifest has: ranges and tail share no generation, and the next generation is unused. */
  predicate Shape(rs: seq<Range>, tail: u32, next: int) {
    && |rs| <= MANIFEST_MAX_RANGES
    && AllFormed(rs)
    && tail != 0
    && Distinct(Active(rs, tail))
    && (forall g | g in Active(rs, tail) :: g < next)
  }

  lemma GensMembers(r: Range)
    ensures forall g: u32 :: g in Gens(r) <==> r.startGen <= g <= r.endGen
  {
    forall g: u32 ensures g in Gens(r) <==> r.startGen <= g <= r.endGen {
      if r.startGen <= g <= r.endGen {
        assert Gens(r)[g - r.startGen] == g;
      }
    }
  }

  /** Adjacent ranges are one range. */
  lemma GensJoin(a: Range, b: Range)
    requires a.startGen <= a.endGen && b.startGen <= b.endGen && a.endGen + 1 == b.startGen
    ensures Gens(a) + Gens(b) == Gens(Range(a.startGen, b.endGen))
  {
  }

  lemma {:induction false} FlattenConcat(a: seq<Range>, b: seq<Range>)
    ensures Flatten(a + b) == Flatten(a) + Flatten(b)
  {
    hide Gens;
    if a == [] {
      assert a + b == b;
    } else {
      assert (a + b)[1..] == a[1..] + b;
      FlattenConcat(a[1..], b);
    }
  }

  lemma FlattenOne(r: Range)
    ensures Flatten([r]) == Gens(r)
  {
    hide Gens;
    assert [r][1..] == [];
  }

  lemma FlattenThree(a: seq<Range>, r: Range, b: seq<Range>)
    ensures Flatten(a + [r] + b) == Flatten(a) + Gens(r) + Flatten(b)
  {
    hide Gens, Flatten;
    FlattenConcat(a + [r], b);
    FlattenConcat(a, [r]);
    FlattenOne(r);
  }

  lemma Cut<T>(s: seq<T>, i: nat)
    requires i < |s|
    ensures s == s[..i] + [s[i]] + s[i + 1..]
  {
  }

  /** Cutting the ranges around index i. */
  lemma FlattenAround(rs: seq<Range>, i: nat)
    requires i < |rs|
    ensures Flatten(rs) == Flatten(rs[..i]) + Gens(rs[i]) + Flatten(rs[i + 1..])
  {
    hide Gens, Flatten;
    Cut(rs, i);
    FlattenThree(rs[..i], rs[i], rs[i + 1..]);
  }

  lemma FlattenMember(rs: seq<Range>, i: nat, g: u32)
    requires i < |rs| && rs[i].startGen <= g <= rs[i].endGen
    ensures g in Flatten(rs)
  {
    hide Gens, Flatten;
    FlattenAround(rs, i);
    GensMembers(rs[i]);
  }

  lemma {:induction false} FlattenOrigin(rs: seq<Range>, g: u32) returns (i: nat)
    requires g in Flatten(rs)
    ensures i < |rs| && rs[i].startGen <= g <= rs[i].endGen
  {
    hide Gens;
    GensMembers(rs[0]);
    if g in Gens(rs[0]) {
      i := 0;
    } else {
      assert g in Flatten(rs[1..]);
      var j := FlattenOrigin(rs[1..], g);
      i := j + 1;
    }
  }

  lemma DistinctParts(a: seq<u32>, b: seq<u32>)
    ensures Distinct(a + b) <==> Distinct(a) && Distinct(b) && (forall x | x in a :: x !in b)
  {
    var c := a + b;
    if Distinct(c) {
      assert forall i | 0 <= i < |a| :: c[i] == a[i];
      assert forall i | 0 <= i < |b| :: c[|a| + i] == b[i];
      assert forall x | x in a :: x !in b;
    }
    if Distinct(a) && Distinct(b) && (forall x | x in a :: x !in b) {
      forall i, j | 0 <= i < j < |c| ensures c[i] != c[j] {
        if i < |a| && j >= |a| {
          assert c[i] in a && c[j] in b;
        }
      }
    }
  }

  lemma GensDistinct(r: Range)
    ensures Distinct(Gens(r))
  {
  }

  // Rotation.

  /** The ranges after the tail is sealed: joined to the last range when it follows it, else a range of its own. */
  function Sealed(rs: seq<Range>, tail: u32): seq<Range> {
    if tail == 0 then rs
    else if rs != [] && rs[|rs| - 1].endGen + 1 == tail
    then rs[..|rs| - 1] + [Range(rs[|rs| - 1].startGen, tail)]
    else rs + [Range(tail, tail)]
  }

  /** Sealing the tail moves it, and nothing else, into the ranges. */
  lemma SealedFlatten(rs: seq<Range>, tail: u32)
    requires AllFormed(rs) && tail != 0
    ensures AllFormed(Sealed(rs, tail)) && Flatten(Sealed(rs, tail)) == Flatten(rs) + [tail]
    ensures |rs| <= |Sealed(rs, tail)| <= |rs| + 1
  {
    hide Gens, Flatten;
    FlattenOne(Range(tail, tail));
    assert Gens(Range(tail, tail)) == [tail] by { GensSingle(tail); }
    if rs != [] && rs[|rs| - 1].endGen + 1 == tail {
      var init, last := rs[..|rs| - 1], rs[|rs| - 1];
      var joined := Range(last.startGen, tail);
      assert last in rs;
      GensJoin(last, Range(tail, tail));
      FlattenConcat(init, [joined]);
      FlattenOne(joined);
      FlattenConcat(init, [last]);
      FlattenOne(last);
      assert rs == init + [last];
    } else {
      FlattenConcat(rs, [Range(tail, tail)]);
    }
  }

  lemma GensSingle(g: u32)
    ensures Gens(Range(g, g)) == [g]
  {
  }

  /** Rotation keeps the shape: the old tail becomes the last sealed generation and the unused generation the tail. */
  lemma RotationShape(rs: seq<Range>, tail: u32, next: u32)
    requires Shape(rs, tail, next) && next != 0 && |Sealed(rs, tail)| <= MANIFEST_MAX_RANGES
    ensures Shape(Sealed(rs, tail), next, next + 1)
    ensures Active(Sealed(rs, tail), next) == Active(rs, tail) + [next]
  {
    hide Flatten, Sealed;
    SealedFlatten(rs, tail);
    DistinctParts(Active(rs, tail), [next]);
  }

  // Compaction.

  /** The index of the range holding startGen to endGen, or the number of ranges. */
  function ParentIndex(rs: seq<Range>, startGen: u32, endGen: u32): (i: nat)
    ensures i <= |rs|
    ensures i < |rs| ==> rs[i].startGen <= startGen && endGen <= rs[i].endGen
    ensures forall k | 0 <= k < i :: !(rs[k].startGen <= startGen && endGen <= rs[k].endGen)
  {
    if rs == [] || (rs[0].startGen <= startGen && endGen <= rs[0].endGen) then 0
    else 1 + ParentIndex(rs[1..], startGen, endGen)
  }

  function LeftOf(parent: Range, input: Range): seq<Range> {
    if parent.startGen < input.startGen then [Range(parent.startGen, input.startGen - 1)] else []
  }

  function RightOf(parent: Range, input: Range): seq<Range>
    requires input.endGen <= parent.endGen
  {
    if input.endGen < parent.endGen then [Range(input.endGen + 1, parent.endGen)] else []
  }

  /** The generations replayed before, and after, the compacted range of the parent at index i. */
  function Before(rs: seq<Range>, i: nat, input: Range): seq<u32>
    requires i < |rs|
  {
    Flatten(rs[..i]) + Flatten(LeftOf(rs[i], input))
  }

  function After(rs: seq<Range>, i: nat, input: Range): seq<u32>
    requires i < |rs| && input.endGen <= rs[i].endGen
  {
    Flatten(RightOf(rs[i], input)) + Flatten(rs[i + 1..])
  }

  lemma FragmentsFormed(parent: Range, input: Range)
    requires RangeFormed(parent) && parent.startGen <= input.startGen <= input.endGen <= parent.endGen
    ensures AllFormed(LeftOf(parent, input)) && AllFormed(RightOf(parent, input)) && RangeFormed(input)
  {
  }

  lemma Fragments(parent: Range, input: Range)
    requires parent.startGen <= input.startGen <= input.endGen <= parent.endGen
    ensures Gens(parent) == Flatten(LeftOf(parent, input)) + Gens(input) + Flatten(RightOf(parent, input))
  {
    hide Gens;
    var l, r := LeftOf(parent, input), RightOf(parent, input);
    var b := Range(input.startGen, parent.endGen);
    if l != [] {
      FlattenOne(l[0]);
      GensJoin(l[0], b);
    }
    if r != [] {
      FlattenOne(r[0]);
      GensJoin(input, r[0]);
    }
    assert Gens(b) == Gens(input) + Flatten(r);
    assert Gens(parent) == Flatten(l) + Gens(b);
  }

  lemma Regroup<T>(p: seq<T>, l: seq<T>, m: seq<T>, r: seq<T>, q: seq<T>)
    ensures p + (l + m + r) + q == (p + l) + m + (r + q)
    ensures p + l + m + r + q == (p + l) + m + (r + q)
  {
  }

  /** The input is a contiguous slice of the replay order. */
  lemma InputSlice(rs: seq<Range>, i: nat, input: Range)
    requires i < |rs|
    requires rs[i].startGen <= input.startGen <= input.endGen <= rs[i].endGen
    ensures Flatten(rs) == Before(rs, i, input) + Gens(input) + After(rs, i, input)
  {
    hide Gens, Flatten, LeftOf, RightOf;
    FlattenAround(rs, i);
    Fragments(rs[i], input);
    Regroup(Flatten(rs[..i]), Flatten(LeftOf(rs[i], input)), Gens(input), Flatten(RightOf(rs[i], input)), Flatten(rs[i + 1..]));
  }

  /** The ranges after the input is replaced by the output ranges out (none, or one) between the fragments of the parent. */
  function Spliced(rs: seq<Range>, i: nat, input: Range, out: seq<Range>): seq<Range>
    requires i < |rs| && input.endGen <= rs[i].endGen
  {
    rs[..i] + LeftOf(rs[i], input) + out + RightOf(rs[i], input) + rs[i + 1..]
  }

  /** Splicing replaces exactly the input slice of the replay order by the output. */
  lemma SplicedFlatten(rs: seq<Range>, i: nat, input: Range, out: seq<Range>)
    requires i < |rs| && input.endGen <= rs[i].endGen
    ensures Flatten(Spliced(rs, i, input, out)) == Before(rs, i, input) + Flatten(out) + After(rs, i, input)
  {
    hide Gens, Flatten, LeftOf, RightOf;
    var p, l, r, q := rs[..i], LeftOf(rs[i], input), RightOf(rs[i], input), rs[i + 1..];
    FlattenConcat(p, l);
    FlattenConcat(p + l, out);
    FlattenConcat(p + l + out, r);
    FlattenConcat(p + l + out + r, q);
    Regroup(Flatten(p), Flatten(l), Flatten(out), Flatten(r), Flatten(q));
  }

  lemma SplicedFormed(rs: seq<Range>, i: nat, input: Range, out: seq<Range>)
    requires AllFormed(rs) && i < |rs| && AllFormed(out)
    requires rs[i].startGen <= input.startGen <= input.endGen <= rs[i].endGen
    ensures AllFormed(Spliced(rs, i, input, out))
  {
    hide LeftOf, RightOf;
    FragmentsFormed(rs[i], input);
  }

  /** Ranges k and k + 1 joined into one when they are adjacent. */
  function JoinAt(rs: seq<Range>, k: nat): (r: seq<Range>)
    ensures |rs| - 1 <= |r| <= |rs|
  {
    if k + 1 < |rs| && rs[k].endGen + 1 == rs[k + 1].startGen
    then rs[..k] + [Range(rs[k].startGen, rs[k + 1].endGen)] + rs[k + 2..]
    else rs
  }

  /** The two-sided merge around the output at index k: first with its right neighbour, then with its left. */
  function Merged(rs: seq<Range>, k: nat): (r: seq<Range>)
    ensures |r| <= |rs|
  {
    var right := JoinAt(rs, k);
    if k > 0 then JoinAt(right, k - 1) else right
  }

  lemma JoinAtFlatten(rs: seq<Range>, k: nat)
    requires AllFormed(rs)
    ensures AllFormed(JoinAt(rs, k)) && Flatten(JoinAt(rs, k)) == Flatten(rs)
  {
    hide Gens, Flatten;
    if k + 1 < |rs| && rs[k].endGen + 1 == rs[k + 1].startGen {
      var a, b := rs[k], rs[k + 1];
      assert a in rs && b in rs;
      GensJoin(a, b);
      assert rs == (rs[..k] + [a] + [b]) + rs[k + 2..];
      FlattenConcat(rs[..k] + [a] + [b], rs[k + 2..]);
      FlattenConcat(rs[..k] + [a], [b]);
      FlattenConcat(rs[..k], [a]);
      FlattenOne(a);
      FlattenOne(b);
      FlattenThree(rs[..k], Range(a.startGen, b.endGen), rs[k + 2..]);
      assert Flatten(rs[..k]) + Gens(a) + Gens(b) == Flatten(rs[..k]) + (Gens(a) + Gens(b));
    }
  }

  /** Merging never changes which generations are listed nor their order. */
  lemma MergedFlatten(rs: seq<Range>, k: nat)
    requires AllFormed(rs)
    ensures AllFormed(Merged(rs, k)) && Flatten(Merged(rs, k)) == Flatten(rs)
  {
    hide JoinAt, Flatten;
    JoinAtFlatten(rs, k);
    if k > 0 {
      JoinAtFlatten(JoinAt(rs, k), k - 1);
    }
  }

  /** The number of ranges after a splice, before merging. */
  lemma SplicedCount(rs: seq<Range>, i: nat, input: Range, out: seq<Range>)
    requires i < |rs| && input.endGen <= rs[i].endGen
    ensures |Spliced(rs, i, input, out)|
         == |rs| - 1 + |out| + (if rs[i].startGen < input.startGen then 1 else 0) + (if input.endGen < rs[i].endGen then 1 else 0)
  {
  }

  lemma ReplaceSlice(a: seq<u32>, m: seq<u32>, b: seq<u32>, o: seq<u32>, next: int, next': int)
    requires Distinct(a + (m + b)) && Distinct(o) && next <= next'
    requires forall x | x in a + (m + b) :: x < next
    requires forall x | x in o :: next <= x < next'
    ensures Distinct(a + o + b) && forall x | x in a + o + b :: x < next'
  {
    hide Distinct;
    DistinctParts(a, m + b);
    DistinctParts(m, b);
    assert forall x | x in a || x in b :: x in a + (m + b);
    DistinctParts(a, o);
    DistinctParts(a + o, b);
  }

  /** Compaction keeps the shape: the input leaves the replay order and unused generations take its place. */
  lemma CompactionShape(rs: seq<Range>, tail: u32, next: u32, i: nat, input: Range, out: seq<Range>, k: nat, next': int)
    requires Shape(rs, tail, next) && i < |rs| && AllFormed(out)
    requires rs[i].startGen <= input.startGen <= input.endGen <= rs[i].endGen
    requires forall g | g in Flatten(out) :: next <= g < next'
    requires Distinct(Flatten(out)) && next <= next'
    requires |Merged(Spliced(rs, i, input, out), k)| <= MANIFEST_MAX_RANGES
    ensures Shape(Merged(Spliced(rs, i, input, out), k), tail, next')
    ensures Active(Merged(Spliced(rs, i, input, out), k), tail)
         == Before(rs, i, input) + Flatten(out) + (After(rs, i, input) + [tail])
  {
    hide Gens, Flatten, LeftOf, RightOf, Merged, Spliced, Before, After, Distinct;
    var a, o, b := Before(rs, i, input), Flatten(out), After(rs, i, input) + [tail];
    var m := Gens(input);
    InputSlice(rs, i, input);
    SplicedFormed(rs, i, input, out);
    SplicedFlatten(rs, i, input, out);
    MergedFlatten(Spliced(rs, i, input, out), k);
    assert Active(rs, tail) == a + (m + b);
    assert Active(Merged(Spliced(rs, i, input, out), k), tail) == a + o + b;
    ReplaceSlice(a, m, b, o, next, next');
  }

  /** A range put in at an index. */
  function InsertRange(rs: seq<Range>, at: nat, x: Range): seq<Range>
    requires at <= |rs|
  {
    rs[..at] + [x] + rs[at..]
  }

  lemma InsertedAfter(head: seq<Range>, rest: seq<Range>, x: Range)
    ensures InsertRange(head + rest, |head|, x) == (head + [x]) + rest
  {
  }
}
