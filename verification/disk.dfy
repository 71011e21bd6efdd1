/** The file system as the store uses it: named byte files, calls that may fail without effect, and writes that a crash
    may cut short. */
module Disk {
  import opened Bytes

  /** The files of a store: one per segment generation, and the two manifest slots. */
  datatype Name = Segment(gen: u32) | SlotA | SlotB

  type Files = map<Name, seq<byte>>

  /** One call that changes the files. */
  datatype Op =
    | WriteFile(name: Name, data: seq<byte>)
    | WriteAt(name: Name, offset: nat, data: seq<byte>)
    | Resize(name: Name, size: nat)
    | Remove(name: Name)

  /** The number of bytes the call writes. */
  function Length(op: Op): nat {
    if op.WriteFile? || op.WriteAt? then |op.data| else 0
  }

  /** A positioned write: the bytes from offset on are replaced, and the file grows when they reach past its end. */
  function Overlay(was: seq<byte>, offset: nat, data: seq<byte>): seq<byte>
    requires offset <= |was|
  {
    was[..offset] + data + (if offset + |data| < |was| then was[offset + |data|..] else [])
  }

  predicate Applicable(d: Files, op: Op) {
    match op
    case WriteAt(n, offset, _) => n in d && offset <= |d[n]|
    case Resize(n, size) => n in d && size <= |d[n]|
    case _ => true
  }

  /** The files once the first k bytes of the call have reached the disk. */
  function Partial(d: Files, op: Op, k: nat): Files
    requires Applicable(d, op) && k <= Length(op)
  {
    match op
    case WriteFile(n, data) => d[n := data[..k]]
    case WriteAt(n, offset, data) => d[n := Overlay(d[n], offset, data[..k])]
    case Resize(n, size) => d[n := d[n][..size]]
    case Remove(n) => d - {n}
  }

  function Done(d: Files, op: Op): Files
    requires Applicable(d, op)
  {
    Partial(d, op, Length(op))
  }

  lemma DoneOver(d: Files, n: Name, offset: nat, data: seq<byte>)
    requires n in d && offset <= |d[n]|
    ensures Done(d, WriteAt(n, offset, data)) == d[n := Overlay(d[n], offset, data)]
  {
    assert data[..|data|] == data;
  }

  /** A write together with the files it found. */
  datatype Write = Write(before: Files, op: Op)

  // Total size.

  /** The summed sizes of all files. */
  ghost function Total(d: Files): nat {
    if d == map[] then 0
    else
      var n :| n in d;
      |d[n]| + Total(d - {n})
  }

  /** The sum does not depend on the order the files are taken in. */
  lemma {:induction false} TotalWithout(d: Files, n: Name)
    requires n in d
    ensures Total(d) == |d[n]| + Total(d - {n})
    decreases |d|
  {
    var m :| m in d && Total(d) == |d[m]| + Total(d - {m});
    if m != n {
      TotalWithout(d - {m}, n);
      assert (d - {m}) - {n} == (d - {n}) - {m};
      TotalWithout(d - {n}, m);
    }
  }

  lemma TotalWrite(d: Files, n: Name, b: seq<byte>)
    ensures Total(d[n := b]) == Total(d) - (if n in d then |d[n]| else 0) + |b|
  {
    TotalWithout(d[n := b], n);
    if n in d {
      TotalWithout(d, n);
      assert d[n := b] - {n} == d - {n};
    } else {
      assert d[n := b] - {n} == d;
    }
  }

  lemma TotalRemove(d: Files, n: Name)
    ensures Total(d - {n}) == Total(d) - (if n in d then |d[n]| else 0)
  {
    if n in d {
      TotalWithout(d, n);
    } else {
      assert d - {n} == d;
    }
  }

  // Sizes of segment files.

  /** No segment file is larger than the bound. */
  predicate AllSmall(d: Files, bound: nat) {
    forall n | n in d && n.Segment? :: |d[n]| <= bound
  }

  /** The call writes no segment beyond the bound. */
  predicate SmallOp(op: Op, bound: nat) {
    match op
    case WriteFile(n, data) => n.Segment? ==> |data| <= bound
    case WriteAt(n, offset, data) => n.Segment? ==> offset + |data| <= bound
    case _ => true
  }

  /** Neither now nor at any point of the writes so far is a segment file larger than the bound. */
  predicate SmallStore(d: Files, trace: seq<Write>, bound: nat) {
    AllSmall(d, bound) && forall w | w in trace :: AllSmall(w.before, bound) && SmallOp(w.op, bound)
  }

  lemma SmallPartial(d: Files, op: Op, k: nat, bound: nat)
    requires Applicable(d, op) && k <= Length(op) && AllSmall(d, bound) && SmallOp(op, bound)
    ensures AllSmall(Partial(d, op, k), bound)
  {
    var d' := Partial(d, op, k);
    forall n | n in d' && n.Segment? ensures |d'[n]| <= bound {
      if n != op.name {
        assert n in d;
      }
    }
  }

  lemma SmallAdd(d: Files, trace: seq<Write>, op: Op, bound: nat)
    requires Applicable(d, op) && SmallStore(d, trace, bound) && SmallOp(op, bound)
    ensures SmallStore(Done(d, op), trace + [Write(d, op)], bound)
  {
    SmallPartial(d, op, Length(op), bound);
  }

  /** The files as an object. A call fails when its turn in the schedule of faults says so, and then changes nothing. */
  class FileSystem {
    var files: Files
    var faults: seq<bool>
    /** Every call that has taken effect, with the files it found. */
    var trace: seq<Write>

    constructor (files: Files, faults: seq<bool>)
      ensures this.files == files && this.faults == faults && trace == []
    {
      this.files, this.faults, trace := files, faults, [];
    }

    predicate Faultless()
      reads this
    {
      true !in faults
    }

    predicate Small(bound: nat)
      reads this
    {
      SmallStore(files, trace, bound)
    }

    /** Whether the next call fails. */
    method NextFault() returns (fails: bool)
      modifies this`faults
      ensures old(Faultless()) ==> Faultless() && !fails
    {
      fails := faults != [] && faults[0];
      if faults != [] {
        faults := faults[1..];
      }
    }

    method WriteFile(name: Name, data: seq<byte>) returns (ok: bool)
      modifies this
      ensures ok ==> files == old(files)[name := data] && trace == old(trace) + [Write(old(files), Op.WriteFile(name, data))]
      ensures !ok ==> files == old(files) && trace == old(trace)
      ensures old(Faultless()) ==> ok && Faultless()
      ensures forall bound: nat | old(Small(bound)) && SmallOp(Op.WriteFile(name, data), bound) :: Small(bound)
    {
      var fails := NextFault();
      if fails { return false; }
      assert data[..|data|] == data;
      ghost var op := Op.WriteFile(name, data);
      forall bound: nat | Small(bound) && SmallOp(op, bound) ensures SmallStore(Done(files, op), trace + [Write(files, op)], bound) {
        SmallAdd(files, trace, op, bound);
      }
      trace := trace + [Write(files, Op.WriteFile(name, data))];
      files := files[name := data];
      return true;
    }

    /** A positioned write needs the file and does not leave a gap. */
    method WriteAt(name: Name, offset: nat, data: seq<byte>) returns (ok: bool)
      modifies this
      ensures ok ==> Applicable(old(files), Op.WriteAt(name, offset, data))
                     && files == Done(old(files), Op.WriteAt(name, offset, data))
                     && trace == old(trace) + [Write(old(files), Op.WriteAt(name, offset, data))]
      ensures !ok ==> files == old(files) && trace == old(trace)
      ensures old(Faultless()) ==> Faultless()
      ensures old(Faultless() && Applicable(files, Op.WriteAt(name, offset, data))) ==> ok
      ensures forall bound: nat | old(Small(bound)) && SmallOp(Op.WriteAt(name, offset, data), bound) :: Small(bound)
    {
      var fails := NextFault();
      if fails || name !in files || offset > |files[name]| { return false; }
      assert data[..|data|] == data;
      ghost var op := Op.WriteAt(name, offset, data);
      forall bound: nat | Small(bound) && SmallOp(op, bound) ensures SmallStore(Done(files, op), trace + [Write(files, op)], bound) {
        SmallAdd(files, trace, op, bound);
      }
      trace := trace + [Write(files, Op.WriteAt(name, offset, data))];
      files := files[name := Overlay(files[name], offset, data)];
      return true;
    }

    /** Cutting a file keeps its beginning. */
    method Resize(name: Name, size: nat) returns (ok: bool)
      requires name in files && size <= |files[name]|
      modifies this
      ensures ok ==> files == old(files)[name := old(files)[name][..size]]
                     && trace == old(trace) + [Write(old(files), Op.Resize(name, size))]
      ensures !ok ==> files == old(files) && trace == old(trace)
      ensures old(Faultless()) ==> ok && Faultless()
      ensures forall bound: nat | old(Small(bound)) && SmallOp(Op.Resize(name, size), bound) :: Small(bound)
    {
      var fails := NextFault();
      if fails { return false; }
      ghost var op := Op.Resize(name, size);
      forall bound: nat | Small(bound) && SmallOp(op, bound) ensures SmallStore(Done(files, op), trace + [Write(files, op)], bound) {
        SmallAdd(files, trace, op, bound);
      }
      trace := trace + [Write(files, Op.Resize(name, size))];
      files := files[name := files[name][..size]];
      return true;
    }

    /** Removing a file that is not there succeeds. */
    method Remove(name: Name) returns (ok: bool)
      modifies this
      ensures ok ==> files == old(files) - {name} && trace == old(trace) + [Write(old(files), Op.Remove(name))]
      ensures !ok ==> files == old(files) && trace == old(trace)
      ensures old(Faultless()) ==> ok && Faultless()
      ensures forall bound: nat | old(Small(bound)) && SmallOp(Op.Remove(name), bound) :: Small(bound)
    {
      var fails := NextFault();
      if fails { return false; }
      ghost var op := Op.Remove(name);
      forall bound: nat | Small(bound) && SmallOp(op, bound) ensures SmallStore(Done(files, op), trace + [Write(files, op)], bound) {
        SmallAdd(files, trace, op, bound);
      }
      trace := trace + [Write(files, Op.Remove(name))];
      files := files - {name};
      return true;
    }

    /** A positioned read of a range that lies inside the file. */
    method ReadAt(name: Name, offset: nat, size: nat) returns (out: seq<byte>)
      requires name in files && offset + size <= |files[name]|
      ensures out == files[name][offset..offset + size]
    {
      out := files[name][offset..offset + size];
    }

    /** Every file name once, in no particular order. */
    method ListFiles() returns (names: seq<Name>)
      ensures forall n :: n in names <==> n in files
      ensures forall i, j | 0 <= i < j < |names| :: names[i] != names[j]
    {
      names := [];
      var left := files.Keys;
      while left != {}
        invariant left <= files.Keys
        invariant forall n :: n in names <==> n in files && n !in left
        invariant forall i, j | 0 <= i < j < |names| :: names[i] != names[j]
        decreases left
      {
        var n :| n in left;
        names := names + [n];
        left := left - {n};
      }
    }
  }
}
