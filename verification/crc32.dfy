/** CRC-32 (section 8 of RFC 1952): the bitwise definition, the table-driven loop, and what the code detects. */
module Crc {
  import opened Bytes

  const POLY: bv32 := 0xEDB8_8320

  // The word operations the division uses. The lemmas below hide them and reason by their algebraic laws alone.

  function Xor(a: bv32, b: bv32): bv32 { a ^ b }

  function Half(a: bv32): bv32 { a >> 1 }

  predicate Odd(a: bv32) { a & 1 == 1 }

  function LowByte(a: bv32): bv32 { a & 0xFF }

  function ClearLow(a: bv32): bv32 { a & 0xFFFF_FF00 }

  function DropLow(a: bv32): bv32 { a >> 8 }

  function Complement(a: bv32): bv32 { !a }

  function Wide(b: byte): bv32 { (b as bv8) as bv32 }

  function Index(a: bv32): byte { (a & 0xFF) as bv8 as int }

  /** One bit of the reflected division. */
  function Bit(r: bv32): bv32 {
    Xor(Half(r), if Odd(r) then POLY else 0)
  }

  /** n bits of the reflected division. */
  function Bits(r: bv32, n: nat): bv32 {
    if n == 0 then r else Bit(Bits(r, n - 1))
  }

  /** The register after feeding data to register r, one bit at a time. */
  function Register(r: bv32, data: seq<byte>): bv32 {
    if data == [] then r
    else Bits(Xor(Register(r, data[..|data| - 1]), Wide(data[|data| - 1])), 8)
  }

  /** The four bytes of a register, low byte first. */
  function RegisterBytes(r: bv32): (b: seq<byte>)
    ensures |b| == 4
  {
    [Index(r), Index(DropLow(r)), Index(DropLow(DropLow(r))), Index(DropLow(DropLow(DropLow(r))))]
  }

  function Crc32(data: seq<byte>): u32 {
    De32(RegisterBytes(Complement(Register(0xFFFF_FFFF, data))), 0)
  }

  // Laws of the word operations.

  lemma XorCancelRight(a: bv32, b: bv32, c: bv32)
    requires Xor(a, c) == Xor(b, c)
    ensures a == b
  {
  }

  lemma XorCancelLeft(a: bv32, b: bv32, c: bv32)
    requires Xor(c, a) == Xor(c, b)
    ensures a == b
  {
  }

  lemma XorSymmetric(a: bv32, b: bv32)
    ensures Xor(a, b) == Xor(b, a)
  {
  }

  lemma XorRegroup(a: bv32, b: bv32, c: bv32)
    ensures Xor(Xor(a, b), c) == Xor(a, Xor(b, c))
  {
  }

  lemma XorSwap(a: bv32, b: bv32, c: bv32)
    ensures Xor(Xor(a, b), c) == Xor(Xor(a, c), b)
  {
    hide Xor;
    XorRegroup(a, b, c);
    XorSymmetric(b, c);
    XorRegroup(a, c, b);
  }

  lemma BitInjective(a: bv32, b: bv32)
    requires Bit(a) == Bit(b)
    ensures a == b
  {
  }

  lemma ComplementInjective(a: bv32, b: bv32)
    requires Complement(a) == Complement(b)
    ensures a == b
  {
  }

  lemma HalfSplit(l: bv32, h: bv32)
    requires !Odd(h)
    ensures Odd(Xor(l, h)) == Odd(l)
    ensures Half(Xor(l, h)) == Xor(Half(l), Half(h))
  {
  }

  lemma ByteSplit(r: bv32, w: bv32)
    requires w <= 0xFF
    ensures Xor(r, w) == Xor(LowByte(Xor(r, w)), ClearLow(Xor(r, w)))
    ensures DropLow(Xor(r, w)) == DropLow(r)
  {
  }

  lemma NarrowWide(b: byte)
    ensures (b as bv8) as int == b
  {
    assert b % 0x100 == b;
  }

  lemma WidenInjective(a: bv8, b: bv8)
    requires a as bv32 == b as bv32
    ensures a == b
  {
  }

  lemma WideInjective(a: byte, b: byte)
    requires Wide(a) == Wide(b)
    ensures a == b
  {
    WidenInjective(a as bv8, b as bv8);
    NarrowWide(a);
    NarrowWide(b);
  }

  lemma WidenSmall(b: bv8)
    ensures b as bv32 <= 0xFF
  {
  }

  lemma WideSmall(b: byte)
    ensures Wide(b) <= 0xFF
  {
    WidenSmall(b as bv8);
  }

  lemma WideNarrow(b: bv8)
    ensures (b as int) as bv8 == b
  {
  }

  lemma WidenLow(a: bv32)
    ensures ((a & 0xFF) as bv8) as bv32 == a & 0xFF
  {
  }

  lemma IndexWide(a: bv32)
    ensures Wide(Index(a)) == LowByte(a)
  {
    WideNarrow((a & 0xFF) as bv8);
    WidenLow(a);
  }

  lemma IndexInjective(a: bv32, b: bv32)
    requires Index(a) == Index(b)
    ensures LowByte(a) == LowByte(b)
  {
    hide *;
    IndexWide(a);
    IndexWide(b);
  }

  lemma Reassemble(a: bv32, b: bv32)
    requires LowByte(a) == LowByte(b) && DropLow(a) == DropLow(b)
    ensures a == b
  {
  }

  lemma ThreeDrops(a: bv32)
    ensures DropLow(DropLow(DropLow(DropLow(a)))) == 0
  {
  }

  lemma RegisterBytesInjective(a: bv32, b: bv32)
    requires RegisterBytes(a) == RegisterBytes(b)
    ensures a == b
  {
    hide Index, DropLow, LowByte;
    var a1, b1 := DropLow(a), DropLow(b);
    var a2, b2 := DropLow(a1), DropLow(b1);
    var a3, b3 := DropLow(a2), DropLow(b2);
    assert Index(a) == RegisterBytes(a)[0] && Index(b) == RegisterBytes(b)[0];
    assert Index(a1) == RegisterBytes(a)[1] && Index(b1) == RegisterBytes(b)[1];
    assert Index(a2) == RegisterBytes(a)[2] && Index(b2) == RegisterBytes(b)[2];
    assert Index(a3) == RegisterBytes(a)[3] && Index(b3) == RegisterBytes(b)[3];
    IndexInjective(a, b);
    IndexInjective(a1, b1);
    IndexInjective(a2, b2);
    IndexInjective(a3, b3);
    ThreeDrops(a);
    ThreeDrops(b);
    Reassemble(a3, b3);
    Reassemble(a2, b2);
    Reassemble(a1, b1);
    Reassemble(a, b);
  }

  // Detection of a changed byte.

  lemma {:induction false} BitsInjective(a: bv32, b: bv32, n: nat)
    requires Bits(a, n) == Bits(b, n)
    ensures a == b
  {
    hide Bit;
    if n > 0 {
      BitInjective(Bits(a, n - 1), Bits(b, n - 1));
      BitsInjective(a, b, n - 1);
    }
  }

  lemma {:induction false} RegisterInjective(a: bv32, b: bv32, data: seq<byte>)
    requires Register(a, data) == Register(b, data)
    ensures a == b
  {
    hide Bits, Wide, Xor;
    if data != [] {
      var rest, w := data[..|data| - 1], Wide(data[|data| - 1]);
      BitsInjective(Xor(Register(a, rest), w), Xor(Register(b, rest), w), 8);
      XorCancelRight(Register(a, rest), Register(b, rest), w);
      RegisterInjective(a, b, rest);
    }
  }

  lemma {:induction false} RegisterConcat(r: bv32, a: seq<byte>, b: seq<byte>)
    ensures Register(r, a + b) == Register(Register(r, a), b)
  {
    hide Bits, Wide, Xor;
    if b == [] {
      assert a + b == a;
    } else {
      assert (a + b)[..|a + b| - 1] == a + b[..|b| - 1];
      RegisterConcat(r, a, b[..|b| - 1]);
    }
  }

  lemma RegisterOne(r: bv32, b: byte)
    ensures Register(r, [b]) == Bits(Xor(r, Wide(b)), 8)
  {
    hide Bits, Wide, Xor;
    assert [b][..0] == [];
  }

  lemma ByteDistinguished(r: bv32, a: byte, b: byte)
    requires a != b
    ensures Register(r, [a]) != Register(r, [b])
  {
    hide *;
    RegisterOne(r, a);
    RegisterOne(r, b);
    if Register(r, [a]) == Register(r, [b]) {
      BitsInjective(Xor(r, Wide(a)), Xor(r, Wide(b)), 8);
      XorCancelLeft(Wide(a), Wide(b), r);
      WideInjective(a, b);
    }
  }

  /** Equal checksums come from equal registers. */
  lemma ChecksumInjective(x: bv32, y: bv32)
    requires De32(RegisterBytes(Complement(x)), 0) == De32(RegisterBytes(Complement(y)), 0)
    ensures x == y
  {
    hide Complement, RegisterBytes, De32;
    var p, q := RegisterBytes(Complement(x)), RegisterBytes(Complement(y));
    Field32(p, 0, De32(q, 0));
    Field32(q, 0, De32(q, 0));
    assert p == p[0..4] == q[0..4] == q;
    RegisterBytesInjective(Complement(x), Complement(y));
    ComplementInjective(x, y);
  }

  lemma CrcInjective(a: seq<byte>, b: seq<byte>)
    requires Crc32(a) == Crc32(b)
    ensures Register(0xFFFF_FFFF, a) == Register(0xFFFF_FFFF, b)
  {
    hide Register, Complement, RegisterBytes, De32;
    ChecksumInjective(Register(0xFFFF_FFFF, a), Register(0xFFFF_FFFF, b));
  }

  /** Two messages of the same length that differ in exactly one byte never share a checksum. */
  lemma DetectsOneByte(a: seq<byte>, b: seq<byte>, i: nat)
    requires |a| == |b| && i < |a|
    requires a[i] != b[i]
    requires forall j | 0 <= j < |a| && j != i :: a[j] == b[j]
    ensures Crc32(a) != Crc32(b)
  {
    hide *;
    var head, tail := a[..i], a[i + 1..];
    assert a == head + [a[i]] + tail;
    assert b == head + [b[i]] + tail;
    var r := Register(0xFFFF_FFFF, head);
    ByteDistinguished(r, a[i], b[i]);
    RegisterConcat(0xFFFF_FFFF, head, [a[i]]);
    RegisterConcat(0xFFFF_FFFF, head, [b[i]]);
    RegisterConcat(0xFFFF_FFFF, head + [a[i]], tail);
    RegisterConcat(0xFFFF_FFFF, head + [b[i]], tail);
    if Crc32(a) == Crc32(b) {
      CrcInjective(a, b);
      RegisterInjective(Register(r, [a[i]]), Register(r, [b[i]]), tail);
    }
  }

  // The table-driven form.

  predicate IsTable(t: seq<bv32>) {
    && |t| == 256
    && forall i: byte :: t[i] == Bits(Wide(i), 8)
  }

  /** Builds the 256-entry table, eight shift steps an entry. */
  method BuildTable() returns (t: array<bv32>)
    ensures fresh(t) && IsTable(t[..])
  {
    hide Half, Odd, Xor, Wide;
    t := new bv32[256];
    var i := 0;
    while i < 256
      invariant 0 <= i <= 256
      invariant forall k: byte | k < i :: t[k] == Bits(Wide(k), 8)
    {
      var c := Wide(i);
      var j := 0;
      while j < 8
        invariant 0 <= j <= 8
        invariant c == Bits(Wide(i), j)
        invariant forall k: byte | k < i :: t[k] == Bits(Wide(k), 8)
      {
        c := Xor(Half(c), if Odd(c) then POLY else 0);
        j := j + 1;
      }
      t[i] := c;
      i := i + 1;
    }
  }

  /** h shifted down n places, one at a time. */
  function Down(h: bv32, n: nat): bv32 {
    if n == 0 then h else Half(Down(h, n - 1))
  }

  /** Where the low n + 1 bits are clear, halving drops a zero and leaves the low n bits clear. */
  lemma HalfClear(h: bv32, mask: bv32)
    requires h & mask == 0 && mask & 1 == 1
    ensures !Odd(h) && Half(h) & (mask >> 1) == 0
  {
  }

  lemma ClearLowMask(x: bv32)
    ensures ClearLow(x) & 0xFF == 0
  {
  }

  lemma EightHalves(x: bv32)
    ensures Half(Half(Half(Half(Half(Half(Half(Half(ClearLow(x))))))))) == DropLow(x)
  {
  }

  /** Once the low byte is cleared, the next eight shifts drop only zeros. */
  lemma DownSteps(x: bv32)
    ensures forall n: nat | n < 8 :: !Odd(Down(ClearLow(x), n))
    ensures Down(ClearLow(x), 8) == DropLow(x)
  {
    hide Half, Odd, ClearLow, DropLow;
    var h := ClearLow(x);
    var h1 := Half(h);
    var h2 := Half(h1);
    var h3 := Half(h2);
    var h4 := Half(h3);
    var h5 := Half(h4);
    var h6 := Half(h5);
    var h7 := Half(h6);
    ClearLowMask(x);
    HalfClear(h, 0xFF);
    HalfClear(h1, 0x7F);
    HalfClear(h2, 0x3F);
    HalfClear(h3, 0x1F);
    HalfClear(h4, 0xF);
    HalfClear(h5, 7);
    HalfClear(h6, 3);
    HalfClear(h7, 1);
    EightHalves(x);
    assert Down(h, 0) == h;
    assert Down(h, 1) == h1;
    assert Down(h, 2) == h2;
    assert Down(h, 3) == h3;
    assert Down(h, 4) == h4;
    assert Down(h, 5) == h5;
    assert Down(h, 6) == h6;
    assert Down(h, 7) == h7;
    forall n: nat | n < 8 ensures !Odd(Down(h, n)) {
      assert n == 0 || n == 1 || n == 2 || n == 3 || n == 4 || n == 5 || n == 6 || n == 7;
    }
  }

  lemma BitSplit(l: bv32, h: bv32)
    requires !Odd(h)
    ensures Bit(Xor(l, h)) == Xor(Bit(l), Half(h))
  {
    hide Xor, Half, Odd;
    HalfSplit(l, h);
    XorSwap(Half(l), Half(h), if Odd(l) then POLY else 0);
  }

  /** The division is linear: a part of the register that only shifts can be divided apart from the rest. */
  lemma {:induction false} BitsSplit(l: bv32, h: bv32, n: nat)
    requires forall k: nat | k < n :: !Odd(Down(h, k))
    ensures Bits(Xor(l, h), n) == Xor(Bits(l, n), Down(h, n))
  {
    hide Bit, Xor, Half, Odd;
    if n > 0 {
      BitsSplit(l, h, n - 1);
      BitSplit(Bits(l, n - 1), Down(h, n - 1));
    }
  }

  /** Feeding a byte through the table: one lookup by the low byte, with the other three bytes shifted down. */
  lemma TableFeed(r: bv32, b: byte, t: seq<bv32>)
    requires IsTable(t)
    ensures Xor(t[Index(Xor(r, Wide(b)))], DropLow(r)) == Bits(Xor(r, Wide(b)), 8)
  {
    hide Bits, Wide, Xor, Index, DropLow, ClearLow, LowByte, Down, Odd;
    var x := Xor(r, Wide(b));
    WideSmall(b);
    ByteSplit(r, Wide(b));
    DownSteps(x);
    BitsSplit(LowByte(x), ClearLow(x), 8);
    IndexWide(x);
  }

  /** crc32 as the loop over the table computes it. */
  method TableCrc32(data: seq<byte>) returns (crc: u32)
    ensures crc == Crc32(data)
  {
    hide Bits, Wide, Xor, Index, DropLow, RegisterBytes, De32, Complement;
    var t := BuildTable();
    ghost var table := t[..];
    var r: bv32 := 0xFFFF_FFFF;
    var i := 0;
    while i < |data|
      invariant 0 <= i <= |data|
      invariant t[..] == table && IsTable(table)
      invariant r == Register(0xFFFF_FFFF, data[..i])
    {
      assert data[..i + 1][..i] == data[..i];
      TableFeed(r, data[i], table);
      r := Xor(t[Index(Xor(r, Wide(data[i])))], DropLow(r));
      i := i + 1;
    }
    assert data[..i] == data;
    crc := De32(RegisterBytes(Complement(r)), 0);
  }
}
