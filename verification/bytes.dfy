/** Bytes, fixed-width unsigned integers and their little-endian encodings. */
module Bytes {
  type byte = b: int | 0 <= b < 0x100
  type u16 = n: int | 0 <= n < 0x1_0000
  type u32 = n: int | 0 <= n < 0x1_0000_0000

  datatype Option<+T> = None | Some(value: T)

  /** writeU16: low byte first. */
  function Le16(n: u16): (b: seq<byte>)
    ensures |b| == 2
  {
    [n % 0x100, n / 0x100]
  }

  /** writeU32: low byte first. */
  function Le32(n: u32): (b: seq<byte>)
    ensures |b| == 4
  {
    [n % 0x100, n / 0x100 % 0x100, n / 0x1_0000 % 0x100, n / 0x100_0000]
  }

  function De16(b: seq<byte>, off: nat): u16
    requires off + 2 <= |b|
  {
    (b[off] as int) + 0x100 * (b[off + 1] as int)
  }

  function De32(b: seq<byte>, off: nat): u32
    requires off + 4 <= |b|
  {
    (b[off] as int) + 0x100 * (b[off + 1] as int) + 0x1_0000 * (b[off + 2] as int) + 0x100_0000 * (b[off + 3] as int)
  }

  /** A 16-bit field reads back as the value written exactly when its two bytes are that value's encoding. */
  lemma Field16(b: seq<byte>, off: nat, n: u16)
    requires off + 2 <= |b|
    ensures b[off..off + 2] == Le16(n) <==> De16(b, off) == n
  {
    var s := b[off..off + 2];
    assert s[0] == b[off] && s[1] == b[off + 1];
    if De16(b, off) == n {
      assert s == Le16(n);
    }
  }

  /** The base-256 digits of a 32-bit value are unique. */
  lemma Digits32(b0: byte, b1: byte, b2: byte, b3: byte)
    ensures var n := (b0 as int) + 0x100 * (b1 as int) + 0x1_0000 * (b2 as int) + 0x100_0000 * (b3 as int);
            b0 == n % 0x100 && b1 == n / 0x100 % 0x100 && b2 == n / 0x1_0000 % 0x100 && b3 == n / 0x100_0000
  {
    var n := (b0 as int) + 0x100 * (b1 as int) + 0x1_0000 * (b2 as int) + 0x100_0000 * (b3 as int);
    assert n / 0x100 == (b1 as int) + 0x100 * (b2 as int) + 0x1_0000 * (b3 as int);
    assert n / 0x1_0000 == (b2 as int) + 0x100 * (b3 as int);
  }

  /** A value is the sum of its base-256 digits. */
  lemma Value32(n: u32)
    ensures n % 0x100 + 0x100 * (n / 0x100 % 0x100) + 0x1_0000 * (n / 0x1_0000 % 0x100) + 0x100_0000 * (n / 0x100_0000) == n
  {
    var a, b, c := n / 0x100, n / 0x1_0000, n / 0x100_0000;
    assert n == 0x100 * a + n % 0x100;
    assert a == 0x100 * b + a % 0x100;
    assert b == 0x100 * c + b % 0x100;
  }

  /** Four bytes spell a value exactly when they are its encoding. */
  lemma Spells32(s: seq<byte>, n: u32)
    requires |s| == 4
    ensures s == Le32(n) <==> De32(s, 0) == n
  {
    if s == Le32(n) {
      Value32(n);
    } else if De32(s, 0) == n {
      Digits32(s[0], s[1], s[2], s[3]);
    }
  }

  lemma Slice32(b: seq<byte>, off: nat)
    requires off + 4 <= |b|
    ensures De32(b[off..off + 4], 0) == De32(b, off)
  {
  }

  /** A 32-bit field reads back as the value written exactly when its four bytes are that value's encoding. */
  lemma Field32(b: seq<byte>, off: nat, n: u32)
    requires off + 4 <= |b|
    ensures b[off..off + 4] == Le32(n) <==> De32(b, off) == n
  {
    hide Le32, De32;
    Slice32(b, off);
    Spells32(b[off..off + 4], n);
  }
}
