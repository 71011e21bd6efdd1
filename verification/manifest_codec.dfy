/** The manifest: which generations are live and in what order, and its on-disk form (append_log_common). */
module ManifestCodec {
  import opened Bytes
  import opened Crc
  import opened Codec

  const MANIFEST_MAGIC: u32 := 0x464D_5150
  const MANIFEST_VERSION: u16 := 1
  const MANIFEST_FIXED_BYTES := 30
  const MANIFEST_MAX_RANGES := 1024
  const RANGE_ENTRY_BYTES := 8

  /** The generations startGen to endGen, both included. */
  datatype Range = Range(startGen: u32, endGen: u32)

  datatype Manifest = Manifest(epoch: u32, nextGeneration: u32, ranges: seq<Range>, tailGeneration: u32)

  predicate RangeFormed(r: Range) {
    r.startGen != 0 && r.startGen <= r.endGen
  }

  /** What the parser demands of the data: bounded, non-empty ranges above generation 0, and a tail behind any range. */
  predicate Formed(m: Manifest) {
    && |m.ranges| <= MANIFEST_MAX_RANGES
    && (forall r | r in m.ranges :: RangeFormed(r))
    && (m.tailGeneration == 0 ==> m.ranges == [])
  }

  function ManifestSize(ranges: nat): nat {
    MANIFEST_FIXED_BYTES + RANGE_ENTRY_BYTES * ranges
  }

  function RangeBytes(rs: seq<Range>): (b: seq<byte>)
    ensures |b| == RANGE_ENTRY_BYTES * |rs|
  {
    if rs == [] then []
    else RangeBytes(rs[..|rs| - 1]) + Le32(rs[|rs| - 1].startGen) + Le32(rs[|rs| - 1].endGen)
  }

  function FixedPart(m: Manifest): (b: seq<byte>)
    requires |m.ranges| <= MANIFEST_MAX_RANGES
    ensures |b| == 18
  {
    Le32(MANIFEST_MAGIC) + Le16(MANIFEST_VERSION) + Le16(ManifestSize(|m.ranges|))
    + Le32(m.epoch) + Le32(m.nextGeneration) + Le16(|m.ranges|)
  }

  function ManifestBody(m: Manifest): (b: seq<byte>)
    requires |m.ranges| <= MANIFEST_MAX_RANGES
    ensures |b| == ManifestSize(|m.ranges|) - 8
  {
    FixedPart(m) + RangeBytes(m.ranges) + Le32(m.tailGeneration)
  }

  function Serialise(m: Manifest): (b: seq<byte>)
    requires |m.ranges| <= MANIFEST_MAX_RANGES
    ensures |b| == ManifestSize(|m.ranges|)
  {
    ManifestBody(m) + Le32(Crc32(ManifestBody(m))) + Le32(FOOTER_MAGIC)
  }

  /** serialiseManifest as the loop writes it. */
  method SerialiseManifest(m: Manifest) returns (out: seq<byte>)
    requires |m.ranges| <= MANIFEST_MAX_RANGES
    ensures out == Serialise(m)
  {
    hide Le16, Le32, Crc32;
    out := Le32(MANIFEST_MAGIC);
    out := out + Le16(MANIFEST_VERSION);
    out := out + Le16(ManifestSize(|m.ranges|));
    out := out + Le32(m.epoch);
    out := out + Le32(m.nextGeneration);
    out := out + Le16(|m.ranges|);
    var i := 0;
    while i < |m.ranges|
      invariant 0 <= i <= |m.ranges|
      invariant out == FixedPart(m) + RangeBytes(m.ranges[..i])
    {
      out := out + Le32(m.ranges[i].startGen);
      out := out + Le32(m.ranges[i].endGen);
      assert m.ranges[..i + 1][..i] == m.ranges[..i];
      i := i + 1;
    }
    assert m.ranges[..i] == m.ranges;
    out := out + Le32(m.tailGeneration);
    out := out + Le32(Crc32(out));
    out := out + Le32(FOOTER_MAGIC);
  }

  // Parsing.

  function RangeAt(b: seq<byte>, i: nat): Range
    requires 18 + 8 * i + 8 <= |b|
  {
    Range(De32(b, 18 + 8 * i), De32(b, 22 + 8 * i))
  }

  function RangesAt(b: seq<byte>, n: nat): (rs: seq<Range>)
    requires 18 + 8 * n <= |b|
    ensures |rs| == n
  {
    seq(n, i requires 0 <= i < n => RangeAt(b, i))
  }

  /** parseManifest: every check in the source's order is one conjunct. */
  predicate Accepted(b: seq<byte>) {
    && |b| >= MANIFEST_FIXED_BYTES
    && De32(b, 0) == MANIFEST_MAGIC && De16(b, 4) == MANIFEST_VERSION
    && var n := De16(b, 16);
    && n <= MANIFEST_MAX_RANGES
    && De16(b, 6) == ManifestSize(n) && |b| == ManifestSize(n)
    && (forall i | 0 <= i < n :: RangeFormed(RangeAt(b, i)))
    && (De32(b, 18 + 8 * n) == 0 ==> n == 0)
    && De32(b, 22 + 8 * n) == Crc32(b[..22 + 8 * n])
    && De32(b, 26 + 8 * n) == FOOTER_MAGIC
  }

  function Fields(b: seq<byte>): Manifest
    requires Accepted(b)
  {
    var n := De16(b, 16);
    Manifest(De32(b, 8), De32(b, 12), RangesAt(b, n), De32(b, 18 + 8 * n))
  }

  function Parse(b: seq<byte>): Option<Manifest> {
    if Accepted(b) then Some(Fields(b)) else None
  }

  /** parseManifest as the loop reads it, with a cursor moved past each field. */
  method ParseManifest(b: seq<byte>) returns (r: Option<Manifest>)
    ensures r == Parse(b)
  {
    hide De16, De32, Crc32;
    if |b| < MANIFEST_FIXED_BYTES { return None; }
    var magic, version, headerBytes := De32(b, 0), De16(b, 4), De16(b, 6);
    if magic != MANIFEST_MAGIC { return None; }
    if version != MANIFEST_VERSION { return None; }
    var epoch, nextGeneration, rangeCount := De32(b, 8), De32(b, 12), De16(b, 16);
    if rangeCount > MANIFEST_MAX_RANGES { return None; }
    if headerBytes != ManifestSize(rangeCount) { return None; }
    if |b| != headerBytes { return None; }
    var o := 18;
    var ranges: seq<Range> := [];
    var i := 0;
    while i < rangeCount
      invariant 0 <= i <= rangeCount
      invariant o == 18 + 8 * i
      invariant ranges == RangesAt(b, i)
      invariant forall k | 0 <= k < i :: RangeFormed(RangeAt(b, k))
    {
      var g := Range(De32(b, o), De32(b, o + 4));
      o := o + 8;
      assert g == RangeAt(b, i);
      if g.startGen == 0 { return None; }
      if g.endGen < g.startGen { return None; }
      ranges := ranges + [g];
      i := i + 1;
    }
    var tailGeneration := De32(b, o);
    o := o + 4;
    if tailGeneration == 0 && rangeCount != 0 { return None; }
    if De32(b, o) != Crc32(b[..o]) { return None; }
    if De32(b, o + 4) != FOOTER_MAGIC { return None; }
    r := Some(Manifest(epoch, nextGeneration, ranges, tailGeneration));
  }

  // Parsing and serialising are inverse.

  lemma {:induction false} RangeBytesAt(rs: seq<Range>, i: nat)
    requires i < |rs|
    ensures RangeBytes(rs)[8 * i..8 * i + 4] == Le32(rs[i].startGen)
    ensures RangeBytes(rs)[8 * i + 4..8 * i + 8] == Le32(rs[i].endGen)
  {
    hide Le32;
    var init := rs[..|rs| - 1];
    if i < |rs| - 1 {
      RangeBytesAt(init, i);
      assert RangeBytes(rs)[8 * i..8 * i + 4] == RangeBytes(init)[8 * i..8 * i + 4];
      assert RangeBytes(rs)[8 * i + 4..8 * i + 8] == RangeBytes(init)[8 * i + 4..8 * i + 8];
    }
  }

  /** Any 8n bytes are the encoding of the n ranges they spell. */
  lemma {:induction false} RangeBytesFrom(b: seq<byte>, n: nat)
    requires 18 + 8 * n <= |b|
    ensures RangeBytes(RangesAt(b, n)) == b[18..18 + 8 * n]
  {
    hide Le32, De32;
    if n > 0 {
      RangeBytesFrom(b, n - 1);
      assert RangesAt(b, n)[..n - 1] == RangesAt(b, n - 1);
      Field32(b, 18 + 8 * (n - 1), De32(b, 18 + 8 * (n - 1)));
      Field32(b, 22 + 8 * (n - 1), De32(b, 22 + 8 * (n - 1)));
      assert b[18..18 + 8 * n] == b[18..18 + 8 * (n - 1)] + b[18 + 8 * (n - 1)..22 + 8 * (n - 1)] + b[22 + 8 * (n - 1)..18 + 8 * n];
    }
  }

  /** The fields of a serialised manifest. */
  lemma SerialisedFields(m: Manifest)
    requires |m.ranges| <= MANIFEST_MAX_RANGES
    ensures var b := Serialise(m);
            var n := |m.ranges|;
            && De32(b, 0) == MANIFEST_MAGIC && De16(b, 4) == MANIFEST_VERSION && De16(b, 6) == ManifestSize(n)
            && De32(b, 8) == m.epoch && De32(b, 12) == m.nextGeneration && De16(b, 16) == n
            && De32(b, 18 + 8 * n) == m.tailGeneration
            && De32(b, 22 + 8 * n) == Crc32(b[..22 + 8 * n]) && De32(b, 26 + 8 * n) == FOOTER_MAGIC
  {
    hide Le16, Le32, De16, De32, Crc32, RangeBytes;
    var b, n := Serialise(m), |m.ranges|;
    var body := ManifestBody(m);
    assert b[..22 + 8 * n] == body;
    assert b[0..4] == Le32(MANIFEST_MAGIC);
    assert b[4..6] == Le16(MANIFEST_VERSION);
    assert b[6..8] == Le16(ManifestSize(n));
    assert b[8..12] == Le32(m.epoch);
    assert b[12..16] == Le32(m.nextGeneration);
    assert b[16..18] == Le16(n);
    assert b[18 + 8 * n..22 + 8 * n] == Le32(m.tailGeneration);
    assert b[22 + 8 * n..26 + 8 * n] == Le32(Crc32(body));
    assert b[26 + 8 * n..30 + 8 * n] == Le32(FOOTER_MAGIC);
    Field32(b, 0, MANIFEST_MAGIC);
    Field16(b, 4, MANIFEST_VERSION);
    Field16(b, 6, ManifestSize(n));
    Field32(b, 8, m.epoch);
    Field32(b, 12, m.nextGeneration);
    Field16(b, 16, n);
    Field32(b, 18 + 8 * n, m.tailGeneration);
    Field32(b, 22 + 8 * n, Crc32(body));
    Field32(b, 26 + 8 * n, FOOTER_MAGIC);
  }

  lemma SerialisedRanges(m: Manifest, i: nat)
    requires |m.ranges| <= MANIFEST_MAX_RANGES && i < |m.ranges|
    ensures RangeAt(Serialise(m), i) == m.ranges[i]
  {
    hide Le16, Le32, De32, Crc32, RangeBytes;
    var b, r := Serialise(m), RangeBytes(m.ranges);
    RangeBytesAt(m.ranges, i);
    assert b[18..18 + |r|] == r;
    assert b[18 + 8 * i..22 + 8 * i] == r[8 * i..8 * i + 4];
    assert b[22 + 8 * i..26 + 8 * i] == r[8 * i + 4..8 * i + 8];
    Field32(b, 18 + 8 * i, m.ranges[i].startGen);
    Field32(b, 22 + 8 * i, m.ranges[i].endGen);
  }

  lemma SerialiseThenParse(m: Manifest)
    requires Formed(m)
    ensures Parse(Serialise(m)) == Some(m)
  {
    hide RangeAt, De16, De32, Crc32, Serialise;
    SerialisedFields(m);
    var b := Serialise(m);
    forall i | 0 <= i < |m.ranges| ensures RangeAt(b, i) == m.ranges[i] {
      SerialisedRanges(m, i);
    }
    assert RangesAt(b, |m.ranges|) == m.ranges;
  }

  lemma CutFixed(b: seq<byte>)
    requires 18 <= |b|
    ensures b[0..4] + b[4..6] + b[6..8] + b[8..12] + b[12..16] + b[16..18] == b[..18]
  {
  }

  lemma CutThree(b: seq<byte>, i: nat, j: nat, k: nat)
    requires i <= j <= k <= |b|
    ensures b[..i] + b[i..j] + b[j..k] == b[..k]
  {
  }


  lemma ParseThenSerialise(b: seq<byte>)
    requires Parse(b).Some?
    ensures Formed(Parse(b).value) && Serialise(Parse(b).value) == b
  {
    hide De16, De32, Le16, Le32, Crc32, RangeBytes, RangeAt;
    var n := De16(b, 16);
    var m := Fields(b);
    Field32(b, 0, De32(b, 0));
    Field16(b, 4, De16(b, 4));
    Field16(b, 6, De16(b, 6));
    Field32(b, 8, De32(b, 8));
    Field32(b, 12, De32(b, 12));
    Field16(b, 16, De16(b, 16));
    Field32(b, 18 + 8 * n, De32(b, 18 + 8 * n));
    Field32(b, 22 + 8 * n, De32(b, 22 + 8 * n));
    Field32(b, 26 + 8 * n, De32(b, 26 + 8 * n));
    RangeBytesFrom(b, n);
    CutFixed(b);
    CutThree(b, 18, 18 + 8 * n, 22 + 8 * n);
    CutThree(b, 22 + 8 * n, 26 + 8 * n, 30 + 8 * n);
    assert FixedPart(m) == b[..18];
    assert ManifestBody(m) == b[..22 + 8 * n];
  }

  /** A file holds a manifest exactly when it is the serialised form of well-formed data. */
  lemma ParseExact(b: seq<byte>, m: Manifest)
    ensures Parse(b) == Some(m) <==> Formed(m) && b == Serialise(m)
  {
    if Parse(b) == Some(m) {
      ParseThenSerialise(b);
    }
    if Formed(m) && b == Serialise(m) {
      SerialiseThenParse(m);
    }
  }

  /** A manifest cut short anywhere is rejected, by its length alone: the stored length does not match, or too little
      is left to hold it. Nothing is said about the checksum. */
  lemma TornManifestRejected(m: Manifest, k: nat)
    requires |m.ranges| <= MANIFEST_MAX_RANGES && k < |Serialise(m)|
    ensures Parse(Serialise(m)[..k]) == None
    ensures k < MANIFEST_FIXED_BYTES || De16(Serialise(m)[..k], 6) != k
  {
    hide De32, Crc32, RangeAt;
    SerialisedFields(m);
    if k >= MANIFEST_FIXED_BYTES {
      var b := Serialise(m);
      assert De16(b[..k], 6) == De16(b, 6);
    }
  }
}
