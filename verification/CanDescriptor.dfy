/**
 * The UAVCAN boot descriptor writer (Tools/make_can_boot_descriptor.py): it stores the size
 * and the CRC-64 of a firmware image inside the image that they cover.
 */
module CanDescriptor {
  import opened Bytes
  import Crc64

  type Image = seq<bv8>

  // Little-endian fields.

  const LIMIT32 := 0x1_0000_0000

  function U32(v: bv32): (s: Image)
    ensures |s| == 4
  {
    [(v & 0xff) as bv8, ((v >> 8) & 0xff) as bv8, ((v >> 16) & 0xff) as bv8, ((v >> 24) & 0xff) as bv8]
  }

  function Join4(a: bv8, b: bv8, c: bv8, d: bv8): bv32 {
    (a as bv32) | ((b as bv32) << 8) | ((c as bv32) << 16) | ((d as bv32) << 24)
  }

  function FromU32(s: Image): bv32
    requires |s| == 4
  {
    Join4(s[0], s[1], s[2], s[3])
  }

  function U64(v: bv64): (s: Image)
    ensures |s| == 8
  {
    [(v & 0xff) as bv8, ((v >> 8) & 0xff) as bv8, ((v >> 16) & 0xff) as bv8, ((v >> 24) & 0xff) as bv8,
     ((v >> 32) & 0xff) as bv8, ((v >> 40) & 0xff) as bv8, ((v >> 48) & 0xff) as bv8, ((v >> 56) & 0xff) as bv8]
  }

  function Join8(a: bv8, b: bv8, c: bv8, d: bv8, e: bv8, f: bv8, g: bv8, h: bv8): bv64 {
    (a as bv64) | ((b as bv64) << 8) | ((c as bv64) << 16) | ((d as bv64) << 24)
    | ((e as bv64) << 32) | ((f as bv64) << 40) | ((g as bv64) << 48) | ((h as bv64) << 56)
  }

  function FromU64(s: Image): bv64
    requires |s| == 8
  {
    Join8(s[0], s[1], s[2], s[3], s[4], s[5], s[6], s[7])
  }

  /** Little-endian: byte `k` has the weight 256^k. */
  lemma U32Digits(v: bv32)
    ensures U32(v)[0] as bv32 == v % 0x100 && U32(v)[1] as bv32 == (v / 0x100) % 0x100
    ensures U32(v)[2] as bv32 == (v / 0x1_0000) % 0x100 && U32(v)[3] as bv32 == v / 0x100_0000
  {
  }

  lemma U64Digits(v: bv64)
    ensures U64(v)[0] as bv64 == v % 0x100 && U64(v)[1] as bv64 == (v / 0x100) % 0x100
    ensures U64(v)[2] as bv64 == (v / 0x1_0000) % 0x100 && U64(v)[3] as bv64 == (v / 0x100_0000) % 0x100
    ensures U64(v)[4] as bv64 == (v / 0x1_0000_0000) % 0x100 && U64(v)[5] as bv64 == (v / 0x100_0000_0000) % 0x100
    ensures U64(v)[6] as bv64 == (v / 0x1_0000_0000_0000) % 0x100 && U64(v)[7] as bv64 == v / 0x100_0000_0000_0000
  {
  }

  lemma U32RoundTrip(v: bv32)
    ensures FromU32(U32(v)) == v
  {
  }

  lemma U64RoundTrip(v: bv64)
    ensures FromU64(U64(v)) == v
  {
  }

  lemma SplitJoin4(a: bv8, b: bv8, c: bv8, d: bv8)
    ensures U32(Join4(a, b, c, d)) == [a, b, c, d]
  {
  }

  lemma SplitJoin8(a: bv8, b: bv8, c: bv8, d: bv8, e: bv8, f: bv8, g: bv8, h: bv8)
    ensures U64(Join8(a, b, c, d, e, f, g, h)) == [a, b, c, d, e, f, g, h]
  {
  }

  lemma FromU32RoundTrip(s: Image)
    requires |s| == 4
    ensures U32(FromU32(s)) == s
  {
    SplitJoin4(s[0], s[1], s[2], s[3]);
  }

  lemma FromU64RoundTrip(s: Image)
    requires |s| == 8
    ensures U64(FromU64(s)) == s
  {
    SplitJoin8(s[0], s[1], s[2], s[3], s[4], s[5], s[6], s[7]);
  }

  lemma ZeroBytes()
    ensures U64(0) == [0, 0, 0, 0, 0, 0, 0, 0]
  {
  }

  // The descriptor.

  const LENGTH := 32

  /** 'APDesc00' */
  const SIGNATURE: Image := [0x41, 0x50, 0x44, 0x65, 0x73, 0x63, 0x30, 0x30]
  const RESERVED: Image := [0xff, 0xff, 0xff, 0xff, 0xff, 0xff]

  datatype Descriptor = Descriptor(signature: Image, imageCrc: bv64, imageSize: bv32, vcsCommit: bv32,
                                   versionMajor: bv8, versionMinor: bv8, reserved: Image) {
    predicate Shaped() {
      |signature| == 8 && |reserved| == 6
    }

    predicate Empty() {
      signature == SIGNATURE && imageCrc == 0 && imageSize == 0 && reserved == RESERVED
    }

    predicate Filled() {
      signature == SIGNATURE && imageCrc != 0 && imageSize > 0 && reserved == RESERVED
    }
  }

  function Pack(d: Descriptor): (s: Image)
    requires d.Shaped()
    ensures |s| == LENGTH
  {
    d.signature + U64(d.imageCrc) + U32(d.imageSize) + U32(d.vcsCommit) + [d.versionMajor, d.versionMinor] + d.reserved
  }

  function Unpack(s: Image): (d: Descriptor)
    requires |s| == LENGTH
    ensures d.Shaped()
  {
    Descriptor(s[..8], FromU64(s[8..16]), FromU32(s[16..20]), FromU32(s[20..24]), s[24], s[25], s[26..])
  }

  lemma PackSlices(d: Descriptor)
    requires d.Shaped()
    ensures var s := Pack(d);
            && s[..8] == d.signature && s[8..16] == U64(d.imageCrc) && s[16..20] == U32(d.imageSize)
            && s[20..24] == U32(d.vcsCommit) && s[24] == d.versionMajor && s[25] == d.versionMinor
            && s[26..] == d.reserved
  {
    var version := [d.versionMajor, d.versionMinor];
    FirstParts(d.signature, U64(d.imageCrc), U32(d.imageSize), U32(d.vcsCommit), version, d.reserved);
    LastParts(d.signature, U64(d.imageCrc), U32(d.imageSize), U32(d.vcsCommit), version, d.reserved);
  }

  lemma FirstParts(a: Image, b: Image, c: Image, d: Image, e: Image, f: Image)
    requires |a| == 8 && |b| == 8 && |c| == 4
    ensures var s := a + b + c + d + e + f;
            s[..8] == a && s[8..16] == b && s[16..20] == c
  {
    InTheMiddle(a, b, c + d + e + f);
    assert a + b + (c + d + e + f) == a + b + c + d + e + f;
    InTheMiddle(a + b, c, d + e + f);
    assert a + b + c + (d + e + f) == a + b + c + d + e + f;
  }

  lemma LastParts(a: Image, b: Image, c: Image, d: Image, e: Image, f: Image)
    requires |a| == 8 && |b| == 8 && |c| == 4 && |d| == 4 && |e| == 2
    ensures var s := a + b + c + d + e + f;
            |s| >= 26 && s[20..24] == d && s[24] == e[0] && s[25] == e[1] && s[26..] == f
  {
    InTheMiddle(a + b + c, d, e + f);
    assert a + b + c + d + (e + f) == a + b + c + d + e + f;
    InTheMiddle(a + b + c + d, e, f);
    var s := a + b + c + d + e + f;
    assert s[24] == s[24..26][0] && s[25] == s[24..26][1];
  }

  lemma InTheMiddle(a: Image, b: Image, c: Image)
    ensures (a + b + c)[..|a|] == a && (a + b + c)[|a|..|a| + |b|] == b && (a + b + c)[|a| + |b|..] == c
  {
  }

  lemma UnpackPack(d: Descriptor)
    requires d.Shaped()
    ensures Unpack(Pack(d)) == d
  {
    PackSlices(d);
    U64RoundTrip(d.imageCrc);
    U32RoundTrip(d.imageSize);
    U32RoundTrip(d.vcsCommit);
  }

  lemma PackUnpack(s: Image)
    requires |s| == LENGTH
    ensures Pack(Unpack(s)) == s
  {
    FromU64RoundTrip(s[8..16]);
    FromU32RoundTrip(s[16..20]);
    FromU32RoundTrip(s[20..24]);
    assert s == s[..8] + s[8..16] + s[16..20] + s[20..24] + [s[24], s[25]] + s[26..];
  }

  /** A descriptor can be read at `offset`: complete, signed, and either empty or filled. */
  predicate DescriptorAt(contents: Image, offset: nat) {
    && offset + LENGTH <= |contents|
    && var d := Unpack(contents[offset..offset + LENGTH]);
       d.Empty() || d.Filled()
  }

  /**
   * The same, byte by byte: 'APDesc00', six bytes of 0xff at the end, and CRC and size either
   * both zero or both not.
   */
  predicate ReadableAt(contents: Image, o: nat) {
    && o + 32 <= |contents|
    && contents[o..o + 8] == [0x41, 0x50, 0x44, 0x65, 0x73, 0x63, 0x30, 0x30]
    && contents[o + 26..o + 32] == [0xff, 0xff, 0xff, 0xff, 0xff, 0xff]
    && (contents[o + 8..o + 16] == [0, 0, 0, 0, 0, 0, 0, 0] <==> contents[o + 16..o + 20] == [0, 0, 0, 0])
  }

  lemma DescriptorByBytes(contents: Image, o: nat)
    ensures DescriptorAt(contents, o) <==> ReadableAt(contents, o)
  {
    if o + 32 <= |contents| {
      var s := contents[o..o + 32];
      WithinSlice(contents, o);
      ZeroIff64(s[8..16]);
      ZeroIff32(s[16..20]);
    }
  }

  lemma WithinSlice(contents: Image, o: nat)
    requires o + 32 <= |contents|
    ensures var s := contents[o..o + 32];
            && s[..8] == contents[o..o + 8] && s[8..16] == contents[o + 8..o + 16]
            && s[16..20] == contents[o + 16..o + 20] && s[26..] == contents[o + 26..o + 32]
  {
    SliceOfSlice(contents, o, 0, 8);
    SliceOfSlice(contents, o, 8, 16);
    SliceOfSlice(contents, o, 16, 20);
    SliceOfSlice(contents, o, 26, 32);
    var s := contents[o..o + 32];
    assert s[..8] == s[0..8] && s[26..] == s[26..32];
  }

  lemma SliceOfSlice(contents: Image, o: nat, a: nat, b: nat)
    requires o + 32 <= |contents| && a <= b <= 32
    ensures contents[o..o + 32][a..b] == contents[o + a..o + b]
  {
    var s := contents[o..o + 32];
    assert forall i :: a <= i < b ==> s[i] == contents[o + i];
  }

  lemma ZeroIff64(s: Image)
    requires |s| == 8
    ensures FromU64(s) == 0 <==> s == [0, 0, 0, 0, 0, 0, 0, 0]
  {
    FromU64RoundTrip(s);
    ZeroBytes();
    U64RoundTrip(0);
  }

  lemma ZeroIff32(s: Image)
    requires |s| == 4
    ensures FromU32(s) == 0 <==> s == [0, 0, 0, 0]
  {
    FromU32RoundTrip(s);
    U32RoundTrip(0);
    assert U32(0) == [0, 0, 0, 0];
  }

  // The image that is written.

  /** The padding as it is computed: the length modulo the alignment, not its complement. */
  function FillFor(length: nat, padding: nat): nat {
    if padding == 0 then 0 else length % padding
  }

  /** As computed, the padding aligns an image to four bytes exactly when its length is even. */
  lemma AlignedIff(length: nat)
    ensures (length + FillFor(length, 4)) % 4 == 0 <==> length % 2 == 0
  {
    EvenOrNot(length, length / 4, length % 4);
  }

  lemma EvenOrNot(length: nat, q: nat, fill: nat)
    requires length == 4 * q + fill && fill < 4
    ensures (length + fill) % 4 == 0 <==> length % 2 == 0
  {
    if fill == 0 {
      Modulo4(length + fill, q, 0);
      Modulo2(length, 2 * q, 0);
    } else if fill == 1 {
      Modulo4(length + fill, q, 2);
      Modulo2(length, 2 * q, 1);
    } else if fill == 2 {
      Modulo4(length + fill, q + 1, 0);
      Modulo2(length, 2 * q + 1, 0);
    } else {
      Modulo4(length + fill, q + 1, 2);
      Modulo2(length, 2 * q + 1, 1);
    }
  }

  lemma Modulo4(n: nat, q: nat, r: nat)
    requires n == 4 * q + r && r < 4
    ensures n % 4 == r
  {
  }

  lemma Modulo2(n: nat, q: nat, r: nat)
    requires n == 2 * q + r && r < 2
    ensures n % 2 == r
  {
  }

  /** What is written to the file. */
  function Output(contents: Image, fill: nat): Image {
    contents + Fill(fill)
  }

  /** The contents with a descriptor put at `offset`. */
  function Stamp(contents: Image, offset: nat, d: Descriptor): (r: Image)
    requires offset + LENGTH <= |contents| && d.Shaped()
    ensures |r| == |contents|
  {
    contents[..offset] + Pack(d) + contents[offset + LENGTH..]
  }

  /** The contents with the CRC field of the descriptor zeroed. */
  function ZeroCrc(contents: Image, offset: nat): (r: Image)
    requires offset + LENGTH <= |contents|
    ensures |r| == |contents|
  {
    contents[..offset + 8] + [0, 0, 0, 0, 0, 0, 0, 0] + contents[offset + 16..]
  }

  /** The CRC of what is written, taken with its own field zeroed. */
  function ImageCrc(contents: Image, offset: nat, fill: nat): bv64
    requires offset + LENGTH <= |contents|
  {
    Crc64.Crc(Output(ZeroCrc(contents, offset), fill))
  }

  /** The descriptor for an image of `total` bytes, with its CRC still zero. */
  function Sized(d: Descriptor, total: nat): Descriptor
    requires total < LIMIT32
  {
    d.(imageSize := total as bv32, imageCrc := 0)
  }

  /** The descriptor with its size, and the CRC of the image stamped with that size. */
  function Finished(contents: Image, offset: nat, d: Descriptor, fill: nat): Descriptor
    requires offset + LENGTH <= |contents| && d.Shaped() && |contents| + fill < LIMIT32
  {
    var d1 := Sized(d, |contents| + fill);
    d1.(imageCrc := ImageCrc(Stamp(contents, offset, d1), offset, fill))
  }

  /** What `write_descriptor` makes of the contents: stamped with the size, then with the CRC. */
  function Described(contents: Image, offset: nat, d: Descriptor, fill: nat): (r: Image)
    requires offset + LENGTH <= |contents| && d.Shaped() && |contents| + fill < LIMIT32
    ensures |r| == |contents|
  {
    Stamp(Stamp(contents, offset, Sized(d, |contents| + fill)), offset, Finished(contents, offset, d, fill))
  }

  lemma StampedSlice(contents: Image, offset: nat, d: Descriptor)
    requires offset + LENGTH <= |contents| && d.Shaped()
    ensures Stamp(contents, offset, d)[offset..offset + LENGTH] == Pack(d)
    ensures Stamp(contents, offset, d)[..offset] == contents[..offset]
    ensures Stamp(contents, offset, d)[offset + LENGTH..] == contents[offset + LENGTH..]
  {
  }

  lemma StampTwice(contents: Image, offset: nat, d: Descriptor, e: Descriptor)
    requires offset + LENGTH <= |contents| && d.Shaped() && e.Shaped()
    ensures Stamp(Stamp(contents, offset, d), offset, e) == Stamp(contents, offset, e)
  {
    StampedSlice(contents, offset, d);
  }

  /** Zeroing the CRC field of a stamped image is stamping the descriptor with a zero CRC. */
  lemma ZeroCrcOfStamp(contents: Image, offset: nat, d: Descriptor)
    requires offset + LENGTH <= |contents| && d.Shaped()
    ensures ZeroCrc(Stamp(contents, offset, d), offset) == Stamp(contents, offset, d.(imageCrc := 0))
  {
    PackWithoutCrc(d);
    ZeroInside(contents[..offset], Pack(d), contents[offset + LENGTH..]);
  }

  lemma PackWithoutCrc(d: Descriptor)
    requires d.Shaped()
    ensures Pack(d.(imageCrc := 0)) == Pack(d)[..8] + [0, 0, 0, 0, 0, 0, 0, 0] + Pack(d)[16..]
  {
    ZeroBytes();
    var size, commit, version := U32(d.imageSize), U32(d.vcsCommit), [d.versionMajor, d.versionMinor];
    SecondPart(d.signature, U64(d.imageCrc), U64(0), size, commit, version, d.reserved);
  }

  /** Putting another second part in place. */
  lemma SecondPart(a: Image, b: Image, z: Image, c: Image, d: Image, e: Image, f: Image)
    requires |a| == 8 && |b| == 8
    ensures var s := a + b + c + d + e + f;
            |s| >= 16 && a + z + c + d + e + f == s[..8] + z + s[16..]
  {
    InTheMiddle(a, b, c + d + e + f);
    assert a + b + (c + d + e + f) == a + b + c + d + e + f;
    assert a + z + (c + d + e + f) == a + z + c + d + e + f;
  }

  lemma ZeroInside(a: Image, s: Image, b: Image)
    requires |s| == LENGTH
    ensures ZeroCrc(a + s + b, |a|) == a + (s[..8] + [0, 0, 0, 0, 0, 0, 0, 0] + s[16..]) + b
  {
    assert (a + s + b)[..|a| + 8] == a + s[..8];
    assert (a + s + b)[|a| + 16..] == s[16..] + b;
  }

  /** The described image is the original with the finished descriptor, which can be read back. */
  lemma DescribedIsStamped(contents: Image, offset: nat, d: Descriptor, fill: nat)
    requires offset + LENGTH <= |contents| && d.Shaped() && |contents| + fill < LIMIT32
    ensures var r := Described(contents, offset, d, fill);
            && r == Stamp(contents, offset, Finished(contents, offset, d, fill))
            && Unpack(r[offset..offset + LENGTH]) == Finished(contents, offset, d, fill)
  {
    var done := Finished(contents, offset, d, fill);
    StampTwice(contents, offset, Sized(d, |contents| + fill), done);
    StampedSlice(contents, offset, done);
    UnpackPack(done);
  }

  /**
   * Self-covering checksum: the stored size is the number of bytes written, the stored CRC
   * is that of exactly those bytes with the CRC field zeroed, and only the descriptor changed.
   */
  lemma SelfCovering(contents: Image, offset: nat, d: Descriptor, fill: nat)
    requires offset + LENGTH <= |contents| && d.Shaped() && |contents| + fill < LIMIT32
    ensures var r := Described(contents, offset, d, fill);
            var stored := Unpack(r[offset..offset + LENGTH]);
            && stored.imageSize == |Output(r, fill)| as bv32
            && stored.imageCrc == Crc64.Crc(Output(ZeroCrc(r, offset), fill))
            && stored == d.(imageSize := stored.imageSize, imageCrc := stored.imageCrc)
            && r[..offset] == contents[..offset] && r[offset + LENGTH..] == contents[offset + LENGTH..]
  {
    var d1 := Sized(d, |contents| + fill);
    var d2 := Finished(contents, offset, d, fill);
    DescribedIsStamped(contents, offset, d, fill);
    StampedSlice(contents, offset, d2);
    ZeroCrcOfStamp(contents, offset, d2);
    ZeroCrcOfStamp(contents, offset, d1);
    assert d2.(imageCrc := 0) == d1 == d1.(imageCrc := 0);
  }

  /** A second call, with the descriptor of the first, changes nothing. */
  lemma DescribeTwice(contents: Image, offset: nat, d: Descriptor, fill: nat)
    requires offset + LENGTH <= |contents| && d.Shaped() && |contents| + fill < LIMIT32
    ensures var r := Described(contents, offset, d, fill);
            && Described(r, offset, Finished(contents, offset, d, fill), fill) == r
            && Finished(r, offset, Finished(contents, offset, d, fill), fill) == Finished(contents, offset, d, fill)
  {
    var total := |contents| + fill;
    var d2 := Finished(contents, offset, d, fill);
    var r := Described(contents, offset, d, fill);
    DescribedIsStamped(contents, offset, d, fill);
    SizedAgain(contents, offset, d, fill);
    StampTwice(contents, offset, d2, Sized(d, total));
    FinishedOnly(r, contents, offset, d2, d, fill);
  }

  lemma SizedAgain(contents: Image, offset: nat, d: Descriptor, fill: nat)
    requires offset + LENGTH <= |contents| && d.Shaped() && |contents| + fill < LIMIT32
    ensures Sized(Finished(contents, offset, d, fill), |contents| + fill) == Sized(d, |contents| + fill)
  {
  }

  /** The finished image depends only on the contents stamped with the size. */
  lemma FinishedOnly(a: Image, b: Image, offset: nat, d: Descriptor, e: Descriptor, fill: nat)
    requires |a| == |b| && offset + LENGTH <= |b| && d.Shaped() && e.Shaped() && |b| + fill < LIMIT32
    requires Sized(d, |b| + fill) == Sized(e, |b| + fill)
    requires Stamp(a, offset, Sized(d, |b| + fill)) == Stamp(b, offset, Sized(e, |b| + fill))
    ensures Finished(a, offset, d, fill) == Finished(b, offset, e, fill)
    ensures Described(a, offset, d, fill) == Described(b, offset, e, fill)
  {
  }

  /** Describing an image with the descriptor it holds changes only the CRC and size fields. */
  lemma OnlyCrcAndSizeChange(contents: Image, offset: nat, fill: nat)
    requires offset + LENGTH <= |contents| && |contents| + fill < LIMIT32
    ensures var r := Described(contents, offset, Unpack(contents[offset..offset + LENGTH]), fill);
            r[..offset + 8] == contents[..offset + 8] && r[offset + 20..] == contents[offset + 20..]
  {
    var s := contents[offset..offset + LENGTH];
    var d := Unpack(s);
    var d2 := Finished(contents, offset, d, fill);
    DescribedIsStamped(contents, offset, d, fill);
    PackUnpack(s);
    PackParts(d);
    PackParts(d2);
    Around(contents, offset, Pack(d2));
  }

  lemma PackParts(d: Descriptor)
    requires d.Shaped()
    ensures Pack(d)[..8] == d.signature
    ensures Pack(d)[20..] == U32(d.vcsCommit) + [d.versionMajor, d.versionMinor] + d.reserved
  {
  }

  lemma Around(contents: Image, offset: nat, s: Image)
    requires offset + LENGTH <= |contents| && |s| == LENGTH
    requires s[..8] == contents[offset..offset + LENGTH][..8] && s[20..] == contents[offset..offset + LENGTH][20..]
    ensures var r := contents[..offset] + s + contents[offset + LENGTH..];
            r[..offset + 8] == contents[..offset + 8] && r[offset + 20..] == contents[offset + 20..]
  {
    var r := contents[..offset] + s + contents[offset + LENGTH..];
    assert r[..offset + 8] == contents[..offset] + s[..8];
    assert r[offset + 20..] == s[20..] + contents[offset + LENGTH..];
    assert contents[offset..offset + LENGTH][20..] + contents[offset + LENGTH..] == contents[offset + 20..];
  }

  /**
   * What the stored CRC detects: when the bytes that it covers are damaged within eight
   * consecutive bytes, their CRC is another one than that stored.
   */
  lemma StoredCrcDetectsBursts(contents: Image, offset: nat, d: Descriptor, fill: nat, at: nat, bad: Image)
    requires offset + LENGTH <= |contents| && d.Shaped() && |contents| + fill < LIMIT32
    requires |bad| <= 8 && at + |bad| <= |contents| + fill
    ensures var covered := Output(ZeroCrc(Described(contents, offset, d, fill), offset), fill);
            var damaged := covered[..at] + bad + covered[at + |bad|..];
            damaged != covered ==> Crc64.Crc(damaged) != Finished(contents, offset, d, fill).imageCrc
  {
    var covered := Output(ZeroCrc(Described(contents, offset, d, fill), offset), fill);
    DescribedIsStamped(contents, offset, d, fill);
    SelfCovering(contents, offset, d, fill);
    DamageChangesCrc(covered, at, bad);
  }

  lemma DamageChangesCrc(s: Image, at: nat, bad: Image)
    requires |bad| <= 8 && at + |bad| <= |s|
    ensures var damaged := s[..at] + bad + s[at + |bad|..];
            damaged != s ==> Crc64.Crc(damaged) != Crc64.Crc(s)
  {
    var good := s[at..at + |bad|];
    assert s == s[..at] + good + s[at + |bad|..];
    if good != bad {
      Crc64.BurstDetected(s[..at], good, bad, s[at + |bad|..]);
    }
  }

  // The search for the descriptor.

  /** The first offset below `limit` at which a descriptor can be read, or `limit`. */
  function FirstDescriptor(contents: Image, from: nat, limit: nat): (o: nat)
    requires from <= limit
    ensures from <= o <= limit && (o < limit ==> DescriptorAt(contents, o))
    ensures forall k :: from <= k < o ==> !DescriptorAt(contents, k)
    decreases limit - from
  {
    if from == limit || DescriptorAt(contents, from) then from else FirstDescriptor(contents, from + 1, limit)
  }

  /** Offsets that are looked at: up to 32 bytes before the end, padding included. */
  function SearchLimit(contents: Image, fill: nat): nat {
    if |contents| + fill < LENGTH then 0 else |contents| + fill - LENGTH
  }

  /** A descriptor is found when one is there, but one at offset 0 counts as not found. */
  function Located(contents: Image, fill: nat): (r: Option<nat>)
    ensures r.Some? ==> 0 < r.value && DescriptorAt(contents, r.value)
  {
    var limit := SearchLimit(contents, fill);
    var o := FirstDescriptor(contents, 0, limit);
    if 0 < o < limit then Some(o) else None
  }

  /**
   * Exactly when a descriptor is found, byte by byte: one ends before the last byte, padding
   * included, and there is none at offset 0; it is the first one.
   */
  lemma FoundIff(contents: Image, fill: nat)
    ensures Located(contents, fill).Some?
       <==> !ReadableAt(contents, 0) && exists o: nat :: o + 32 < |contents| + fill && ReadableAt(contents, o)
    ensures var r := Located(contents, fill);
            r.Some? ==>
              && 0 < r.value && r.value + 32 < |contents| + fill && ReadableAt(contents, r.value)
              && forall k: nat :: k < r.value ==> !ReadableAt(contents, k)
  {
    forall k: nat
      ensures DescriptorAt(contents, k) <==> ReadableAt(contents, k)
    {
      DescriptorByBytes(contents, k);
    }
  }

  class FirmwareImage {
    var contents: Image
    var padding: nat
    var length: Option<nat>
    var offset: Option<nat>
    var descriptor: Option<Descriptor>

    /** A length that was computed is that of the contents with their padding. */
    ghost predicate Valid()
      reads this
    {
      && (padding == 0 || padding == 4 || length.Some?)
      && (length.Some? && length.value > 0 ==> length.value == |contents| + padding)
      && (length.Some? && length.value == 0 ==> padding == 0 && contents == [])
      && (offset.Some? && offset.value > 0 ==> offset.value + LENGTH <= |contents|)
      && (descriptor.Some? ==> descriptor.value.Shaped() && offset.Some? && offset.value > 0)
    }

    /** Images read from a path are padded, those read from an open file are not. */
    constructor (contents: Image, isPath: bool)
      ensures Valid() && this.contents == contents && padding == (if isPath then 4 else 0)
      ensures length == None && offset == None && descriptor == None
    {
      this.contents := contents;
      padding := if isPath then 4 else 0;
      length, offset, descriptor := None, None, None;
    }

    /** The padding once the length is known. */
    ghost function FillOf(): nat
      reads this
    {
      if length.Some? then padding else FillFor(|contents|, padding)
    }

    /** Where the descriptor is, or will be found. */
    ghost function Place(): Option<nat>
      reads this
    {
      if offset.Some? && offset.value > 0 then offset else Located(contents, FillOf())
    }

    /** The descriptor in memory, or the one that will be read. */
    ghost function Current(): (d: Option<Descriptor>)
      requires Valid()
      reads this
      ensures d.Some? ==> d.value.Shaped() && Place().Some? && Place().value + LENGTH <= |contents|
    {
      if descriptor.Some? then descriptor
      else if Place().Some? then Some(Unpack(contents[Place().value..Place().value + LENGTH]))
      else None
    }

    method Length() returns (n: nat)
      requires Valid()
      modifies `length, `padding
      ensures Valid() && length == Some(n) && n == |contents| + padding && padding == old(FillOf())
    {
      if length == None || length.value == 0 {
        n := |contents|;
        if padding != 0 {
          var fill := n % padding;
          if fill != 0 {
            n := n + fill;
          }
          padding := fill;
        }
        length := Some(n);
      }
      n := length.value;
    }

    /** Finds the descriptor; `None` when the original raises an exception. */
    method DescriptorOffset() returns (r: Option<nat>)
      requires Valid()
      modifies `length, `padding, `offset
      ensures Valid() && FillOf() == old(FillOf())
      ensures r == old(Place()) && Place() == r
      ensures r.Some? ==> offset == r && 0 < r.value && r.value + LENGTH <= |contents|
      ensures old(descriptor.Some?) ==> offset == old(offset)
    {
      if offset == None || offset.value == 0 {
        Find();
        if offset == None || offset.value == 0 {
          return None;
        }
      }
      r := offset;
    }

    /** Looks for the descriptor; an offset of 0 stands for none. */
    method Find()
      requires Valid() && (offset == None || offset.value == 0) && descriptor == None
      modifies `length, `padding, `offset
      ensures Valid() && FillOf() == old(FillOf())
      ensures Located(contents, FillOf()) == if offset.Some? && offset.value > 0 then offset else None
    {
      var total := Length();
      var o := Search(contents, total);
      if o.Some? {
        offset := o;
      }
    }

    /** The parsed descriptor, read from the image the first time. */
    method AppDescriptor() returns (r: Option<Descriptor>)
      requires Valid()
      modifies `length, `padding, `offset, `descriptor
      ensures Valid() && FillOf() == old(FillOf())
      ensures r == old(Current()) && Current() == r && (r.Some? ==> descriptor == r)
      ensures Place() == old(Place())
    {
      if descriptor == None {
        var o := DescriptorOffset();
        if o == None {
          return None;
        }
        descriptor := Some(Unpack(contents[o.value..o.value + LENGTH]));
      }
      r := descriptor;
    }

    /** The CRC of what will be written, with the CRC field zeroed. */
    method Crc() returns (crc: bv64)
      requires Valid() && offset.Some? && offset.value > 0 && length.Some?
      ensures crc == ImageCrc(contents, offset.value, padding)
    {
      var o := offset.value + |SIGNATURE|;
      var content := contents[..o] + [0, 0, 0, 0, 0, 0, 0, 0] + contents[o + 8..];
      if padding != 0 {
        content := content + Fill(padding);
      }
      assert padding == 0 ==> content + Fill(padding) == content;
      crc := Crc64.Compute(content);
    }

    /** Overwrites the descriptor in the contents with the one held in memory. */
    method WriteRaw()
      requires Valid() && descriptor.Some?
      modifies `contents
      ensures Valid() && contents == Stamp(old(contents), offset.value, descriptor.value)
    {
      contents := contents[..offset.value] + Pack(descriptor.value) + contents[offset.value + LENGTH..];
    }

    /** The image holds its own size and CRC, in a descriptor that is also in memory. */
    ghost predicate Complete()
      requires Valid()
      reads this
    {
      && length.Some? && descriptor.Some? && |contents| + padding < LIMIT32
      && contents == Described(contents, offset.value, descriptor.value, padding)
      && descriptor.value == Finished(contents, offset.value, descriptor.value, padding)
    }

    /**
     * Stores the size and the CRC. It fails, leaving the contents alone, when no descriptor
     * is found or the size does not fit its field. A call on a complete image, such as a
     * second call, changes nothing.
     */
    method WriteDescriptor() returns (ok: bool)
      requires Valid()
      modifies this
      ensures Valid()
      ensures ok == old(Current().Some? && |contents| + FillOf() < 0x1_0000_0000)
      ensures !ok ==> contents == old(contents)
      ensures ok ==>
        && Complete() && padding == old(FillOf()) && offset == old(Place())
        && contents == Described(old(contents), offset.value, old(Current().value), padding)
      ensures old(Complete()) ==>
        && ok && contents == old(contents) && padding == old(padding)
        && offset == old(offset) && descriptor == old(descriptor)
    {
      ghost var d := Current();
      ghost var c := contents;
      ok := Store();
      if ok {
        DescribeTwice(c, offset.value, d.value, padding);
      }
    }

    method Store() returns (ok: bool)
      requires Valid()
      modifies this
      ensures Valid()
      ensures ok == old(Current().Some? && |contents| + FillOf() < LIMIT32)
      ensures !ok ==> contents == old(contents)
      ensures ok ==>
        && length.Some? && padding == old(FillOf()) && offset == old(Place())
        && contents == Described(old(contents), offset.value, old(Current().value), padding)
        && descriptor == Some(Finished(old(contents), offset.value, old(Current().value), padding))
    {
      var d := AppDescriptor();
      if d == None {
        return false;
      }
      var total := Length();
      if total >= LIMIT32 {
        return false;
      }
      Rewrite(total);
      ok := true;
    }

    /** The two passes: with the size and a zero CRC, then with the CRC of that. */
    method Rewrite(total: nat)
      requires Valid() && descriptor.Some? && length.Some? && total == |contents| + padding < LIMIT32
      modifies `contents, `descriptor
      ensures Valid() && contents == Described(old(contents), offset.value, old(descriptor.value), padding)
      ensures descriptor == Some(Finished(old(contents), offset.value, old(descriptor.value), padding))
    {
      WriteSize(total);
      WriteCrc();
    }

    /** First pass: the size, and a zero CRC. */
    method WriteSize(total: nat)
      requires Valid() && descriptor.Some? && total < LIMIT32
      modifies `contents, `descriptor
      ensures Valid() && descriptor == Some(Sized(old(descriptor.value), total))
      ensures contents == Stamp(old(contents), offset.value, descriptor.value)
    {
      descriptor := Some(Sized(descriptor.value, total));
      WriteRaw();
    }

    /** Second pass: the CRC of the image as the first pass left it. */
    method WriteCrc()
      requires Valid() && descriptor.Some? && length.Some?
      modifies `contents, `descriptor
      ensures Valid()
      ensures descriptor == Some(old(descriptor.value).(imageCrc := ImageCrc(old(contents), offset.value, padding)))
      ensures contents == Stamp(old(contents), offset.value, descriptor.value)
    {
      var crc := Crc();
      descriptor := Some(descriptor.value.(imageCrc := crc));
      WriteRaw();
    }

    /** What leaving the `with` block writes to the file. */
    method Exit() returns (file: Image)
      requires Valid()
      ensures file == Output(contents, padding)
      ensures |file| == |contents| + padding && contents <= file
      ensures forall i :: |contents| <= i < |file| ==> file[i] == 0xff
    {
      file := contents;
      if padding != 0 {
        file := file + Fill(padding);
      }
      assert padding == 0 ==> Output(contents, padding) == contents;
    }
  }

  /** Looks at every offset in turn. */
  method Search(contents: Image, total: nat) returns (r: Option<nat>)
    requires |contents| <= total
    ensures var limit := SearchLimit(contents, total - |contents|);
            var o := FirstDescriptor(contents, 0, limit);
            r == if o < limit then Some(o) else None
    ensures Located(contents, total - |contents|) == if r.Some? && r.value > 0 then r else None
  {
    var o := 0;
    ghost var limit := SearchLimit(contents, total - |contents|);
    while o < total - LENGTH
      invariant 0 <= o <= limit
      invariant FirstDescriptor(contents, 0, limit) == FirstDescriptor(contents, o, limit)
    {
      if DescriptorAt(contents, o) {
        return Some(o);
      }
      o := o + 1;
    }
    r := None;
  }
}
