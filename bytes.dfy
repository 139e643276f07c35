/**
 * Byte-level vocabulary: bytes and fixed-width unsigned integers as integer
 * subset types, the multi-byte field readers and writers of Node's Buffer
 * (readUInt16BE, writeUInt32LE, ...), the wire checksum, and the block view of
 * the 8192-byte codeplug image.
 */
module Bytes {

  type byte = x: int | 0 <= x < 0x100
  type u16 = x: int | 0 <= x < 0x1_0000
  type u32 = x: int | 0 <= x < 0x1_0000_0000

  const BLOCK_SIZE: nat := 32
  const BLOCK_COUNT: nat := 256
  const IMAGE_SIZE: nat := 8192

  // ---------------------------------------------------------------------------
  // Checksum: the reduce `(sum, byte) => sum + byte` from 0, masked with 0xFF.

  /** The unsigned sum of the bytes, accumulated left to right as the reduce does. */
  function Sum(s: seq<byte>): nat
  {
    if s == [] then 0 else Sum(s[..|s| - 1]) + s[|s| - 1]
  }

  /** calculateChecksum: the byte sum masked to its low 8 bits. */
  function Checksum(s: seq<byte>): (c: byte)
  {
    Sum(s) % 0x100
  }

  lemma {:induction false} SumConcat(a: seq<byte>, b: seq<byte>)
    ensures Sum(a + b) == Sum(a) + Sum(b)
    decreases |b|
  {
    if b == [] {
      assert a + b == a;
    } else {
      var b' := b[..|b| - 1];
      assert (a + b)[..|a + b| - 1] == a + b';
      SumConcat(a, b');
    }
  }

  lemma {:induction false} SumUpdate(s: seq<byte>, i: nat, v: byte)
    requires i < |s|
    ensures Sum(s[i := v]) == Sum(s) - s[i] + v
  {
    assert s == s[..i] + [s[i]] + s[i + 1..];
    assert s[i := v] == s[..i] + [v] + s[i + 1..];
    SumConcat(s[..i] + [s[i]], s[i + 1..]);
    SumConcat(s[..i], [s[i]]);
    SumConcat(s[..i] + [v], s[i + 1..]);
    SumConcat(s[..i], [v]);
    assert Sum([s[i]]) == s[i] by { assert [s[i]][..0] == []; }
    assert Sum([v]) == v by { assert [v][..0] == []; }
  }

  /** Changing any single byte of a payload changes its checksum. */
  lemma ChecksumDetectsOneByteChange(s: seq<byte>, i: nat, v: byte)
    requires i < |s| && v != s[i]
    ensures Checksum(s[i := v]) != Checksum(s)
  {
    SumUpdate(s, i, v);
  }

  // ---------------------------------------------------------------------------
  // Fixed-width fields.

  function Zeros(n: nat): (z: seq<byte>)
    ensures |z| == n && forall i :: 0 <= i < n ==> z[i] == 0
  {
    seq(n, _ => 0)
  }

  function Repeat(n: nat, v: byte): (z: seq<byte>)
    ensures |z| == n && forall i :: 0 <= i < n ==> z[i] == v
  {
    seq(n, _ => v)
  }

  function U16BE(s: seq<byte>, i: nat): u16
    requires i + 2 <= |s|
  {
    (s[i] as int) * 0x100 + s[i + 1]
  }

  function U16LE(s: seq<byte>, i: nat): u16
    requires i + 2 <= |s|
  {
    (s[i + 1] as int) * 0x100 + s[i]
  }

  function U32BE(s: seq<byte>, i: nat): u32
    requires i + 4 <= |s|
  {
    (s[i] as int) * 0x100_0000 + (s[i + 1] as int) * 0x1_0000 + (s[i + 2] as int) * 0x100 + s[i + 3]
  }

  function U32LE(s: seq<byte>, i: nat): u32
    requires i + 4 <= |s|
  {
    s[i + 3] * 0x100_0000 + s[i + 2] * 0x1_0000 + (s[i + 1] as int) * 0x100 + s[i]
  }

  /** readInt8: the two's-complement reading of one byte. */
  function I8(s: seq<byte>, i: nat): (v: int)
    requires i < |s|
    ensures -0x80 <= v < 0x80
    ensures v % 0x100 == s[i]
  {
    if s[i] < 0x80 then s[i] else s[i] as int - 0x100
  }

  function BE16(v: u16): (r: seq<byte>)
    ensures |r| == 2 && U16BE(r, 0) == v
  {
    [v / 0x100, v % 0x100]
  }

  function LE16(v: u16): (r: seq<byte>)
    ensures |r| == 2 && U16LE(r, 0) == v
  {
    [v % 0x100, v / 0x100]
  }

  function BE32(v: u32): (r: seq<byte>)
    ensures |r| == 4 && U32BE(r, 0) == v
  {
    BigEndianDigits(v);
    [v / 0x100_0000, (v / 0x1_0000) % 0x100, (v / 0x100) % 0x100, v % 0x100]
  }

  /** A 32-bit value is the sum of its four base-256 digits, most significant first. */
  lemma BigEndianDigits(v: u32)
    ensures v / 0x100_0000 < 0x100
    ensures v == (v / 0x100_0000) * 0x100_0000 + ((v / 0x1_0000) % 0x100) * 0x1_0000 + ((v / 0x100) % 0x100) * 0x100 + v % 0x100
  {
    var q1 := v / 0x100;
    var q2 := q1 / 0x100;
    var a, b, c, d := q2 / 0x100, q2 % 0x100, q1 % 0x100, v % 0x100;
    assert v == q2 * 0x1_0000 + (c * 0x100 + d);
    DivMod(q2, c * 0x100 + d, 0x1_0000);
    assert v == a * 0x100_0000 + (b * 0x1_0000 + c * 0x100 + d);
    DivMod(a, b * 0x1_0000 + c * 0x100 + d, 0x100_0000);
  }

  function LE32(v: u32): (r: seq<byte>)
    ensures |r| == 4 && U32LE(r, 0) == v
  {
    BigEndianDigits(v);
    [v % 0x100, (v / 0x100) % 0x100, (v / 0x1_0000) % 0x100, v / 0x100_0000]
  }

  /** Reading a 32-bit field back and writing it again gives the same bytes. */
  lemma Field32Determined(s: seq<byte>, i: nat)
    requires i + 4 <= |s|
    ensures BE32(U32BE(s, i)) == s[i..i + 4]
    ensures LE32(U32LE(s, i)) == s[i..i + 4]
  {
    var a, b, c, d := s[i] as int, s[i + 1] as int, s[i + 2] as int, s[i + 3] as int;
    Digits(a, b, c, d);
    Digits(d, c, b, a);
  }

  /** The base-256 digits of a four-digit number. */
  lemma Digits(a: byte, b: byte, c: byte, d: byte)
    ensures var v := (a as int) * 0x100_0000 + (b as int) * 0x1_0000 + (c as int) * 0x100 + d;
      v / 0x100_0000 == a && (v / 0x1_0000) % 0x100 == b && (v / 0x100) % 0x100 == c && v % 0x100 == d
  {
    var v := (a as int) * 0x100_0000 + (b as int) * 0x1_0000 + (c as int) * 0x100 + d;
    DivMod(a * 0x1_0000 + b * 0x100 + c, d, 0x100);
    DivMod(a * 0x100 + b, c, 0x100);
    DivMod(a, b, 0x100);
    DivMod(a * 0x100 + b, c * 0x100 + d, 0x1_0000);
    DivMod(a, b * 0x1_0000 + c * 0x100 + d, 0x100_0000);
  }

  lemma DivMod(q: int, r: int, m: int)
    requires m > 0 && 0 <= r < m
    ensures (q * m + r) / m == q && (q * m + r) % m == r
  {
    var k, s := (q * m + r) / m, (q * m + r) % m;
    assert k * m + s == q * m + r;
    if k > q {
      assert k * m >= (q + 1) * m by { MulMono(q + 1, k, m); }
      assert false;
    } else if k < q {
      assert (k + 1) * m <= q * m by { MulMono(k + 1, q, m); }
      assert false;
    }
  }

  /** A bit field read back: when v == lo + d * (x + w * hi) with lo < d and x < w, (v / d) % w == x. */
  lemma FieldOf(v: int, lo: int, d: int, x: int, w: int, hi: int)
    requires d > 0 && w > 0 && 0 <= lo < d && 0 <= x < w
    requires v == lo + d * (x + w * hi)
    ensures (v / d) % w == x
  {
    assert v == (x + w * hi) * d + lo;
    DivMod(x + w * hi, lo, d);
    assert x + w * hi == hi * w + x;
    DivMod(hi, x, w);
  }

  /** Two right shifts are one: (x >> a) >> b == x >> (a + b), with a and b as powers of two. */
  lemma DivDiv(x: nat, a: nat, b: nat)
    requires a > 0 && b > 0
    ensures x / a / b == x / (a * b)
  {
    var q, r := x / (a * b), x % (a * b);
    var r1, r0 := r / a, r % a;
    assert r == r1 * a + r0;
    assert r1 < b by {
      if r1 >= b {
        MulMono(b, r1, a);
        assert false;
      }
    }
    assert x == (q * b + r1) * a + r0;
    DivMod(q * b + r1, r0, a);
    DivMod(q, r1, b);
  }

  lemma MulMono(x: int, y: int, m: int)
    requires x <= y && m > 0
    ensures x * m <= y * m
  {
  }

  /** Reading a 16-bit field back and writing it again gives the same bytes. */
  lemma Field16Determined(s: seq<byte>, i: nat)
    requires i + 2 <= |s|
    ensures BE16(U16BE(s, i)) == s[i..i + 2]
    ensures LE16(U16LE(s, i)) == s[i..i + 2]
  {
  }

  // ---------------------------------------------------------------------------
  // Sequences of blocks and the block view of an image.

  function Concat<T>(ss: seq<seq<T>>): seq<T>
  {
    if ss == [] then [] else Concat(ss[..|ss| - 1]) + ss[|ss| - 1]
  }

  lemma ConcatSnoc<T>(ss: seq<seq<T>>, t: seq<T>)
    ensures Concat(ss + [t]) == Concat(ss) + t
  {
    assert (ss + [t])[..|ss|] == ss;
  }

  /** Blocks lo, lo+1, ... of an image, concatenated as Buffer.concat does, are the image's bytes
      from block lo on. */
  lemma {:induction false} ConcatBlocks(image: seq<byte>, bs: seq<seq<byte>>, lo: nat)
    requires IsImage(image) && lo + |bs| <= BLOCK_COUNT
    requires forall k :: 0 <= k < |bs| ==> bs[k] == Block(image, lo + k)
    ensures Concat(bs) == image[32 * lo..32 * (lo + |bs|)]
    decreases |bs|
  {
    if bs != [] {
      var n := |bs| - 1;
      var a, b := 32 * lo, 32 * (lo + n);
      assert 32 * (lo + |bs|) == b + 32;
      ConcatBlocks(image, bs[..n], lo);
      assert bs[..n] + [bs[n]] == bs;
      ConcatSnoc(bs[..n], bs[n]);
      assert bs[n] == image[b..b + 32];
      assert image[a..b + 32] == image[a..b] + image[b..b + 32];
    }
  }

  predicate IsImage(image: seq<byte>)
  {
    |image| == IMAGE_SIZE
  }

  /** Block n of an image: bytes [32n, 32n + 32). */
  function Block(image: seq<byte>, n: nat): (b: seq<byte>)
    requires IsImage(image) && n < BLOCK_COUNT
    ensures |b| == BLOCK_SIZE
  {
    image[32 * n..32 * n + BLOCK_SIZE]
  }

  lemma PrefixSnoc<T>(s: seq<T>, i: nat)
    requires i < |s|
    ensures s[..i + 1] == s[..i] + [s[i]]
  {
  }

  /** The image with block n replaced by data; every other byte is kept. */
  function SetBlock(image: seq<byte>, n: nat, data: seq<byte>): (r: seq<byte>)
    requires IsImage(image) && n < BLOCK_COUNT && |data| == BLOCK_SIZE
    ensures IsImage(r)
    ensures Block(r, n) == data
  {
    SpliceSlice(image, 32 * n, data);
    Splice(image, 32 * n, data)
  }

  /** Two images with the same 256 blocks are the same image. */
  lemma SameBlocks(a: seq<byte>, b: seq<byte>)
    requires IsImage(a) && IsImage(b)
    requires forall n :: 0 <= n < BLOCK_COUNT ==> Block(a, n) == Block(b, n)
    ensures a == b
  {
    forall i | 0 <= i < IMAGE_SIZE
      ensures a[i] == b[i]
    {
      var n := i / 32;
      assert Block(a, n)[i - 32 * n] == a[i];
      assert Block(b, n)[i - 32 * n] == b[i];
    }
  }

  /** Replacing block n leaves every other block as it was. */
  lemma SetBlockOther(image: seq<byte>, n: nat, data: seq<byte>, m: nat)
    requires IsImage(image) && n < BLOCK_COUNT && m < BLOCK_COUNT && |data| == BLOCK_SIZE && m != n
    ensures Block(SetBlock(image, n, data), m) == Block(image, m)
  {
    assert 32 * m + BLOCK_SIZE <= 32 * n || 32 * n + BLOCK_SIZE <= 32 * m;
    SpliceOutside(image, 32 * n, data, 32 * m, 32 * m + BLOCK_SIZE);
  }

  /** Bytes [lo, lo + |src|) of dst replaced by src: Buffer.copy(dst, lo). */
  function Splice(dst: seq<byte>, lo: nat, src: seq<byte>): (r: seq<byte>)
    requires lo + |src| <= |dst|
    ensures |r| == |dst|
  {
    seq(|dst|, k requires 0 <= k < |dst| => if lo <= k < lo + |src| then src[k - lo] else dst[k])
  }

  /** The spliced range holds src. */
  lemma SpliceSlice(dst: seq<byte>, lo: nat, src: seq<byte>)
    requires lo + |src| <= |dst|
    ensures Splice(dst, lo, src)[lo..lo + |src|] == src
  {
  }

  /** A splice leaves alone every slice it does not overlap. */
  lemma SpliceOutside(dst: seq<byte>, lo: nat, src: seq<byte>, a: nat, b: nat)
    requires lo + |src| <= |dst| && a <= b <= |dst| && (b <= lo || lo + |src| <= a)
    ensures Splice(dst, lo, src)[a..b] == dst[a..b]
  {
  }

  lemma SplicePrefix(dst: seq<byte>, lo: nat, src: seq<byte>, m: nat)
    requires lo + |src| <= |dst| && m <= |src|
    ensures Splice(dst, lo, src)[lo..lo + m] == src[..m]
  {
  }

  /** A buffer from Buffer.alloc(n) written from the front: the bytes written so far, then zeros. */
  function Laid(p: seq<byte>, n: nat): (r: seq<byte>)
    requires |p| <= n
    ensures |r| == n && r[..|p|] == p
  {
    p + Zeros(n - |p|)
  }

  /** Writing the next field right after the written prefix extends the prefix. */
  lemma SpliceLaid(p: seq<byte>, src: seq<byte>, n: nat)
    requires |p| + |src| <= n
    ensures Splice(Laid(p, n), |p|, src) == Laid(p + src, n)
  {
  }

  /** Laying out a tail after a fixed head is laying out the tail in what the head leaves. */
  lemma LaidAppend(p: seq<byte>, q: seq<byte>, n: nat)
    requires |p| + |q| <= n
    ensures Laid(p + q, n) == p + Laid(q, n - |p|)
  {
    assert p + q + Zeros(n - |p| - |q|) == p + (q + Zeros(n - |p| - |q|));
  }

  lemma LaidZeros(p: seq<byte>, gap: nat, n: nat)
    requires |p| + gap <= n
    ensures Laid(p, n) == Laid(p + Zeros(gap), n)
  {
  }
}
