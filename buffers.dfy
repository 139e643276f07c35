/**
 * Node Buffer operations that change a buffer in place: copy, fill, and the
 * range-checked integer writes writeUInt8/16/32, which throw a RangeError and
 * write nothing when the value does not fit.
 */
module Buffers {
  import opened Wrappers
  import opened Bytes

  /** src.copy(dst, at): bytes [at, at + |src|) of dst become src. */
  method Copy(src: seq<byte>, dst: array<byte>, at: nat)
    requires at + |src| <= dst.Length
    modifies dst
    ensures dst[..] == Splice(old(dst[..]), at, src)
  {
    var j := 0;
    while j < |src|
      invariant 0 <= j <= |src|
      invariant dst[..] == Splice(old(dst[..]), at, src[..j])
    {
      dst[at + j] := src[j];
      j := j + 1;
    }
    assert src[..j] == src;
  }

  /** dst.fill(v, lo, hi). */
  method Fill(dst: array<byte>, lo: nat, hi: nat, v: byte)
    requires lo <= hi <= dst.Length
    modifies dst
    ensures dst[..] == Splice(old(dst[..]), lo, Repeat(hi - lo, v))
  {
    Copy(Repeat(hi - lo, v), dst, lo);
  }

  /** writeUInt8(v, at). */
  method WriteUInt8(dst: array<byte>, v: int, at: nat) returns (o: Outcome)
    requires at < dst.Length
    modifies dst
    ensures 0 <= v < 0x100 ==> o == Pass && dst[..] == Splice(old(dst[..]), at, [v])
    ensures !(0 <= v < 0x100) ==> o == Fail(OutOfRange) && dst[..] == old(dst[..])
  {
    if !(0 <= v < 0x100) {
      return Fail(OutOfRange);
    }
    Copy([v], dst, at);
    o := Pass;
  }

  /** writeUInt16BE(v, at). */
  method WriteUInt16BE(dst: array<byte>, v: int, at: nat) returns (o: Outcome)
    requires at + 2 <= dst.Length
    modifies dst
    ensures 0 <= v < 0x1_0000 ==> o == Pass && dst[..] == Splice(old(dst[..]), at, BE16(v))
    ensures !(0 <= v < 0x1_0000) ==> o == Fail(OutOfRange) && dst[..] == old(dst[..])
  {
    if !(0 <= v < 0x1_0000) {
      return Fail(OutOfRange);
    }
    Copy(BE16(v), dst, at);
    o := Pass;
  }

  /** writeUInt16LE(v, at). */
  method WriteUInt16LE(dst: array<byte>, v: int, at: nat) returns (o: Outcome)
    requires at + 2 <= dst.Length
    modifies dst
    ensures 0 <= v < 0x1_0000 ==> o == Pass && dst[..] == Splice(old(dst[..]), at, LE16(v))
    ensures !(0 <= v < 0x1_0000) ==> o == Fail(OutOfRange) && dst[..] == old(dst[..])
  {
    if !(0 <= v < 0x1_0000) {
      return Fail(OutOfRange);
    }
    Copy(LE16(v), dst, at);
    o := Pass;
  }

  /** writeUInt32BE(v, at). */
  method WriteUInt32BE(dst: array<byte>, v: int, at: nat) returns (o: Outcome)
    requires at + 4 <= dst.Length
    modifies dst
    ensures 0 <= v < 0x1_0000_0000 ==> o == Pass && dst[..] == Splice(old(dst[..]), at, BE32(v))
    ensures !(0 <= v < 0x1_0000_0000) ==> o == Fail(OutOfRange) && dst[..] == old(dst[..])
  {
    if !(0 <= v < 0x1_0000_0000) {
      return Fail(OutOfRange);
    }
    Copy(BE32(v), dst, at);
    o := Pass;
  }

  /** writeUInt32LE(v, at). */
  method WriteUInt32LE(dst: array<byte>, v: int, at: nat) returns (o: Outcome)
    requires at + 4 <= dst.Length
    modifies dst
    ensures 0 <= v < 0x1_0000_0000 ==> o == Pass && dst[..] == Splice(old(dst[..]), at, LE32(v))
    ensures !(0 <= v < 0x1_0000_0000) ==> o == Fail(OutOfRange) && dst[..] == old(dst[..])
  {
    if !(0 <= v < 0x1_0000_0000) {
      return Fail(OutOfRange);
    }
    Copy(LE32(v), dst, at);
    o := Pass;
  }
}
