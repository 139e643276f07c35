/**
 * The band plan of src/radio/band-plan.ts: blocks 0xD0..0xD6 concatenated,
 * the magic bytes 0xA4 0x6D, then 20 records of 10 bytes (start and end as
 * big-endian u32 in 10 Hz units, the power byte, the flags byte). Start and
 * end stay in their raw units; the limits 18 MHz and 1300 MHz become raw
 * comparisons.
 */
module BandPlan {
  import opened Wrappers
  import opened Bytes
  import opened Protocol
  import opened Radio

  const MAGIC: seq<byte> := [0xA4, 0x6D]
  const BAND_COUNT: nat := 20
  const BAND_SIZE: nat := 10
  /** 18 MHz and 1300 MHz in 10 Hz units. */
  const MIN_START: nat := 1_800_000
  const MAX_END: nat := 130_000_000
  /** The band plan blocks are 0xD0..0xD6. */
  const FIRST_BLOCK: byte := 0xD0
  const END_BLOCK: nat := 0xD7
  /** The power byte that stands for 'Auto'. */
  const AUTO_POWER: byte := 0xFF

  /** Where band r (1..20) starts in the concatenated blocks. */
  function BandAddress(r: int): int
  {
    2 + (r - 1) * BAND_SIZE
  }

  /** The smallest input the loop reads all 20 bands from: both u32 reads of band 20 fit. */
  const MIN_LENGTH: nat := 200

  /** buf[i], which is undefined past the end. */
  function ByteAt(full: seq<byte>, i: nat): (b: Option<byte>)
    ensures b.Some? <==> i < |full|
  {
    if i < |full| then Some(full[i]) else None
  }

  /** The four reads of one band. An undefined flags byte acts as 0 under & and >>. */
  datatype RawBand = RawBand(start: int, end: int, maxPower: Option<byte>, flags: byte)

  function RawBandAt(full: seq<byte>, r: int): RawBand
    requires 1 <= r && BandAddress(r) + 8 <= |full|
  {
    var addr := BandAddress(r);
    var flags := ByteAt(full, addr + 9);
    RawBand(U32BE(full, addr), U32BE(full, addr + 4), ByteAt(full, addr + 8), if flags.Some? then flags.value else 0)
  }

  predicate HasMagic(full: seq<byte>)
  {
    |full| >= 2 && full[0] == MAGIC[0] && full[1] == MAGIC[1]
  }

  // ---------------------------------------------------------------------------
  // The records of src/main/types/band.ts, with the enums kept as their numbers.

  datatype Power = Auto | Level(value: int) | Undefined

  datatype Band = Band(bandNumber: int, start: int, end: int, wrap: bool, modulation: int,
                       bandwidth: int, maxPower: Power, txAllowed: bool)

  /** The record pushed for band r: start kept from 18 MHz up and end up to 1300 MHz (each else
      0), flags bit 0 as txAllowed, bit 1 as wrap, bits 2..4 as modulation, bits 5..7 as
      bandwidth, and a 0xFF power byte as 'Auto'. */
  function BandOf(raw: RawBand, r: int): (b: Band)
    ensures b.bandNumber == r
    ensures b.start == 0 || b.start >= MIN_START
    ensures b.end <= MAX_END
    ensures 0 <= b.modulation < 8 && 0 <= b.bandwidth < 8
    ensures b.maxPower == Auto <==> raw.maxPower == Some(AUTO_POWER)
    ensures b.maxPower.Level? ==> raw.maxPower == Some(b.maxPower.value)
  {
    var flags := raw.flags;
    Band(r, if raw.start >= MIN_START then raw.start else 0, if raw.end <= MAX_END then raw.end else 0,
         (flags / 2) % 2 == 1, (flags / 4) % 8, flags / 32,
         if raw.maxPower == Some(AUTO_POWER) then Auto else if raw.maxPower.Some? then Level(raw.maxPower.value) else Undefined,
         flags % 2 == 1)
  }

  /** decodeBandPlan: a BadMagic error unless the data starts 0xA4 0x6D, a RangeError from
      readUInt32BE when band 20's fields do not fit, and otherwise bands 1..20 in order. */
  function DecodedBandPlan(full: seq<byte>): (r: Result<seq<Band>>)
    ensures r.Err? <==> !HasMagic(full) || |full| < MIN_LENGTH
    ensures !HasMagic(full) ==> r == Err(BadMagic)
    ensures HasMagic(full) && |full| < MIN_LENGTH ==> r == Err(OutOfRange)
    ensures r.Ok? ==> |r.value| == BAND_COUNT && forall i :: 0 <= i < BAND_COUNT ==> r.value[i].bandNumber == i + 1
  {
    if !HasMagic(full) then Err(BadMagic)
    else if |full| < MIN_LENGTH then Err(OutOfRange)
    else Ok(seq(BAND_COUNT, i requires 0 <= i < BAND_COUNT => BandOf(RawBandAt(full, i + 1), i + 1)))
  }

  /** The decoder's loop `for (r = 1; r <= 20; r++) bands.push(...)`. */
  method DecodeBandPlan(blocks: seq<seq<byte>>) returns (result: Result<seq<Band>>)
    ensures result == DecodedBandPlan(Concat(blocks))
  {
    var fullBlock := Concat(blocks);
    if |fullBlock| < 2 || fullBlock[0] != MAGIC[0] || fullBlock[1] != MAGIC[1] {
      return Err(BadMagic);
    }
    var bands: seq<Band> := [];
    var r := 1;
    while r <= BAND_COUNT
      invariant 1 <= r <= BAND_COUNT + 1 && |bands| == r - 1
      invariant r > 1 ==> BandAddress(r - 1) + 8 <= |fullBlock|
      invariant forall i :: 0 <= i < r - 1 ==> bands[i] == BandOf(RawBandAt(fullBlock, i + 1), i + 1)
    {
      var addr := 2 + (r - 1) * BAND_SIZE;
      assert addr == BandAddress(r);
      if addr + 8 > |fullBlock| {
        return Err(OutOfRange);
      }
      var raw := RawBandAt(fullBlock, r);
      ghost var before := bands;
      bands := bands + [BandOf(raw, r)];
      assert bands[r - 1] == BandOf(RawBandAt(fullBlock, r), r);
      assert forall i :: 0 <= i < r - 1 ==> bands[i] == before[i];
      r := r + 1;
    }
    assert BandAddress(BAND_COUNT) + 8 == MIN_LENGTH;
    assert bands == DecodedBandPlan(fullBlock).value;
    result := Ok(bands);
  }

  /** The bytes of the band plan blocks in an image. */
  function BandRegion(image: seq<byte>): (region: seq<byte>)
    requires IsImage(image)
    ensures |region| == (END_BLOCK - FIRST_BLOCK) * BLOCK_SIZE
  {
    image[32 * FIRST_BLOCK..32 * END_BLOCK]
  }

  /** The trace of a band plan read: 0x45, the read requests up to and including the first
      failing one, then 0x46. */
  function BandReadTrace(f: nat): (t: seq<Event>)
    requires FIRST_BLOCK <= f <= END_BLOCK
  {
    [Sent([ENTER])] + ReadTrace(FIRST_BLOCK, if f == END_BLOCK then f else f + 1) + [Sent([LEAVE])]
  }

  /** The try block of readBandPlan: 0x45, blocks 0xD0..0xD6, 0x46; a failed read still sends
      0x46 (the catch) and then ends with its error. */
  method ReadBandBlocks(radio: Radio) returns (r: Result<seq<seq<byte>>>)
    requires radio.Valid()
    modifies radio
    ensures radio.Valid() && radio.memory == old(radio.memory) && radio.armed == old(radio.armed)
    ensures radio.trace == old(radio.trace) + BandReadTrace(FirstIn(radio.unreadable, FIRST_BLOCK, END_BLOCK))
    ensures var f := FirstIn(radio.unreadable, FIRST_BLOCK, END_BLOCK);
      if f == END_BLOCK then r.Ok? && Concat(r.value) == BandRegion(radio.memory) else r == Err(ReadFailed(f))
  {
    ghost var f := FirstIn(radio.unreadable, FIRST_BLOCK, END_BLOCK);
    radio.Command(ENTER);
    ghost var t0 := radio.trace;
    var blocks := ReadBlocks(radio, FIRST_BLOCK, END_BLOCK);
    ghost var requests := radio.trace[|t0|..];
    assert requests == ReadTrace(FIRST_BLOCK, if f == END_BLOCK then f else f + 1);
    radio.Command(LEAVE);
    BandTraceShape(old(radio.trace), requests, f);
    if blocks.Ok? {
      ConcatBlocks(radio.memory, blocks.value, FIRST_BLOCK);
    }
    r := blocks;
  }

  lemma BandTraceShape(t: seq<Event>, requests: seq<Event>, f: nat)
    requires FIRST_BLOCK <= f <= END_BLOCK
    requires requests == ReadTrace(FIRST_BLOCK, if f == END_BLOCK then f else f + 1)
    ensures t + [Sent([ENTER])] + requests + [Sent([LEAVE])] == t + BandReadTrace(f)
  {
  }

  /** readBandPlan: the blocks decoded, or the read error. */
  method ReadBandPlan(radio: Radio) returns (r: Result<seq<Band>>)
    requires radio.Valid()
    modifies radio
    ensures radio.Valid() && radio.memory == old(radio.memory) && radio.armed == old(radio.armed)
    ensures radio.trace == old(radio.trace) + BandReadTrace(FirstIn(radio.unreadable, FIRST_BLOCK, END_BLOCK))
    ensures var f := FirstIn(radio.unreadable, FIRST_BLOCK, END_BLOCK);
      r == if f == END_BLOCK then DecodedBandPlan(BandRegion(radio.memory)) else Err(ReadFailed(f))
  {
    var blocks := ReadBandBlocks(radio);
    if blocks.Err? {
      return Err(blocks.error);
    }
    r := DecodeBandPlan(blocks.value);
  }

  // ---------------------------------------------------------------------------
  // Properties of the decoder.

  /** The flags bits of a band, put back together. */
  function FlagsOf(b: Band): int
  {
    (if b.txAllowed then 1 else 0) + 2 * (if b.wrap then 1 else 0) + 4 * b.modulation + 32 * b.bandwidth
  }

  /** The four flag fields lose nothing: they put the flags byte back together. */
  lemma FlagsRecovered(raw: RawBand, r: int)
    ensures FlagsOf(BandOf(raw, r)) == raw.flags
  {
    var f := raw.flags;
    var t, w, m, bw := f % 2, (f / 2) % 2, (f / 4) % 8, f / 32;
    DivMod(f / 2, t, 2);
    DivMod(f / 4, w, 2);
    DivMod(bw, m, 8);
    assert f / 2 / 2 == f / 4 && f / 4 / 8 == f / 32;
  }

  /** A whole region always holds band 20's fields, so a region read in full fails only on
      its magic. */
  lemma RegionDecodes(image: seq<byte>)
    requires IsImage(image)
    ensures DecodedBandPlan(BandRegion(image)).Ok? <==> HasMagic(BandRegion(image))
  {
  }

  /** Band r reads only its own ten bytes. */
  lemma BandReadsOnlyItsBytes(full: seq<byte>, other: seq<byte>, r: int)
    requires 1 <= r <= BAND_COUNT && |full| >= MIN_LENGTH + 2 && |other| >= MIN_LENGTH + 2
    requires full[BandAddress(r)..BandAddress(r) + BAND_SIZE] == other[BandAddress(r)..BandAddress(r) + BAND_SIZE]
    ensures RawBandAt(full, r) == RawBandAt(other, r)
  {
    var a := BandAddress(r);
    assert forall k :: a <= k < a + BAND_SIZE ==> full[k] == full[a..a + BAND_SIZE][k - a];
    assert forall k :: a <= k < a + BAND_SIZE ==> other[k] == other[a..a + BAND_SIZE][k - a];
  }
}
