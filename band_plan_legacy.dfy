/**
 * The band plan decoder of src/radio/band-plan.js: the same magic check and
 * the same 20 ten-byte records as src/radio/band-plan.ts, but modulation and
 * bandwidth become names from two tables, a power byte of 0 (not 0xFF) is
 * "Auto", and band 20 is always overwritten with a fixed record.
 */
module LegacyBandPlan {
  import opened Wrappers
  import opened Bytes
  import opened Radio
  import BandPlan

  const BAND_MODULATION: seq<string> :=
    ["Ignore", "FM", "AM", "USB", "Enforce FM", "Enforce AM", "Enforce USB", "Enforce None"]

  const BAND_BANDWIDTH: seq<string> :=
    ["Ignore", "Wide", "Narrow", "Enforce Wide", "Enforce Narrow", "FM Tuner"]

  datatype LegacyBand = LegacyBand(bandNumber: int, start: int, end: int, maxPower: BandPlan.Power,
                                   txAllowed: bool, wrap: bool, modulation: string, bandwidth: Option<string>)

  /** BAND_BANDWIDTH[i], undefined past the sixth entry. */
  function BandwidthName(i: int): (n: Option<string>)
    requires 0 <= i
    ensures n.Some? <==> i < |BAND_BANDWIDTH|
  {
    if i < |BAND_BANDWIDTH| then Some(BAND_BANDWIDTH[i]) else None
  }

  /** `maxPower || "Auto"`: a 0 byte and an undefined one are both falsy. */
  function LegacyPower(p: Option<byte>): (r: BandPlan.Power)
    ensures r == BandPlan.Auto <==> p.None? || p == Some(0)
    ensures r != BandPlan.Auto ==> r == BandPlan.Level(p.value)
  {
    if p.None? || p.value == 0 then BandPlan.Auto else BandPlan.Level(p.value)
  }

  /** The record pushed for band r, the fields read as in the TypeScript decoder. */
  function LegacyBandOf(raw: BandPlan.RawBand, r: int): (b: LegacyBand)
    ensures b.bandNumber == r && b.modulation in BAND_MODULATION
    ensures b.bandwidth.None? <==> raw.flags / 32 >= |BAND_BANDWIDTH|
  {
    var flags := raw.flags;
    LegacyBand(r, if raw.start >= BandPlan.MIN_START then raw.start else 0,
               if raw.end <= BandPlan.MAX_END then raw.end else 0,
               LegacyPower(raw.maxPower), flags % 2 == 1, (flags / 2) % 2 == 1,
               BAND_MODULATION[(flags / 4) % 8], BandwidthName(flags / 32))
  }

  /** What band 20 is replaced by: 18 MHz to 1300 MHz, no transmit, no wrap, Ignore, Auto. */
  const FIXED_BAND_20: LegacyBand :=
    LegacyBand(20, BandPlan.MIN_START, BandPlan.MAX_END, BandPlan.Auto, false, false, "Ignore", Some("Ignore"))

  /** decodeBandPlan of band-plan.js: the same two errors as the TypeScript decoder (the loop
      still reads band 20 before it is replaced), then bands 1..19 from their bytes and the
      fixed band 20. */
  function DecodedBandPlan(full: seq<byte>): (r: Result<seq<LegacyBand>>)
    ensures r.Err? <==> !BandPlan.HasMagic(full) || |full| < BandPlan.MIN_LENGTH
    ensures !BandPlan.HasMagic(full) ==> r == Err(BadMagic)
    ensures BandPlan.HasMagic(full) && |full| < BandPlan.MIN_LENGTH ==> r == Err(OutOfRange)
    ensures r.Ok? ==> |r.value| == BandPlan.BAND_COUNT && r.value[BandPlan.BAND_COUNT - 1] == FIXED_BAND_20
    ensures r.Ok? ==> forall i :: 0 <= i < BandPlan.BAND_COUNT ==> r.value[i].bandNumber == i + 1
  {
    if !BandPlan.HasMagic(full) then Err(BadMagic)
    else if |full| < BandPlan.MIN_LENGTH then Err(OutOfRange)
    else Ok(seq(BandPlan.BAND_COUNT, i requires 0 <= i < BandPlan.BAND_COUNT =>
      if i == BandPlan.BAND_COUNT - 1 then FIXED_BAND_20 else LegacyBandOf(BandPlan.RawBandAt(full, i + 1), i + 1)))
  }

  /** The decoder: the loop over all 20 bands, then `bands[19] = {...}`. */
  method DecodeBandPlan(blocks: seq<seq<byte>>) returns (result: Result<seq<LegacyBand>>)
    ensures result == DecodedBandPlan(Concat(blocks))
  {
    var fullBlock := Concat(blocks);
    if |fullBlock| < 2 || fullBlock[0] != BandPlan.MAGIC[0] || fullBlock[1] != BandPlan.MAGIC[1] {
      return Err(BadMagic);
    }
    var bands: seq<LegacyBand> := [];
    var r := 1;
    while r <= BandPlan.BAND_COUNT
      invariant 1 <= r <= BandPlan.BAND_COUNT + 1 && |bands| == r - 1
      invariant r > 1 ==> BandPlan.BandAddress(r - 1) + 8 <= |fullBlock|
      invariant forall i :: 0 <= i < r - 1 ==> bands[i] == LegacyBandOf(BandPlan.RawBandAt(fullBlock, i + 1), i + 1)
    {
      var addr := 2 + (r - 1) * BandPlan.BAND_SIZE;
      assert addr == BandPlan.BandAddress(r);
      if addr + 8 > |fullBlock| {
        return Err(OutOfRange);
      }
      var raw := BandPlan.RawBandAt(fullBlock, r);
      ghost var before := bands;
      bands := bands + [LegacyBandOf(raw, r)];
      assert forall i :: 0 <= i < r - 1 ==> bands[i] == before[i];
      r := r + 1;
    }
    bands := bands[BandPlan.BAND_COUNT - 1 := FIXED_BAND_20];
    assert BandPlan.BandAddress(BandPlan.BAND_COUNT) + 8 == BandPlan.MIN_LENGTH;
    assert bands == DecodedBandPlan(fullBlock).value;
    result := Ok(bands);
  }

  /** readBandPlan of band-plan.js: the same reads as the TypeScript one, decoded by this
      decoder. */
  method ReadBandPlan(radio: Radio) returns (r: Result<seq<LegacyBand>>)
    requires radio.Valid()
    modifies radio
    ensures radio.Valid() && radio.memory == old(radio.memory) && radio.armed == old(radio.armed)
    ensures radio.trace == old(radio.trace)
      + BandPlan.BandReadTrace(FirstIn(radio.unreadable, BandPlan.FIRST_BLOCK, BandPlan.END_BLOCK))
    ensures var f := FirstIn(radio.unreadable, BandPlan.FIRST_BLOCK, BandPlan.END_BLOCK);
      r == if f == BandPlan.END_BLOCK then DecodedBandPlan(BandPlan.BandRegion(radio.memory)) else Err(ReadFailed(f))
  {
    var blocks := BandPlan.ReadBandBlocks(radio);
    if blocks.Err? {
      return Err(blocks.error);
    }
    r := DecodeBandPlan(blocks.value);
  }

  // ---------------------------------------------------------------------------
  // Properties, and how the two decoders differ.

  /** Band 20's bytes do not matter: two inputs that agree outside them decode alike. */
  lemma Band20Ignored(full: seq<byte>, other: seq<byte>)
    requires |full| == |other| && |full| >= BandPlan.MIN_LENGTH + 2
    requires full[..BandPlan.BandAddress(BandPlan.BAND_COUNT)] == other[..BandPlan.BandAddress(BandPlan.BAND_COUNT)]
    ensures DecodedBandPlan(full) == DecodedBandPlan(other)
  {
    var a := BandPlan.BandAddress(BandPlan.BAND_COUNT);
    assert full[0] == full[..a][0] && full[1] == full[..a][1];
    assert other[0] == other[..a][0] && other[1] == other[..a][1];
    forall r | 1 <= r < BandPlan.BAND_COUNT
      ensures BandPlan.RawBandAt(full, r) == BandPlan.RawBandAt(other, r)
    {
      var b := BandPlan.BandAddress(r);
      assert full[b..b + BandPlan.BAND_SIZE] == full[..a][b..b + BandPlan.BAND_SIZE];
      assert other[b..b + BandPlan.BAND_SIZE] == other[..a][b..b + BandPlan.BAND_SIZE];
      BandPlan.BandReadsOnlyItsBytes(full, other, r);
    }
    if DecodedBandPlan(full).Ok? {
      assert DecodedBandPlan(full).value == DecodedBandPlan(other).value;
    }
  }

  /** The power rules are opposite: 0xFF is 'Auto' for the TypeScript decoder and 255 here,
      and 0 is 0 there and "Auto" here. */
  lemma PowerRulesDiffer(raw: BandPlan.RawBand, r: int)
    ensures raw.maxPower == Some(0xFF) ==>
      BandPlan.BandOf(raw, r).maxPower == BandPlan.Auto && LegacyBandOf(raw, r).maxPower == BandPlan.Level(0xFF)
    ensures raw.maxPower == Some(0) ==>
      BandPlan.BandOf(raw, r).maxPower == BandPlan.Level(0) && LegacyBandOf(raw, r).maxPower == BandPlan.Auto
  {
  }

  /** Apart from power, both decoders read the same record: the same numbers and flags, and
      the names are the table entries of the TypeScript decoder's enum values. */
  lemma SameRecordOtherwise(raw: BandPlan.RawBand, r: int)
    ensures var b, l := BandPlan.BandOf(raw, r), LegacyBandOf(raw, r);
      l.bandNumber == b.bandNumber && l.start == b.start && l.end == b.end
      && l.txAllowed == b.txAllowed && l.wrap == b.wrap
      && l.modulation == BAND_MODULATION[b.modulation] && l.bandwidth == BandwidthName(b.bandwidth)
  {
  }
}
