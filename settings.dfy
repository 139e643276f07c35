/**
 * The 128-byte radio settings struct of src/radio/settings.ts, gathered from
 * blocks 200..203: little-endian scalars at fixed offsets 0x00..0x1F, two
 * 19-byte VFO records at 0x20 and 0x33, more scalars at 0x46..0x62, and 29
 * filler bytes at 0x63..0x7F. The field types carry the reader's ranges:
 * readUInt8 gives a byte, readUInt16LE a u16, readUInt32LE a u32, and
 * readInt8 (xtal671 only) -128..127.
 */
module Settings {
  import opened Wrappers
  import opened Bytes
  import opened Radio

  const SETTINGS_SIZE: nat := 128
  const FIRST_BLOCK: nat := 200
  const END_BLOCK: nat := 204
  const VFO_BASE: nat := 0x20
  const VFO_SIZE: nat := 19
  const CHANNEL_COUNT: nat := 16
  const FILLER_START: nat := 0x63
  const FILLER_SIZE: nat := 29

  datatype VfoState = VfoState(group: byte, lastGroup: byte, groupModeChannels: seq<byte>, mode: byte)

  datatype SettingsBlock = SettingsBlock(
    magic: u16, squelch: byte, dualWatch: byte, autoFloor: byte, activeVfo: byte,
    step: u16, rxSplit: u16, txSplit: u16, pttMode: byte, txModMeter: byte, micGain: byte,
    txDeviation: byte, xtal671: int, battStyle: byte, scanRange: u16, scanPersist: u16,
    scanResume: byte, ultraScan: byte, toneMonitor: byte, lcdBrightness: byte, lcdTimeout: byte,
    breathe: byte, dtmfDev: byte, gamma: byte, repeaterTone: u16, vfoState: seq<VfoState>,
    keyLock: byte, bluetooth: byte, powerSave: byte, keyTones: byte, ste: byte, rfGain: byte,
    sBarStyle: byte, sqNoiseLev: byte, lastFmtFreq: u32, vox: byte, voxTail: u16, txTimeout: byte,
    dimmer: byte, dtmfSpeed: byte, noiseGate: byte, scanUpdate: byte, asl: byte, disableFmt: byte,
    pin: u16, pinAction: byte, lcdInverted: byte, afFilters: byte, ifFreq: byte, sBarAlwaysOn: byte,
    filler: seq<byte>)

  /** What every decoded block looks like: a signed xtal671, two VFO records of 16 channels,
      and 29 filler bytes. */
  predicate WellShaped(s: SettingsBlock)
  {
    -0x80 <= s.xtal671 < 0x80 && |s.filler| == FILLER_SIZE && |s.vfoState| == 2
    && |s.vfoState[0].groupModeChannels| == CHANNEL_COUNT && |s.vfoState[1].groupModeChannels| == CHANNEL_COUNT
  }

  // ---------------------------------------------------------------------------
  // Decoding.

  /** The settings object literal, before vfoState is filled in. */
  function Scalars(buf: seq<byte>): (s: SettingsBlock)
    requires |buf| == SETTINGS_SIZE
  {
    SettingsBlock(
      magic := U16LE(buf, 0x00), squelch := buf[0x02], dualWatch := buf[0x03], autoFloor := buf[0x04],
      activeVfo := buf[0x05], step := U16LE(buf, 0x06), rxSplit := U16LE(buf, 0x08),
      txSplit := U16LE(buf, 0x0a), pttMode := buf[0x0c], txModMeter := buf[0x0d], micGain := buf[0x0e],
      txDeviation := buf[0x0f], xtal671 := I8(buf, 0x10), battStyle := buf[0x11],
      scanRange := U16LE(buf, 0x12), scanPersist := U16LE(buf, 0x14), scanResume := buf[0x16],
      ultraScan := buf[0x17], toneMonitor := buf[0x18], lcdBrightness := buf[0x19],
      lcdTimeout := buf[0x1a], breathe := buf[0x1b], dtmfDev := buf[0x1c], gamma := buf[0x1d],
      repeaterTone := U16LE(buf, 0x1e), vfoState := [],
      keyLock := buf[0x46], bluetooth := buf[0x47], powerSave := buf[0x48], keyTones := buf[0x49],
      ste := buf[0x4a], rfGain := buf[0x4b], sBarStyle := buf[0x4c], sqNoiseLev := buf[0x4d],
      lastFmtFreq := U32LE(buf, 0x4e), vox := buf[0x52], voxTail := U16LE(buf, 0x53),
      txTimeout := buf[0x55], dimmer := buf[0x56], dtmfSpeed := buf[0x57], noiseGate := buf[0x58],
      scanUpdate := buf[0x59], asl := buf[0x5a], disableFmt := buf[0x5b], pin := U16LE(buf, 0x5c),
      pinAction := buf[0x5e], lcdInverted := buf[0x5f], afFilters := buf[0x60], ifFreq := buf[0x61],
      sBarAlwaysOn := buf[0x62], filler := buf[FILLER_START..FILLER_START + FILLER_SIZE])
  }

  /** Where VFO record i starts. */
  function VfoBase(i: nat): nat
  {
    VFO_BASE + i * VFO_SIZE
  }

  /** VFO record i: group at +0, lastGroup at +1, 16 channel bytes at +2..+17, mode at +18. */
  function VfoOf(buf: seq<byte>, i: nat): (v: VfoState)
    requires |buf| == SETTINGS_SIZE && i < 2
    ensures |v.groupModeChannels| == CHANNEL_COUNT
  {
    var base := VfoBase(i);
    VfoState(buf[base], buf[base + 1], buf[base + 2..base + 2 + CHANNEL_COUNT], buf[base + 18])
  }

  /** The whole decode of the 128 bytes. */
  function Decoded(buf: seq<byte>): (s: SettingsBlock)
    requires |buf| == SETTINGS_SIZE
    ensures WellShaped(s)
  {
    Scalars(buf).(vfoState := [VfoOf(buf, 0), VfoOf(buf, 1)])
  }

  /** One VFO record, with the channel loop `for (j = 0; j < 16; j++) groupModeChannels.push(...)`. */
  method DecodeVfo(buf: seq<byte>, i: nat) returns (v: VfoState)
    requires |buf| == SETTINGS_SIZE && i < 2
    ensures v == VfoOf(buf, i)
  {
    var base := VFO_BASE + i * VFO_SIZE;
    var group := buf[base];
    var lastGroup := buf[base + 1];
    var groupModeChannels: seq<byte> := [];
    var j := 0;
    while j < CHANNEL_COUNT
      invariant 0 <= j <= CHANNEL_COUNT
      invariant groupModeChannels == buf[base + 2..base + 2 + j]
    {
      groupModeChannels := groupModeChannels + [buf[base + 2 + j]];
      j := j + 1;
    }
    var mode := buf[base + 18];
    v := VfoState(group, lastGroup, groupModeChannels, mode);
  }

  /** The settings bytes of an image: blocks 200..203. */
  function SettingsRegion(image: seq<byte>): (region: seq<byte>)
    requires IsImage(image)
    ensures |region| == SETTINGS_SIZE
  {
    image[32 * FIRST_BLOCK..32 * END_BLOCK]
  }

  /** readSettings: blocks 200, 201, 202, 203 read in order and decoded; the first failed read
      ends it with its error. */
  method ReadSettings(radio: Radio) returns (r: Result<SettingsBlock>)
    requires radio.Valid()
    modifies radio
    ensures radio.Valid() && radio.memory == old(radio.memory) && radio.armed == old(radio.armed)
    ensures var f := FirstIn(radio.unreadable, FIRST_BLOCK, END_BLOCK);
      radio.trace == old(radio.trace) + ReadTrace(FIRST_BLOCK, if f == END_BLOCK then f else f + 1)
    ensures var f := FirstIn(radio.unreadable, FIRST_BLOCK, END_BLOCK);
      r == if f == END_BLOCK then Ok(Decoded(SettingsRegion(radio.memory))) else Err(ReadFailed(f))
  {
    var blocks := ReadBlocks(radio, FIRST_BLOCK, END_BLOCK);
    if blocks.Err? {
      return Err(blocks.error);
    }
    ConcatBlocks(radio.memory, blocks.value, FIRST_BLOCK);
    var buf := Concat(blocks.value);
    var settings := Scalars(buf);
    var first := DecodeVfo(buf, 0);
    var second := DecodeVfo(buf, 1);
    settings := settings.(vfoState := [first, second]);
    r := Ok(settings);
  }

  // ---------------------------------------------------------------------------
  // The layout as an encoding: every byte of the 128 belongs to exactly one field.

  function Lo(v: u16): byte { v % 0x100 }
  function Hi(v: u16): byte { v / 0x100 }

  /** readInt8 undone: the two's-complement byte of -128..127. */
  function I8Byte(v: int): (b: byte)
    requires -0x80 <= v < 0x80
  {
    v % 0x100
  }

  /** Bytes 0x00..0x1F. */
  function Head(s: SettingsBlock): (h: seq<byte>)
    requires WellShaped(s)
    ensures |h| == VFO_BASE
  {
    [Lo(s.magic), Hi(s.magic), s.squelch, s.dualWatch, s.autoFloor, s.activeVfo,
     Lo(s.step), Hi(s.step), Lo(s.rxSplit), Hi(s.rxSplit), Lo(s.txSplit), Hi(s.txSplit),
     s.pttMode, s.txModMeter, s.micGain, s.txDeviation, I8Byte(s.xtal671), s.battStyle,
     Lo(s.scanRange), Hi(s.scanRange), Lo(s.scanPersist), Hi(s.scanPersist),
     s.scanResume, s.ultraScan, s.toneMonitor, s.lcdBrightness, s.lcdTimeout, s.breathe,
     s.dtmfDev, s.gamma, Lo(s.repeaterTone), Hi(s.repeaterTone)]
  }

  /** One 19-byte VFO record. */
  function VfoBytes(v: VfoState): (b: seq<byte>)
    requires |v.groupModeChannels| == CHANNEL_COUNT
    ensures |b| == VFO_SIZE
  {
    [v.group, v.lastGroup] + v.groupModeChannels + [v.mode]
  }

  /** Bytes 0x46..0x62. */
  function Tail(s: SettingsBlock): (t: seq<byte>)
    ensures |t| == FILLER_START - (VFO_BASE + 2 * VFO_SIZE)
  {
    var f := LE32(s.lastFmtFreq);
    [s.keyLock, s.bluetooth, s.powerSave, s.keyTones, s.ste, s.rfGain, s.sBarStyle, s.sqNoiseLev,
     f[0], f[1], f[2], f[3], s.vox, Lo(s.voxTail), Hi(s.voxTail), s.txTimeout, s.dimmer,
     s.dtmfSpeed, s.noiseGate, s.scanUpdate, s.asl, s.disableFmt, Lo(s.pin), Hi(s.pin),
     s.pinAction, s.lcdInverted, s.afFilters, s.ifFreq, s.sBarAlwaysOn]
  }

  /** A settings block laid out as 128 bytes. */
  function SettingsBytes(s: SettingsBlock): (b: seq<byte>)
    requires WellShaped(s)
    ensures |b| == SETTINGS_SIZE
  {
    Head(s) + VfoBytes(s.vfoState[0]) + VfoBytes(s.vfoState[1]) + Tail(s) + s.filler
  }

  lemma U16Bytes(buf: seq<byte>, i: nat)
    requires i + 2 <= |buf|
    ensures Lo(U16LE(buf, i)) == buf[i] && Hi(U16LE(buf, i)) == buf[i + 1]
  {
    DivMod(buf[i + 1], buf[i], 0x100);
  }

  lemma HeadOfDecoded(buf: seq<byte>)
    requires |buf| == SETTINGS_SIZE
    ensures Head(Decoded(buf)) == buf[..VFO_BASE]
  {
    U16Bytes(buf, 0x00);
    U16Bytes(buf, 0x06);
    U16Bytes(buf, 0x08);
    U16Bytes(buf, 0x0a);
    U16Bytes(buf, 0x12);
    U16Bytes(buf, 0x14);
    U16Bytes(buf, 0x1e);
  }

  lemma TailOfDecoded(buf: seq<byte>)
    requires |buf| == SETTINGS_SIZE
    ensures Tail(Decoded(buf)) == buf[VFO_BASE + 2 * VFO_SIZE..FILLER_START]
  {
    Field32Determined(buf, 0x4e);
    assert LE32(U32LE(buf, 0x4e)) == buf[0x4e..0x52];
    U16Bytes(buf, 0x53);
    U16Bytes(buf, 0x5c);
  }

  lemma VfoOfDecoded(buf: seq<byte>, i: nat)
    requires |buf| == SETTINGS_SIZE && i < 2
    ensures VfoBytes(VfoOf(buf, i)) == buf[VfoBase(i)..VfoBase(i) + VFO_SIZE]
  {
  }

  /** Decoding loses nothing: the fields put the 128 bytes back together exactly, so the
      layout covers every byte once. */
  lemma DecodedTiles(buf: seq<byte>)
    requires |buf| == SETTINGS_SIZE
    ensures SettingsBytes(Decoded(buf)) == buf
  {
    var d := Decoded(buf);
    HeadOfDecoded(buf);
    VfoOfDecoded(buf, 0);
    VfoOfDecoded(buf, 1);
    TailOfDecoded(buf);
    assert d.vfoState[0] == VfoOf(buf, 0) && d.vfoState[1] == VfoOf(buf, 1);
    assert d.filler == buf[FILLER_START..];
    Rejoined(buf, VfoBase(0), VfoBase(1), VfoBase(2), FILLER_START);
  }

  /** Five consecutive slices make up the whole. */
  lemma Rejoined(buf: seq<byte>, a: nat, b: nat, c: nat, e: nat)
    requires a <= b <= c <= e <= |buf|
    ensures buf[..a] + buf[a..b] + buf[b..c] + buf[c..e] + buf[e..] == buf
  {
    assert buf[..a] + buf[a..b] == buf[..b];
    assert buf[..b] + buf[b..c] == buf[..c];
    assert buf[..c] + buf[c..e] == buf[..e];
  }

  /** And the other way: a well-shaped block laid out and decoded comes back unchanged. */
  lemma DecodeSettingsBytes(s: SettingsBlock)
    requires WellShaped(s)
    ensures Decoded(SettingsBytes(s)) == s
  {
    var b := SettingsBytes(s);
    var h, v0, v1, t := Head(s), VfoBytes(s.vfoState[0]), VfoBytes(s.vfoState[1]), Tail(s);
    assert b[..VFO_BASE] == h;
    assert b[VfoBase(0)..VfoBase(0) + VFO_SIZE] == v0;
    assert b[VfoBase(1)..VfoBase(1) + VFO_SIZE] == v1;
    assert b[VFO_BASE + 2 * VFO_SIZE..FILLER_START] == t;
    assert b[FILLER_START..] == s.filler;
    HeadFieldsBack(b, s);
    TailFieldsBack(b, s);
    assert VfoOf(b, 0) == s.vfoState[0];
    assert VfoOf(b, 1) == s.vfoState[1];
  }

  lemma HeadFieldsBack(b: seq<byte>, s: SettingsBlock)
    requires |b| == SETTINGS_SIZE && WellShaped(s) && b[..VFO_BASE] == Head(s)
    ensures var d := Scalars(b);
      d.magic == s.magic && d.squelch == s.squelch && d.dualWatch == s.dualWatch && d.autoFloor == s.autoFloor
      && d.activeVfo == s.activeVfo && d.step == s.step && d.rxSplit == s.rxSplit && d.txSplit == s.txSplit
      && d.pttMode == s.pttMode && d.txModMeter == s.txModMeter && d.micGain == s.micGain
      && d.txDeviation == s.txDeviation && d.xtal671 == s.xtal671 && d.battStyle == s.battStyle
      && d.scanRange == s.scanRange && d.scanPersist == s.scanPersist && d.scanResume == s.scanResume
      && d.ultraScan == s.ultraScan && d.toneMonitor == s.toneMonitor && d.lcdBrightness == s.lcdBrightness
      && d.lcdTimeout == s.lcdTimeout && d.breathe == s.breathe && d.dtmfDev == s.dtmfDev
      && d.gamma == s.gamma && d.repeaterTone == s.repeaterTone
  {
    var h := Head(s);
    assert forall k :: 0 <= k < VFO_BASE ==> b[k] == h[k];
  }

  lemma TailFieldsBack(b: seq<byte>, s: SettingsBlock)
    requires |b| == SETTINGS_SIZE && b[VFO_BASE + 2 * VFO_SIZE..FILLER_START] == Tail(s)
    ensures var d := Scalars(b);
      d.keyLock == s.keyLock && d.bluetooth == s.bluetooth && d.powerSave == s.powerSave
      && d.keyTones == s.keyTones && d.ste == s.ste && d.rfGain == s.rfGain && d.sBarStyle == s.sBarStyle
      && d.sqNoiseLev == s.sqNoiseLev && d.lastFmtFreq == s.lastFmtFreq && d.vox == s.vox
      && d.voxTail == s.voxTail && d.txTimeout == s.txTimeout && d.dimmer == s.dimmer
      && d.dtmfSpeed == s.dtmfSpeed && d.noiseGate == s.noiseGate && d.scanUpdate == s.scanUpdate
      && d.asl == s.asl && d.disableFmt == s.disableFmt && d.pin == s.pin && d.pinAction == s.pinAction
      && d.lcdInverted == s.lcdInverted && d.afFilters == s.afFilters && d.ifFreq == s.ifFreq
      && d.sBarAlwaysOn == s.sBarAlwaysOn
  {
    var t := Tail(s);
    var base := VFO_BASE + 2 * VFO_SIZE;
    assert forall k :: base <= k < FILLER_START ==> b[k] == t[k - base];
    U32Back(b, 0x4e, s.lastFmtFreq);
  }

  /** A u32 field written little-endian reads back. */
  lemma U32Back(b: seq<byte>, i: nat, v: u32)
    requires i + 4 <= |b|
    requires var f := LE32(v); b[i] == f[0] && b[i + 1] == f[1] && b[i + 2] == f[2] && b[i + 3] == f[3]
    ensures U32LE(b, i) == v
  {
  }
}
