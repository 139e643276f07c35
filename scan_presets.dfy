/**
 * The 20-byte scan preset record of src/radio/scan-presets.ts, big-endian:
 * start in 10 Hz units at 0, range at 4, step at 6, resume at 8, persist at 9,
 * the modulation and ultrascan bits at 10, and an 8-character space-padded
 * label at 11 followed by a 0 byte. Range, step and persist stay in their raw
 * stored units.
 */
module ScanPresets {
  import opened Wrappers
  import opened Bytes
  import opened Text
  import opened Buffers

  const PRESET_SIZE: nat := 20
  const LABEL_WIDTH: nat := 8
  /** The lowest start a stored preset may have: 1.8 MHz in 10 Hz units. */
  const MIN_START: nat := 1_800_000

  const MODULATION_NAMES: seq<string> := ["FM", "NFM", "AM", "USB"]

  datatype ScanPreset = ScanPreset(presetNumber: int, start: int, range: int, step: int, resume: int,
                                   persist: int, modulation: string, ultrascan: int, text: string)

  /** The label as read: bytes 11..18 in ASCII, NULs turned to spaces, trimmed. */
  function LabelOf(field: seq<byte>): (s: string)
    ensures |s| <= |field|
  {
    Trim(ReplaceChar(AsciiString(field), '\0', ' '))
  }

  /** decodeScanPresetBlock: null exactly when the start is below 1.8 MHz. */
  function DecodeScanPresetBlock(block: seq<byte>, presetNumber: int): (r: Option<ScanPreset>)
    requires |block| == PRESET_SIZE
    ensures r.None? <==> U32BE(block, 0) < MIN_START
    ensures r.Some? ==> r.value.presetNumber == presetNumber && r.value.modulation in MODULATION_NAMES
                        && 0 <= r.value.ultrascan < 64 && |r.value.text| <= LABEL_WIDTH
  {
    var start := U32BE(block, 0);
    if start < MIN_START then None
    else
      var bits := block[10];
      Some(ScanPreset(presetNumber, start, U16BE(block, 4), U16BE(block, 6), block[8], block[9],
                      MODULATION_NAMES[bits % 4], bits / 4, LabelOf(block[11..19])))
  }

  /** (modIndex & 0x03) | ((ultrascan & 0x3F) << 2): the two fields do not overlap, and & on
      two's complement is the Euclidean remainder, so an unknown modulation (index -1) gives 3. */
  function BitsByte(modulation: string, ultrascan: int): (b: byte)
  {
    IndexOf(MODULATION_NAMES, modulation) % 4 + 4 * (ultrascan % 64)
  }

  /** The label bytes 11..19: the first 8 characters space-padded in ASCII, then 0. */
  function LabelField(text: string): (f: seq<byte>)
    ensures |f| == LABEL_WIDTH + 1 && f[LABEL_WIDTH] == 0
  {
    AsciiBytes(PadEnd(Take(text, LABEL_WIDTH), LABEL_WIDTH, ' ')) + [0]
  }

  /** Every write of encodeScanPresetBlock fits its field. */
  predicate InRanges(p: ScanPreset)
  {
    0 <= p.start < 0x1_0000_0000 && 0 <= p.range < 0x1_0000 && 0 <= p.step < 0x1_0000
    && 0 <= p.resume < 0x100 && 0 <= p.persist < 0x100
  }

  /** Bytes 0..10. */
  function Fields(p: ScanPreset): (f: seq<byte>)
    requires InRanges(p)
    ensures |f| == 11
  {
    BE32(p.start) + BE16(p.range) + BE16(p.step) + [p.resume, p.persist, BitsByte(p.modulation, p.ultrascan)]
  }

  /** What encodeScanPresetBlock returns, or the RangeError of a write that does not fit. */
  function EncodedPreset(p: ScanPreset): (r: Result<seq<byte>>)
    ensures r.Err? <==> !InRanges(p)
    ensures r.Err? ==> r.error == OutOfRange
    ensures r.Ok? ==> |r.value| == PRESET_SIZE
  {
    if !InRanges(p) then Err(OutOfRange) else Ok(Fields(p) + LabelField(p.text))
  }

  /** encodeScanPresetBlock: the fields written one after another into Buffer.alloc(20). */
  method EncodeScanPresetBlock(preset: ScanPreset) returns (r: Result<seq<byte>>)
    ensures r == EncodedPreset(preset)
  {
    var block := new byte[PRESET_SIZE](_ => 0);
    assert block[..] == Laid([], PRESET_SIZE);
    var o := PutNumbers(block, preset);
    if o.Fail? {
      return Err(o.error);
    }
    PutLabel(block, Fields(preset), preset.text);
    r := Ok(block[..]);
  }

  /** The label branch of encodeScanPresetBlock: a non-empty label copied in at byte 11, an
      empty one as eight spaces; byte 19 ends up 0 either way. */
  method PutLabel(block: array<byte>, ghost p: seq<byte>, text: string)
    requires block.Length == PRESET_SIZE && |p| == 11 && block[..] == Laid(p, PRESET_SIZE)
    modifies block
    ensures block[..] == p + LabelField(text)
  {
    if |text| > 0 {
      var labelBuffer := LabelBuffer(text);
      Copy(labelBuffer, block, 11);
      SpliceLaid(p, labelBuffer, PRESET_SIZE);
      assert Laid(p + labelBuffer, PRESET_SIZE) == p + labelBuffer;
    } else {
      SpaceFill(block, p);
      block[19] := 0;
      EmptyLabelField();
      assert block[..] == p + LabelField(text);
    }
  }

  /** The five number writes and the bits byte; start, range, step, resume and persist are
      RangeErrors outside their widths, in that order. */
  method PutNumbers(block: array<byte>, preset: ScanPreset) returns (o: Outcome)
    requires block.Length == PRESET_SIZE && block[..] == Laid([], PRESET_SIZE)
    modifies block
    ensures o == Pass || o == Fail(OutOfRange)
    ensures o == Pass <==> InRanges(preset)
    ensures o == Pass ==> block[..] == Laid(Fields(preset), PRESET_SIZE)
  {
    o := WriteUInt32BE(block, preset.start, 0);
    if o.Fail? {
      return;
    }
    SpliceLaid([], BE32(preset.start), PRESET_SIZE);
    assert [] + BE32(preset.start) == BE32(preset.start);
    o := WriteUInt16BE(block, preset.range, 4);
    if o.Fail? {
      return;
    }
    SpliceLaid(BE32(preset.start), BE16(preset.range), PRESET_SIZE);
    ghost var p := BE32(preset.start) + BE16(preset.range);
    o := WriteUInt16BE(block, preset.step, 6);
    if o.Fail? {
      return;
    }
    SpliceLaid(p, BE16(preset.step), PRESET_SIZE);
    p := p + BE16(preset.step);
    o := PutSmall(block, p, preset);
  }

  /** writeUInt8 of resume, persist and the bits byte, which always fits. */
  method PutSmall(block: array<byte>, ghost p: seq<byte>, preset: ScanPreset) returns (o: Outcome)
    requires block.Length == PRESET_SIZE && |p| == 8 && block[..] == Laid(p, PRESET_SIZE)
    requires 0 <= preset.start < 0x1_0000_0000 && 0 <= preset.range < 0x1_0000 && 0 <= preset.step < 0x1_0000
    requires p == BE32(preset.start) + BE16(preset.range) + BE16(preset.step)
    modifies block
    ensures o == Pass || o == Fail(OutOfRange)
    ensures o == Pass <==> InRanges(preset)
    ensures o == Pass ==> block[..] == Laid(Fields(preset), PRESET_SIZE)
  {
    o := WriteUInt8(block, preset.resume, 8);
    if o.Fail? {
      return;
    }
    SpliceLaid(p, [preset.resume], PRESET_SIZE);
    o := WriteUInt8(block, preset.persist, 9);
    if o.Fail? {
      return;
    }
    SpliceLaid(p + [preset.resume], [preset.persist], PRESET_SIZE);
    var bits := BitsByte(preset.modulation, preset.ultrascan);
    var _ := WriteUInt8(block, bits, 10);
    SpliceLaid(p + [preset.resume] + [preset.persist], [bits], PRESET_SIZE);
    assert p + [preset.resume] + [preset.persist] + [bits] == Fields(preset);
  }

  /** Buffer.alloc(9, 0x20), the padded label written over its first 8 bytes, then byte 8 = 0. */
  method LabelBuffer(text: string) returns (buf: seq<byte>)
    ensures buf == LabelField(text)
  {
    var labelBuffer := new byte[LABEL_WIDTH + 1](_ => 0x20);
    var labelString := PadEnd(Take(text, LABEL_WIDTH), LABEL_WIDTH, ' ');
    Copy(AsciiBytes(labelString), labelBuffer, 0);
    labelBuffer[LABEL_WIDTH] := 0;
    buf := labelBuffer[..];
    assert buf == AsciiBytes(labelString) + [0];
  }

  /** The no-label branch: `for (i = 0; i < 8; i++) block[11 + i] = 0x20`. */
  method SpaceFill(block: array<byte>, ghost p: seq<byte>)
    requires block.Length == PRESET_SIZE && |p| == 11 && block[..] == Laid(p, PRESET_SIZE)
    modifies block
    ensures block[..] == p + Repeat(LABEL_WIDTH, 0x20) + [0]
  {
    var i := 0;
    while i < LABEL_WIDTH
      invariant 0 <= i <= LABEL_WIDTH
      invariant block[..] == p + Repeat(i, 0x20) + Zeros(PRESET_SIZE - 11 - i)
    {
      block[11 + i] := 0x20;
      assert block[..] == p + Repeat(i + 1, 0x20) + Zeros(PRESET_SIZE - 11 - (i + 1));
      i := i + 1;
    }
  }

  // ---------------------------------------------------------------------------
  // Properties of the codec.

  /** The empty label's loop writes what the label branch would write for "": 8 spaces and 0. */
  lemma EmptyLabelField()
    ensures LabelField("") == Repeat(LABEL_WIDTH, 0x20) + [0]
  {
    assert PadEnd(Take("", LABEL_WIDTH), LABEL_WIDTH, ' ') == seq(LABEL_WIDTH, _ => ' ');
  }

  /** Where each field lands. */
  lemma PresetLayout(p: ScanPreset)
    requires InRanges(p)
    ensures var b := EncodedPreset(p).value;
      U32BE(b, 0) == p.start && U16BE(b, 4) == p.range && U16BE(b, 6) == p.step
      && b[8] == p.resume && b[9] == p.persist && b[10] == BitsByte(p.modulation, p.ultrascan)
      && b[11..19] == AsciiBytes(PadEnd(Take(p.text, LABEL_WIDTH), LABEL_WIDTH, ' ')) && b[19] == 0
  {
    NumbersLayout(p);
    var b := EncodedPreset(p).value;
    assert b == Fields(p) + LabelField(p.text);
    assert b[11..19] == LabelField(p.text)[..LABEL_WIDTH];
  }

  /** The three numbers, big-endian at bytes 0, 4 and 6. */
  lemma NumbersLayout(p: ScanPreset)
    requires InRanges(p)
    ensures var b := EncodedPreset(p).value;
      U32BE(b, 0) == p.start && U16BE(b, 4) == p.range && U16BE(b, 6) == p.step
  {
    var b := EncodedPreset(p).value;
    assert b == Fields(p) + LabelField(p.text);
    assert b[..4] == BE32(p.start);
    assert b[4..6] == BE16(p.range);
    assert b[6..8] == BE16(p.step);
  }

  /** The bits byte reads back as the modulation index (mod 4) and the ultrascan value (mod 64). */
  lemma BitsRoundTrip(modulation: string, ultrascan: int)
    ensures var b := BitsByte(modulation, ultrascan);
      b % 4 == IndexOf(MODULATION_NAMES, modulation) % 4 && b / 4 == ultrascan % 64
  {
    var m, u := IndexOf(MODULATION_NAMES, modulation) % 4, ultrascan % 64;
    DivMod(u, m, 4);
    assert BitsByte(modulation, ultrascan) == u * 4 + m;
  }

  /** A label of at most 8 ASCII characters without NULs and without surrounding whitespace
      comes back unchanged. */
  lemma LabelRoundTrip(text: string)
    requires |text| <= LABEL_WIDTH && IsAscii(text) && '\0' !in text
    requires text == [] || (!IsSpace(text[0]) && !IsSpace(text[|text| - 1]))
    ensures LabelOf(LabelField(text)[..LABEL_WIDTH]) == text
  {
    var padded := PadEnd(text, LABEL_WIDTH, ' ');
    var spaces := seq(LABEL_WIDTH - |text|, _ => ' ');
    assert padded == text + spaces;
    assert LabelField(text)[..LABEL_WIDTH] == AsciiBytes(padded);
    assert IsAscii(padded);
    AsciiRoundTrip(padded);
    ReplaceCharAppend(text, spaces, '\0', ' ');
    assert ReplaceChar(text, '\0', ' ') == text;
    assert ReplaceChar(spaces, '\0', ' ') == spaces;
    TrimAppendSpaces(text, spaces);
    TrimNoop(text);
  }

  /** decode(encode(p)) for an encodable preset whose start is at least 1.8 MHz: numbers and
      persist come back, the modulation as the table entry of its index & 3 (so an unknown one
      becomes "USB"), the ultrascan value & 0x3F, and the label as read from its field. */
  lemma PresetRoundTrip(p: ScanPreset, presetNumber: int)
    requires InRanges(p) && p.start >= MIN_START
    ensures DecodeScanPresetBlock(EncodedPreset(p).value, presetNumber) == Some(ScanPreset(presetNumber, p.start,
      p.range, p.step, p.resume, p.persist, MODULATION_NAMES[IndexOf(MODULATION_NAMES, p.modulation) % 4],
      p.ultrascan % 64, LabelOf(LabelField(p.text)[..LABEL_WIDTH])))
  {
    PresetLayout(p);
    BitsRoundTrip(p.modulation, p.ultrascan);
    assert LabelField(p.text)[..LABEL_WIDTH] == AsciiBytes(PadEnd(Take(p.text, LABEL_WIDTH), LABEL_WIDTH, ' '));
  }

  /** So a preset with a known modulation, ultrascan in 0..63 and a clean label of at most 8 ASCII
      characters comes back field for field, under the slot's preset number. */
  lemma PresetRoundTripExact(p: ScanPreset)
    requires InRanges(p) && p.start >= MIN_START
    requires p.modulation in MODULATION_NAMES && 0 <= p.ultrascan < 64
    requires |p.text| <= LABEL_WIDTH && IsAscii(p.text) && '\0' !in p.text
    requires p.text == [] || (!IsSpace(p.text[0]) && !IsSpace(p.text[|p.text| - 1]))
    ensures DecodeScanPresetBlock(EncodedPreset(p).value, p.presetNumber) == Some(p)
  {
    assert p.ultrascan % 64 == p.ultrascan;
    var i := IndexOf(MODULATION_NAMES, p.modulation);
    assert i % 4 == i;
    LabelRoundTrip(p.text);
    PresetRoundTrip(p, p.presetNumber);
  }

  /** An unknown modulation is stored as index 3 and so reads back as "USB". */
  lemma UnknownModulationIsUsb(p: ScanPreset)
    requires InRanges(p) && p.start >= MIN_START && p.modulation !in MODULATION_NAMES
    ensures DecodeScanPresetBlock(EncodedPreset(p).value, p.presetNumber).value.modulation == "USB"
  {
    assert IndexOf(MODULATION_NAMES, p.modulation) == -1;
    assert -1 % 4 == 3;
    PresetRoundTrip(p, p.presetNumber);
  }
}
