/**
 * The 32-byte channel record of src/radio/channel-memories.ts, big-endian:
 * rx and tx in 10 Hz units at 0 and 4, the receive and transmit sub-tone
 * words at 8 and 10, the power level at 12, the group bytes at 13 and 14, the
 * flag byte at 15, four reserved bytes and a NUL-padded 12-byte name at 20.
 */
module ChannelMemories {
  import opened Wrappers
  import opened Bytes
  import opened Text
  import opened Groups
  import opened Converters
  import opened Buffers

  /**
   * A JavaScript value where the types promise a numeric enum: a member's number,
   * or a member's name string. decodeChannelBlock stores names for the modulation and
   * the PTT ID; the renderer sends the bandwidth as the string 'Wide' or 'Narrow'.
   */
  datatype JsValue = Num(n: int) | Str(s: string)

  /** The reverse mappings RxModulation[i] and PttID[i] of the two numeric enums. */
  const RX_MODULATION_NAMES: seq<string> := ["Auto", "FM", "AM", "USB"]
  const PTT_ID_NAMES: seq<string> := ["Off", "BoT", "EoT", "Both"]

  /** bandwidth is the numeric enum Bandwidth of src/main/types/channel.ts: Wide is 0, Narrow 1. */
  datatype ChannelBits = ChannelBits(bandwidth: JsValue, modulation: JsValue, position: int,
                                     pttID: JsValue, reversed: bool, busyLock: bool)

  /** A channel, its frequencies in raw 10 Hz units (rxFreq * 100000 rounded). */
  datatype Channel = Channel(channelNumber: int, rx: int, tx: int, rxSubTone: string, txSubTone: string,
                             txPower: int, groups: ChannelGroups, bits: ChannelBits, reserved: seq<byte>,
                             name: string)

  /** Where ToNumber's scan of a string is: leading whitespace, the digits, trailing whitespace. */
  datatype ScanMode = Leading | Digits | Trailing

  /**
   * ToInt32(ToNumber(s)) & 3 for the strings ToNumber reads as an integer held exactly by a
   * double: blank text (0), or an optional sign and 1 to 15 decimal digits, with whitespace
   * around. The digits are folded modulo 4 as they are read (10 * low + d), and a minus sign
   * turns low into (4 - low) % 4, the low bits of the negated value. None is NaN:
   * any other character, a sign without digits, or whitespace inside the number.
   */
  function ScanNumber(s: string, i: nat, mode: ScanMode, negative: bool, count: nat, low: nat): (r: Option<nat>)
    requires i <= |s| && low < 4
    ensures r.Some? ==> r.value < 4
    decreases |s| - i, if mode.Leading? then 2 else if mode.Digits? then 1 else 0
  {
    match mode
    case Leading =>
      if i == |s| then Some(0)
      else if IsSpace(s[i]) then ScanNumber(s, i + 1, Leading, false, 0, 0)
      else if s[i] == '+' || s[i] == '-' then ScanNumber(s, i + 1, Digits, s[i] == '-', 0, 0)
      else ScanNumber(s, i, Digits, false, 0, 0)
    case Digits =>
      if i < |s| && IsDigit(s[i]) then ScanNumber(s, i + 1, Digits, negative, count + 1, (10 * low + DigitOf(s[i])) % 4)
      else if count == 0 then None
      else ScanNumber(s, i, Trailing, negative, count, low)
    case Trailing =>
      if i == |s| then (if count <= 15 then Some(if negative then (4 - low) % 4 else low) else None)
      else if IsSpace(s[i]) then ScanNumber(s, i + 1, Trailing, negative, count, low)
      else None
  }

  /**
   * v & 3 on an enum field. ToInt32 keeps a number's low two bits (Euclidean n % 4 agrees with
   * two's complement for negative n); a string is converted by ToNumber first, so a numeric
   * string such as "2" gives its value's low bits and a name string, NaN, gives 0.
   */
  function LowBits(v: JsValue): (k: nat)
    ensures k < 4
  {
    match v
    case Num(n) => n % 4
    case Str(s) =>
      match ScanNumber(s, 0, Leading, false, 0, 0)
      case Some(k) => k
      case None => 0
  }

  /** String(n) for an integer n. */
  function NumberString(n: int): string
  {
    if n < 0 then "-" + DecimalString(-n) else DecimalString(n)
  }

  /** A character that is not whitespace, a digit or a sign, anywhere from i on, makes the scan NaN. */
  lemma {:induction false} ForeignCharIsNaN(s: string, i: nat, j: nat, mode: ScanMode, negative: bool, count: nat, low: nat)
    requires i <= j < |s| && low < 4
    requires !IsSpace(s[j]) && !IsDigit(s[j]) && s[j] != '+' && s[j] != '-'
    ensures ScanNumber(s, i, mode, negative, count, low).None?
    decreases |s| - i, if mode.Leading? then 2 else if mode.Digits? then 1 else 0
  {
    match mode
    case Leading =>
      if IsSpace(s[i]) {
        ForeignCharIsNaN(s, i + 1, j, Leading, false, 0, 0);
      } else if s[i] == '+' || s[i] == '-' {
        ForeignCharIsNaN(s, i + 1, j, Digits, s[i] == '-', 0, 0);
      } else {
        ForeignCharIsNaN(s, i, j, Digits, false, 0, 0);
      }
    case Digits =>
      if IsDigit(s[i]) {
        ForeignCharIsNaN(s, i + 1, j, Digits, negative, count + 1, (10 * low + DigitOf(s[i])) % 4);
      } else if count > 0 {
        ForeignCharIsNaN(s, i, j, Trailing, negative, count, low);
      }
    case Trailing =>
      if IsSpace(s[i]) {
        ForeignCharIsNaN(s, i + 1, j, Trailing, negative, count, low);
      }
  }

  /** The reverse-mapped enum names are NaN, so re-encoding them gives 0. */
  lemma EnumNamesAreNaN()
    ensures forall k :: 0 <= k < 4 ==> LowBits(Str(RX_MODULATION_NAMES[k])) == 0
    ensures forall k :: 0 <= k < 4 ==> LowBits(Str(PTT_ID_NAMES[k])) == 0
  {
    forall name | name in RX_MODULATION_NAMES || name in PTT_ID_NAMES
      ensures LowBits(Str(name)) == 0
    {
      ForeignCharIsNaN(name, 0, 0, Leading, false, 0, 0);
    }
  }

  /** The modulation and PTT ID that decodeChannelBlock returns are names, so they re-encode as 0. */
  lemma DecodedNamesAreNaN(f: byte)
    ensures LowBits(DecodeBits(f).modulation) == 0 && LowBits(DecodeBits(f).pttID) == 0
  {
    EnumNamesAreNaN();
  }

  function Pow10(k: nat): nat
  {
    if k == 0 then 1 else 10 * Pow10(k - 1)
  }

  lemma Pow10Exceeds(k: nat)
    ensures Pow10(k) > k
  {
  }

  /** 10^15: every integer of smaller magnitude has at most 15 digits. */
  const DIGITS_LIMIT: int := Pow10(15)

  /** A number below 10^k has at most k decimal digits. */
  lemma {:induction false} DecimalLength(m: nat, k: nat)
    requires 1 <= k && m < Pow10(k)
    ensures |DecimalString(m)| <= k
  {
    if m >= 10 {
      DecimalLength(m / 10, k - 1);
      assert DecimalString(m) == DecimalString(m / 10) + [DigitChar(m % 10)];
    }
  }

  /** Folding one more digit modulo 4 agrees with the value modulo 4. */
  lemma FoldDigit(v: nat, d: nat)
    ensures (10 * (v % 4) + d) % 4 == (v * 10 + d) % 4
  {
    var q, r := v / 4, v % 4;
    assert v * 10 + d == 4 * (10 * q) + (10 * r + d);
  }

  /** Reading the digits s[i0..j] leaves their value modulo 4. */
  lemma {:induction false} DigitsScanned(s: string, i0: nat, j: nat, negative: bool)
    requires i0 <= j <= |s| && AllDigits(s[i0..j])
    ensures ScanNumber(s, i0, Digits, negative, 0, 0)
      == ScanNumber(s, j, Digits, negative, j - i0, DigitsValue(s[i0..j], 10) % 4)
  {
    if j > i0 {
      var w, p := s[i0..j], s[i0..j - 1];
      forall k | 0 <= k < |p|
        ensures IsDigit(p[k])
      {
        assert p[k] == w[k];
      }
      DigitsScanned(s, i0, j - 1, negative);
      var v := DigitsValue(s[i0..j - 1], 10);
      assert s[i0..j][..j - 1 - i0] == s[i0..j - 1];
      assert IsDigit(s[i0..j][j - 1 - i0]);
      FoldDigit(v, DigitOf(s[j - 1]));
    }
  }

  /** A number written as a string (as a CSV cell carries it) gives the same low bits as the number. */
  lemma NumericStringLowBits(n: int)
    requires -DIGITS_LIMIT < n < DIGITS_LIMIT
    ensures LowBits(Str(NumberString(n))) == LowBits(Num(n))
  {
    var m: nat := if n < 0 then -n else n;
    ScanOfNumberString(n, m);
    if n < 0 {
      NegatedLowBits(n, m);
    }
  }

  /** A minus sign turns the low two bits of m into those of -m. */
  lemma NegatedLowBits(n: int, m: nat)
    requires n + m == 0
    ensures (4 - m % 4) % 4 == n % 4
  {
    assert 4 - m % 4 == n + 4 * (m / 4 + 1);
  }

  /** The scan of String(n) reads the low bits of |n|, turned into those of -|n| by the sign. */
  lemma ScanOfNumberString(n: int, m: nat)
    requires -DIGITS_LIMIT < n < DIGITS_LIMIT && m == (if n < 0 then -n else n)
    ensures ScanNumber(NumberString(n), 0, Leading, false, 0, 0) == Some(if n < 0 then (4 - m % 4) % 4 else m % 4)
  {
    var t := NumberString(n);
    var start := if n < 0 then 1 else 0;
    ScannedDecimal(n, m, t, start);
    DigitsScanned(t, start, |t|, n < 0);
  }

  /** The scan of String(n): its digits start after the sign, they are all there is, and they are m = |n|. */
  lemma ScannedDecimal(n: int, m: nat, t: string, start: nat)
    requires -DIGITS_LIMIT < n < DIGITS_LIMIT && m == (if n < 0 then -n else n)
    requires t == NumberString(n) && start == (if n < 0 then 1 else 0)
    ensures start < |t| <= start + 15 && AllDigits(t[start..|t|]) && DigitsValue(t[start..|t|], 10) == m
    ensures ScanNumber(t, 0, Leading, false, 0, 0) == ScanNumber(t, start, Digits, n < 0, 0, 0)
    ensures ScanNumber(t, |t|, Digits, n < 0, |t| - start, m % 4)
      == Some(if n < 0 then (4 - m % 4) % 4 else m % 4)
  {
    DecimalDigitsOf(n, m, t, start);
    assert IsDigit(t[start]) by { assert t[start] == t[start..|t|][0]; }
  }

  /** The digits of String(n) after its sign spell m in at most 15 digits. */
  lemma DecimalDigitsOf(n: int, m: nat, t: string, start: nat)
    requires -DIGITS_LIMIT < n < DIGITS_LIMIT && m == (if n < 0 then -n else n)
    requires t == NumberString(n) && start == (if n < 0 then 1 else 0)
    ensures t[start..|t|] == DecimalString(m)
    ensures start < |t| <= start + 15 && AllDigits(t[start..|t|]) && DigitsValue(t[start..|t|], 10) == m
  {
    DigitsValueOfNat(m, 10);
    DecimalLength(m, 15);
    assert t[start..|t|] == DecimalString(m);
  }

  /** The CSV import's raw cell "2" for the PTT ID is read by ToNumber: bits 4-5 of the flag byte hold 2. */
  lemma CsvPttExample(bits: ChannelBits)
    requires bits.pttID == Str("2")
    ensures LowBits(bits.pttID) == 2
  {
    Pow10Exceeds(15);
    NumericStringLowBits(2);
    assert NumberString(2) == "2";
  }

  /** A channel whose PTT ID is a number written as a string is encoded with that number's low two
      bits in bits 4-5 of the flag byte, as when the number itself is given. */
  lemma NumericPttEncoded(c: Channel, n: int)
    requires InRanges(c) && -DIGITS_LIMIT < n < DIGITS_LIMIT && c.bits.pttID == Str(NumberString(n))
    ensures (EncodedChannel(c).value[15] as int / 16) % 4 == n % 4
  {
    ChannelLayout(c);
    NumericStringLowBits(n);
    var bits := c.bits;
    var a, m, p, t, r, k := NarrowBit(bits.bandwidth), LowBits(bits.modulation), bits.position % 2,
      LowBits(bits.pttID), Bit(bits.reversed), Bit(bits.busyLock);
    FieldOf(FlagByte(bits) as int, a + 2 * m + 8 * p, 16, t, 4, r + 2 * k);
  }

  /** Bit 0 of the flag byte: a bandwidth that is not Bandwidth.Wide (the number 0) is narrow. */
  function NarrowBit(v: JsValue): (k: nat)
    ensures k < 2
    ensures k == 0 <==> v == Num(0)
  {
    if v == Num(0) then 0 else 1
  }

  function Bit(b: bool): nat
  {
    if b then 1 else 0
  }

  /** The flag byte: bit 0 narrow, bits 1-2 modulation, bit 3 position, bits 4-5 PTT ID, bit 6
      reversed, bit 7 busy lock. The fields do not overlap, so the ORs are sums. */
  function FlagByte(bits: ChannelBits): byte
  {
    NarrowBit(bits.bandwidth) + 2 * LowBits(bits.modulation) + 8 * (bits.position % 2)
    + 16 * LowBits(bits.pttID) + 64 * Bit(bits.reversed) + 128 * Bit(bits.busyLock)
  }

  /** The bits object of decodeChannelBlock. */
  function DecodeBits(f: byte): ChannelBits
  {
    ChannelBits(Num(f % 2), Str(RX_MODULATION_NAMES[(f / 2) % 4]), (f / 8) % 2,
                Str(PTT_ID_NAMES[(f / 16) % 4]), (f / 64) % 2 == 1, (f / 128) % 2 == 1)
  }

  /** The groups as stored: g0 | g1 << 4 in byte 13, g2 | g3 << 4 in byte 14. */
  function SwapPairs(g: ChannelGroups): ChannelGroups
  {
    ChannelGroups(g.g2, g.g3, g.g0, g.g1)
  }

  function ClampSlots(g: ChannelGroups): (c: ChannelGroups)
    ensures forall k :: 0 <= k < 4 ==> 0 <= Slots(c)[k] < 16
  {
    ChannelGroups(ClampGroup(g.g0), ClampGroup(g.g1), ClampGroup(g.g2), ClampGroup(g.g3))
  }

  /** decodeChannelBlock: null exactly when the rx word is 0. */
  function DecodeChannelBlock(block: seq<byte>): (r: Option<Channel>)
    requires |block| == BLOCK_SIZE
    ensures r.None? <==> U32BE(block, 0) == 0
    ensures r.Some? ==> InRanges(r.value) && r.value.channelNumber == 0
  {
    var rx := U32BE(block, 0);
    if rx == 0 then None
    else
      var gv := U16BE(block, 13);
      Some(Channel(0, rx, U32BE(block, 4), ToneString(U16BE(block, 8)), ToneString(U16BE(block, 10)),
                   block[12], ChannelGroups(gv % 16, (gv / 16) % 16, (gv / 256) % 16, gv / 4096),
                   DecodeBits(block[15]), block[16..20], RemoveChar(AsciiString(block[20..32]), '\0')))
  }

  /** The name field: the first 12 characters in ASCII, then NULs. */
  function NameField(name: string): (f: seq<byte>)
    ensures |f| == 12
  {
    Laid(AsciiBytes(Take(name, 12)), 12)
  }

  predicate InRanges(c: Channel)
  {
    0 <= c.rx < 0x1_0000_0000 && 0 <= c.tx < 0x1_0000_0000 && 0 <= c.txPower < 0x100
  }

  /** Bytes 0..7: rx and tx, big-endian. */
  function Frequencies(rx: u32, tx: u32): (f: seq<byte>)
    ensures |f| == 8 && U32BE(f, 0) == rx && U32BE(f, 4) == tx
  {
    BE32(rx) + BE32(tx)
  }

  /** Bytes 8..11: the sub-tone words, big-endian. */
  function ToneBytes(c: Channel): (t: seq<byte>)
    ensures |t| == 4 && U16BE(t, 0) == ToneWord(c.rxSubTone) && U16BE(t, 2) == ToneWord(c.txSubTone)
  {
    BE16(ToneWord(c.rxSubTone)) + BE16(ToneWord(c.txSubTone))
  }

  /** Bytes 12..15: power, the two group bytes of the compacted groups, the flags. */
  function SettingBytes(txPower: byte, groups: ChannelGroups, bits: ChannelBits): (s: seq<byte>)
    ensures |s| == 4
  {
    var bytes := ToGroupBytes(Compacted(groups));
    [txPower, bytes.0, bytes.1, FlagByte(bits)]
  }

  /** What encodeChannelBlock returns, or the RangeError of a write that does not fit. */
  function EncodedChannel(c: Channel): (r: Result<seq<byte>>)
    ensures r.Err? <==> !InRanges(c)
    ensures r.Ok? ==> |r.value| == BLOCK_SIZE
    ensures r.Err? ==> r.error == OutOfRange
  {
    if !InRanges(c) then Err(OutOfRange)
    else Ok(Frequencies(c.rx, c.tx) + ToneBytes(c) + SettingBytes(c.txPower, c.groups, c.bits) + Zeros(4) + NameField(c.name))
  }

  /** encodeChannelBlock: the fields written one after the other into Buffer.alloc(32). */
  method EncodeChannelBlock(channel: Channel) returns (r: Result<seq<byte>>)
    ensures r == EncodedChannel(channel)
  {
    var block := new byte[BLOCK_SIZE](_ => 0);
    var compactedGroups := CompactGroups(channel.groups);
    assert block[..] == Laid([], 32);
    var o := PutFrequencies(block, channel.rx, channel.tx);
    if o.Fail? {
      return Err(o.error);
    }
    o := PutRest(block, channel, compactedGroups);
    if o.Fail? {
      return Err(o.error);
    }
    r := Ok(block[..]);
  }

  /** Everything after the frequencies: the tone words, the settings bytes (the power's
      RangeError) and the name. */
  method PutRest(block: array<byte>, channel: Channel, compacted: ChannelGroups) returns (o: Outcome)
    requires block.Length == BLOCK_SIZE && compacted == Compacted(channel.groups)
    requires 0 <= channel.rx < 0x1_0000_0000 && 0 <= channel.tx < 0x1_0000_0000
    requires block[..] == Laid(Frequencies(channel.rx, channel.tx), 32)
    modifies block
    ensures o == Pass || o == Fail(OutOfRange)
    ensures o == Pass <==> InRanges(channel)
    ensures o == Pass ==> block[..] == EncodedChannel(channel).value
  {
    ghost var p := Frequencies(channel.rx, channel.tx);
    PutTones(block, p, channel);
    p := p + ToneBytes(channel);
    o := PutSettings(block, p, channel.txPower, compacted, channel.groups, channel.bits);
    if o.Fail? {
      return;
    }
    p := p + SettingBytes(channel.txPower, channel.groups, channel.bits);
    PutName(block, p, channel.name);
  }

  /** The two writeUInt32BE calls; a frequency outside 32 bits is a RangeError. */
  method PutFrequencies(block: array<byte>, rx: int, tx: int) returns (o: Outcome)
    requires block.Length == BLOCK_SIZE && block[..] == Laid([], 32)
    modifies block
    ensures o == Pass || o == Fail(OutOfRange)
    ensures o == Pass <==> 0 <= rx < 0x1_0000_0000 && 0 <= tx < 0x1_0000_0000
    ensures o == Pass ==> block[..] == Laid(Frequencies(rx, tx), 32)
  {
    o := WriteUInt32BE(block, rx, 0);
    if o.Fail? {
      return;
    }
    SpliceLaid([], BE32(rx), 32);
    assert [] + BE32(rx) == BE32(rx);
    o := WriteUInt32BE(block, tx, 4);
    if o.Fail? {
      return;
    }
    SpliceLaid(BE32(rx), BE32(tx), 32);
  }

  /** The two writeUInt16BE calls of the tone words, which always fit. */
  method PutTones(block: array<byte>, ghost p: seq<byte>, c: Channel)
    requires block.Length == BLOCK_SIZE && |p| == 8 && block[..] == Laid(p, 32)
    modifies block
    ensures block[..] == Laid(p + ToneBytes(c), 32)
  {
    var o := WriteUInt16BE(block, ToneWord(c.rxSubTone), 8);
    SpliceLaid(p, BE16(ToneWord(c.rxSubTone)), 32);
    o := WriteUInt16BE(block, ToneWord(c.txSubTone), 10);
    SpliceLaid(p + BE16(ToneWord(c.rxSubTone)), BE16(ToneWord(c.txSubTone)), 32);
    assert p + BE16(ToneWord(c.rxSubTone)) + BE16(ToneWord(c.txSubTone)) == p + ToneBytes(c);
  }

  /** writeUInt8 of the power (a RangeError outside 0..255), the group bytes and the flags. */
  method PutSettings(block: array<byte>, ghost p: seq<byte>, txPower: int, compacted: ChannelGroups,
                     ghost groups: ChannelGroups, bits: ChannelBits)
    returns (o: Outcome)
    requires block.Length == BLOCK_SIZE && |p| == 12 && block[..] == Laid(p, 32) && compacted == Compacted(groups)
    modifies block
    ensures o == Pass || o == Fail(OutOfRange)
    ensures o == Pass <==> 0 <= txPower < 0x100
    ensures o == Pass ==> block[..] == Laid(p + SettingBytes(txPower, groups, bits), 32)
  {
    o := WriteUInt8(block, txPower, 12);
    if o.Fail? {
      return;
    }
    SpliceLaid(p, [txPower], 32);
    var groupBytes := ToGroupBytes(compacted);
    var _ := WriteUInt8(block, groupBytes.0, 13);
    SpliceLaid(p + [txPower], [groupBytes.0], 32);
    var _ := WriteUInt8(block, groupBytes.1, 14);
    SpliceLaid(p + [txPower] + [groupBytes.0], [groupBytes.1], 32);
    var _ := WriteUInt8(block, FlagByte(bits), 15);
    SpliceLaid(p + [txPower] + [groupBytes.0] + [groupBytes.1], [FlagByte(bits)], 32);
    assert p + [txPower] + [groupBytes.0] + [groupBytes.1] + [FlagByte(bits)] == p + [txPower, groupBytes.0, groupBytes.1, FlagByte(bits)];
  }

  /** The name buffer copied to offset 20: bytes 16..19 stay zero. */
  method PutName(block: array<byte>, ghost p: seq<byte>, name: string)
    requires block.Length == BLOCK_SIZE && |p| == 16 && block[..] == Laid(p, 32)
    modifies block
    ensures block[..] == p + Zeros(4) + NameField(name)
  {
    var nameBuf := NameBuffer(name);
    LaidZeros(p, 4, 32);
    Copy(nameBuf, block, 20);
    SpliceLaid(p + Zeros(4), nameBuf, 32);
  }

  /** Buffer.alloc(12, 0) with the first 12 characters of the name written into it. */
  method NameBuffer(name: string) returns (field: seq<byte>)
    ensures field == NameField(name)
  {
    var channelName := Take(name, 12);
    var nameBuf := new byte[12](_ => 0);
    assert nameBuf[..] == Laid([], 12);
    Copy(AsciiBytes(channelName), nameBuf, 0);
    SpliceLaid([], AsciiBytes(channelName), 12);
    assert [] + AsciiBytes(channelName) == AsciiBytes(channelName);
    field := nameBuf[..];
  }

  // ---------------------------------------------------------------------------
  // Properties of the codec.

  /** Where each field lands. */
  lemma ChannelLayout(c: Channel)
    requires InRanges(c)
    ensures var b := EncodedChannel(c).value;
      U32BE(b, 0) == c.rx && U32BE(b, 4) == c.tx
      && U16BE(b, 8) == ToneWord(c.rxSubTone) && U16BE(b, 10) == ToneWord(c.txSubTone)
      && b[12] == c.txPower && (b[13], b[14]) == ToGroupBytes(Compacted(c.groups))
      && b[15] == FlagByte(c.bits) && b[16..20] == Zeros(4) && b[20..] == NameField(c.name)
  {
    var s := SettingBytes(c.txPower, c.groups, c.bits);
    ReadPieces(EncodedChannel(c).value, Frequencies(c.rx, c.tx), ToneBytes(c), s, NameField(c.name));
  }

  /** The reads of a block made of the four pieces and the name. */
  lemma ReadPieces(b: seq<byte>, f: seq<byte>, t: seq<byte>, s: seq<byte>, n: seq<byte>)
    requires |f| == 8 && |t| == 4 && |s| == 4 && |n| == 12 && b == f + t + s + Zeros(4) + n
    ensures U32BE(b, 0) == U32BE(f, 0) && U32BE(b, 4) == U32BE(f, 4)
    ensures U16BE(b, 8) == U16BE(t, 0) && U16BE(b, 10) == U16BE(t, 2)
    ensures b[12] == s[0] && b[13] == s[1] && b[14] == s[2] && b[15] == s[3]
    ensures b[16..20] == Zeros(4) && b[20..] == n
  {
    assert b[..8] == f;
    assert b[8..12] == t;
    assert b[12..16] == s;
    assert b[16..20] == Zeros(4);
    assert b[20..] == n;
  }

  /** The two group bytes come back as one big-endian word, so byte 14 supplies g0 and g1. */
  lemma GroupsReadSwapped(block: seq<byte>)
    requires |block| == BLOCK_SIZE && U32BE(block, 0) != 0
    ensures DecodeChannelBlock(block).value.groups == SwapPairs(FromGroupBytes(block[13], block[14]))
  {
    var b13, b14 := block[13] as int, block[14] as int;
    var gv := U16BE(block, 13);
    assert gv == (b13 * 16 + b14 / 16) * 16 + b14 % 16;
    DivMod(b13 * 16 + b14 / 16, b14 % 16, 16);
    DivMod(b13, b14 / 16, 16);
    assert gv == b13 * 256 + b14;
    DivMod(b13, b14, 256);
    assert gv == (b13 / 16) * 4096 + (b13 % 16 * 256 + b14);
    DivMod(b13 / 16, b13 % 16 * 256 + b14, 4096);
  }

  /** Decoding an encoded flag byte: bandwidth, position, reversed and busy lock come back;
      modulation and PTT ID come back as the names of their low two bits. */
  lemma FlagsRoundTrip(bits: ChannelBits)
    ensures DecodeBits(FlagByte(bits)) == ChannelBits(Num(NarrowBit(bits.bandwidth)), Str(RX_MODULATION_NAMES[LowBits(bits.modulation)]),
      bits.position % 2, Str(PTT_ID_NAMES[LowBits(bits.pttID)]), bits.reversed, bits.busyLock)
  {
    var a, m, p, t, r, k := NarrowBit(bits.bandwidth), LowBits(bits.modulation), bits.position % 2,
      LowBits(bits.pttID), Bit(bits.reversed), Bit(bits.busyLock);
    var f: int := FlagByte(bits);
    assert f == a + 2 * m + 8 * p + 16 * t + 64 * r + 128 * k;
    FieldOf(f, 0, 1, a, 2, m + 4 * p + 8 * t + 32 * r + 64 * k);
    FieldOf(f, a, 2, m, 4, p + 2 * t + 8 * r + 16 * k);
    FieldOf(f, a + 2 * m, 8, p, 2, t + 4 * r + 8 * k);
    FieldOf(f, a + 2 * m + 8 * p, 16, t, 4, r + 2 * k);
    FieldOf(f, a + 2 * m + 8 * p + 16 * t, 64, r, 2, k);
    FieldOf(f, a + 2 * m + 8 * p + 16 * t + 64 * r, 128, k, 2, 0);
  }

  /** Bit 0 is clear exactly for the number 0, Bandwidth.Wide. The renderer's strings 'Wide' and
      'Narrow' are not equal to it, so every string bandwidth is written narrow and read back
      as Bandwidth.Narrow, the number 1. */
  lemma StringBandwidthIsNarrow(bits: ChannelBits)
    ensures FlagByte(bits) % 2 == 0 <==> bits.bandwidth == Num(0)
    ensures bits.bandwidth.Str? ==> FlagByte(bits) % 2 == 1 && DecodeBits(FlagByte(bits)).bandwidth == Num(1)
  {
    FlagsRoundTrip(bits);
  }

  /** So a channel the renderer edited, its bandwidth the string 'Wide' or 'Narrow', is stored with
      the narrow bit set and, when rx is not 0, read back as Bandwidth.Narrow. */
  lemma RendererBandwidthWrittenNarrow(c: Channel)
    requires InRanges(c) && c.bits.bandwidth.Str?
    ensures EncodedChannel(c).Ok? && EncodedChannel(c).value[15] % 2 == 1
    ensures c.rx != 0 ==> RoundTripped(c).bits.bandwidth == Num(1)
  {
    ChannelLayout(c);
    StringBandwidthIsNarrow(c.bits);
    if c.rx != 0 {
      ChannelRoundTrip(c);
    }
  }

  /** A flag byte that was decoded and encoded again loses its modulation and PTT ID bits:
      decoding makes them name strings, and a name & 3 is 0. */
  lemma FlagsReencoded(f: byte)
    ensures FlagByte(DecodeBits(f)) as int == f as int - 2 * ((f as int / 2) % 4) - 16 * ((f as int / 16) % 4)
  {
    var d := DecodeBits(f);
    DecodedFlagByte(f);
    KeptFields(f, FlagByte(d), NarrowBit(d.bandwidth), d.position % 2, Bit(d.reversed), Bit(d.busyLock));
  }

  /** Bits 0, 3, 6 and 7 of a byte are the byte without bits 1-2 and 4-5. */
  lemma KeptFields(v: int, x: int, a: int, p: int, r: int, b: int)
    requires 0 <= v < 0x100
    requires a == v % 2 && p == (v / 8) % 2 && r == (v / 64) % 2 && b == v / 128
    requires x == a + 8 * p + 64 * r + 128 * b
    ensures x == v - 2 * ((v / 2) % 4) - 16 * ((v / 16) % 4)
  {
    FlagFields(v);
  }

  /** The flag byte of a decoded record: the two name fields contribute nothing. */
  lemma DecodedFlagByte(f: byte)
    ensures var d := DecodeBits(f);
      FlagByte(d) as int == NarrowBit(d.bandwidth) + 8 * (d.position % 2) + 64 * Bit(d.reversed) + 128 * Bit(d.busyLock)
  {
    DecodedNamesAreNaN(f);
  }

  /** The six fields of a flag byte add up to it. */
  lemma FlagFields(v: int)
    requires 0 <= v < 0x100
    ensures v == v % 2 + 2 * ((v / 2) % 4) + 8 * ((v / 8) % 2) + 16 * ((v / 16) % 4) + 64 * ((v / 64) % 2) + 128 * (v / 128)
    ensures (v / 128) % 2 == v / 128
  {
    DivDiv(v, 2, 4);
    DivDiv(v, 8, 2);
    DivDiv(v, 16, 4);
    DivDiv(v, 64, 2);
    assert v == v % 2 + 2 * (v / 2);
    assert v / 2 == (v / 2) % 4 + 4 * (v / 8);
    assert v / 8 == (v / 8) % 2 + 2 * (v / 16);
    assert v / 16 == (v / 16) % 4 + 4 * (v / 64);
    assert v / 64 == (v / 64) % 2 + 2 * (v / 128);
  }

  /** What decodeChannelBlock makes of an encoded channel. */
  function RoundTripped(c: Channel): Channel
    requires InRanges(c) && c.rx != 0
  {
    ChannelLayout(c);
    DecodeChannelBlock(EncodedChannel(c).value).value
  }

  /** decode(encode(c)) for a channel whose writes all fit and whose rx is not 0: the numbers come
      back, the tones as the display strings of their words, the groups compacted, clamped and
      pair-swapped, the bandwidth as 0 or 1, modulation and PTT ID as names, the reserved bytes as zeros, and channelNumber as 0. */
  lemma ChannelRoundTrip(c: Channel)
    requires InRanges(c) && c.rx != 0
    ensures DecodeChannelBlock(EncodedChannel(c).value).Some?
    ensures var d := RoundTripped(c);
      d.channelNumber == 0 && d.rx == c.rx && d.tx == c.tx && d.txPower == c.txPower && d.reserved == Zeros(4)
    ensures RoundTripped(c).rxSubTone == ToneString(ToneWord(c.rxSubTone))
    ensures RoundTripped(c).txSubTone == ToneString(ToneWord(c.txSubTone))
    ensures RoundTripped(c).groups == SwapPairs(ClampSlots(Compacted(c.groups)))
    ensures RoundTripped(c).bits == ChannelBits(Num(NarrowBit(c.bits.bandwidth)), Str(RX_MODULATION_NAMES[LowBits(c.bits.modulation)]),
      c.bits.position % 2, Str(PTT_ID_NAMES[LowBits(c.bits.pttID)]), c.bits.reversed, c.bits.busyLock)
    ensures RoundTripped(c).name == RemoveChar(AsciiString(NameField(c.name)), '\0')
  {
    var b := EncodedChannel(c).value;
    ChannelLayout(c);
    DecodeLaidOut(b, c);
  }

  /** Decoding any block laid out as ChannelLayout says. */
  lemma DecodeLaidOut(b: seq<byte>, c: Channel)
    requires |b| == BLOCK_SIZE && c.rx != 0
    requires U32BE(b, 0) == c.rx && U32BE(b, 4) == c.tx
    requires U16BE(b, 8) == ToneWord(c.rxSubTone) && U16BE(b, 10) == ToneWord(c.txSubTone)
    requires b[12] == c.txPower && (b[13], b[14]) == ToGroupBytes(Compacted(c.groups))
    requires b[15] == FlagByte(c.bits) && b[16..20] == Zeros(4) && b[20..] == NameField(c.name)
    ensures DecodeChannelBlock(b) == Some(Channel(0, c.rx, c.tx, ToneString(ToneWord(c.rxSubTone)), ToneString(ToneWord(c.txSubTone)),
      c.txPower, SwapPairs(ClampSlots(Compacted(c.groups))),
      ChannelBits(Num(NarrowBit(c.bits.bandwidth)), Str(RX_MODULATION_NAMES[LowBits(c.bits.modulation)]), c.bits.position % 2,
                  Str(PTT_ID_NAMES[LowBits(c.bits.pttID)]), c.bits.reversed, c.bits.busyLock),
      Zeros(4), RemoveChar(AsciiString(NameField(c.name)), '\0')))
  {
    assert b[20..32] == b[20..];
    GroupsReadSwapped(b);
    GroupBytesClampRoundTrip(Compacted(c.groups));
    FlagsRoundTrip(c.bits);
  }

  /** An ASCII name without NULs comes back as its first 12 characters. */
  lemma NameRoundTrip(name: string)
    requires IsAscii(name) && '\0' !in name
    ensures RemoveChar(AsciiString(NameField(name)), '\0') == Take(name, 12)
  {
    var t := Take(name, 12);
    assert IsAscii(t);
    AsciiStringAppend(AsciiBytes(t), Zeros(12 - |t|));
    AsciiRoundTrip(t);
    AsciiStringZeros(12 - |t|);
    RemoveCharAppend(t, seq(12 - |t|, _ => '\0'), '\0');
    RemoveCharAbsent(t, '\0');
    RemoveCharAll(seq(12 - |t|, _ => '\0'), '\0');
  }

  /** Compacted groups in 0..15 are their own clamp. */
  lemma CompactedInRange(g: ChannelGroups)
    requires forall k :: 0 <= k < 4 ==> 0 <= Slots(g)[k] < 16
    ensures ClampSlots(Compacted(g)) == Compacted(g)
  {
    CompactedDrawsFromSlots(g);
    var d := Compacted(g);
    assert Slots(d)[0] == d.g0 && Slots(d)[1] == d.g1 && Slots(d)[2] == d.g2 && Slots(d)[3] == d.g3;
    assert 0 <= d.g0 < 16 && 0 <= d.g1 < 16 && 0 <= d.g2 < 16 && 0 <= d.g3 < 16;
  }

  /** Groups in 0..15 come back compacted and pair-swapped: (g2, g3, g0, g1) of the compacted groups. */
  lemma GroupsComeBackSwapped(c: Channel)
    requires InRanges(c) && c.rx != 0
    requires forall k :: 0 <= k < 4 ==> 0 <= Slots(c.groups)[k] < 16
    ensures RoundTripped(c).groups == SwapPairs(Compacted(c.groups))
  {
    ChannelRoundTrip(c);
    CompactedInRange(c.groups);
  }

  /** So a channel in groups A and B (1 and 2) reads back in groups 0, 0, A, B. */
  lemma GroupsSwapExample()
    ensures var c := Channel(1, 14_652_000, 14_652_000, "Off", "Off", 0, ChannelGroups(1, 2, 0, 0),
                              ChannelBits(Num(0), Num(1), 0, Num(0), false, false), [], "CALL");
      RoundTripped(c).groups == ChannelGroups(0, 0, 1, 2)
  {
    var c := Channel(1, 14_652_000, 14_652_000, "Off", "Off", 0, ChannelGroups(1, 2, 0, 0),
                     ChannelBits(Num(0), Num(1), 0, Num(0), false, false), [], "CALL");
    assert IsCompact(Slots(c.groups));
    CompactedFixedPoints(c.groups);
    GroupsComeBackSwapped(c);
  }

  /** Encoding a decoded channel again keeps its flag byte except the modulation and PTT ID bits,
      which it clears, and writes the reserved bytes as zeros. */
  lemma ReencodeClearsEnumBits(block: seq<byte>)
    requires |block| == BLOCK_SIZE && U32BE(block, 0) != 0
    ensures InRanges(DecodeChannelBlock(block).value)
    ensures var e := EncodedChannel(DecodeChannelBlock(block).value).value;
      e[15] as int == block[15] as int - 2 * ((block[15] as int / 2) % 4) - 16 * ((block[15] as int / 16) % 4)
      && e[16..20] == Zeros(4)
  {
    var c := DecodeChannelBlock(block).value;
    ChannelLayout(c);
    FlagsReencoded(block[15]);
  }
}
