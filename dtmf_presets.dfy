/**
 * The 12-byte DTMF preset record of src/radio/dtmf-presets.ts: the sequence
 * length in the high nibble of byte 0, nine 4-bit digit codes after it (the
 * low nibble of byte 0, then the high and low nibbles of bytes 1..4), and a
 * label of up to 7 characters in bytes 5..11 that ends at the first 0 byte.
 */
module DtmfPresets {
  import opened Wrappers
  import opened Bytes
  import opened Text
  import opened Buffers

  const PRESET_SIZE: nat := 12
  const DIGIT_COUNT: nat := 9
  const LABEL_WIDTH: nat := 7

  datatype DtmfPreset = DtmfPreset(presetNumber: int, text: string, sequence: string, length: int)

  // ---------------------------------------------------------------------------
  // The sixteen digit codes.

  /** The characters 10..15 stand for. */
  const LETTERS: string := "*#ABCD"

  /** The keys a DTMF sequence is made of. */
  predicate IsKey(c: char)
  {
    IsDigit(c) || c in LETTERS
  }

  /** What the decoder prints for a code: 0..9 as its decimal digit, 10..15 as * # A B C D. */
  function Key(d: int): (c: char)
    requires 0 <= d < 16
    ensures IsKey(c)
  {
    if d < 10 then DigitChar(d) else LETTERS[d - 10]
  }

  /** The encoder's code for a character: * # A B C D as 10..15, a decimal digit as its value
      (parseInt), and anything else as 0 (parseInt gives NaN, and NaN || 0 is 0). */
  function Code(c: char): (d: int)
    ensures 0 <= d < 16
  {
    match c
    case '*' => 10
    case '#' => 11
    case 'A' => 12
    case 'B' => 13
    case 'C' => 14
    case 'D' => 15
    case _ => if IsDigit(c) then DigitOf(c) else 0
  }

  /** Key and Code are inverse: a key comes back as itself, any other character as '0'. */
  lemma KeyOfCode(c: char)
    ensures Key(Code(c)) == if IsKey(c) then c else '0'
  {
  }

  /** And every code comes back as itself. */
  lemma CodeOfKey(d: int)
    requires 0 <= d < 16
    ensures Code(Key(d)) == d
  {
  }

  function Keys(ds: seq<int>): (s: string)
    requires forall k :: 0 <= k < |ds| ==> 0 <= ds[k] < 16
    ensures |s| == |ds|
  {
    seq(|ds|, k requires 0 <= k < |ds| => Key(ds[k]))
  }

  function Codes(s: string): (ds: seq<int>)
    ensures |ds| == |s|
  {
    seq(|s|, k requires 0 <= k < |s| => Code(s[k]))
  }

  // ---------------------------------------------------------------------------
  // Decoding.

  /** The nine codes in the order they are pushed. */
  function DigitCodes(data: seq<byte>): (ds: seq<int>)
    requires |data| >= 5
    ensures |ds| == DIGIT_COUNT && forall k :: 0 <= k < |ds| ==> 0 <= ds[k] < 16
  {
    [data[0] % 16, data[1] / 16, data[1] % 16, data[2] / 16, data[2] % 16,
     data[3] / 16, data[3] % 16, data[4] / 16, data[4] % 16]
  }

  /** The first index at or after i that holds 0, or |f|. */
  function NulAt(f: seq<byte>, i: nat): (j: nat)
    requires i <= |f|
    ensures i <= j <= |f|
    ensures forall k :: i <= k < j ==> f[k] != 0
    ensures j < |f| ==> f[j] == 0
    decreases |f| - i
  {
    if i < |f| && f[i] != 0 then NulAt(f, i + 1) else i
  }

  /** NulAt is the only index with its postcondition. */
  lemma NulAtIs(f: seq<byte>, i: nat, j: nat)
    requires i <= j <= |f| && (forall k :: i <= k < j ==> f[k] != 0) && (j < |f| ==> f[j] == 0)
    ensures NulAt(f, i) == j
  {
  }

  /** String.fromCharCode of each byte. */
  function Latin1String(bs: seq<byte>): (s: string)
    ensures |s| == |bs|
  {
    seq(|bs|, k requires 0 <= k < |bs| => bs[k] as char)
  }

  /** The label: the characters of the field up to its first 0 byte. */
  function LabelOf(field: seq<byte>): (s: string)
    ensures |s| <= |field| && '\0' !in s
  {
    var n := NulAt(field, 0);
    assert forall k :: 0 <= k < n ==> Latin1String(field[..n])[k] != '\0';
    Latin1String(field[..n])
  }

  /** decodeDTMFPresetBlock: null exactly when the data is shorter than 12 bytes; otherwise the
      stored length nibble as is, the first min(length, 9) codes as keys, and a label of at
      most 7 characters without NULs. */
  function DecodedPreset(data: seq<byte>, presetNumber: int): (r: Option<DtmfPreset>)
    ensures r.None? <==> |data| < PRESET_SIZE
    ensures r.Some? ==> r.value.presetNumber == presetNumber && 0 <= r.value.length < 16
    ensures r.Some? ==> |r.value.sequence| == (if r.value.length < DIGIT_COUNT then r.value.length else DIGIT_COUNT)
    ensures r.Some? ==> forall k :: 0 <= k < |r.value.sequence| ==> IsKey(r.value.sequence[k])
    ensures r.Some? ==> |r.value.text| <= LABEL_WIDTH && '\0' !in r.value.text
  {
    if |data| < PRESET_SIZE then None
    else
      var length := data[0] / 16;
      Some(DtmfPreset(presetNumber, LabelOf(data[5..PRESET_SIZE]), Keys(Take(DigitCodes(data), length)), length))
  }

  /** The decoder, with its label loop: `for (i = 5; i < 12; i++) { if (data[i] === 0) break; ... }`. */
  method DecodeDtmfPresetBlock(data: seq<byte>, presetNumber: int) returns (r: Option<DtmfPreset>)
    ensures r == DecodedPreset(data, presetNumber)
  {
    if |data| < PRESET_SIZE {
      return None;
    }
    var length := data[0] / 16;
    var digits := DigitCodes(data);
    var sequence := Keys(Take(digits, length));
    var text := "";
    var i := 5;
    while i < PRESET_SIZE
      invariant 5 <= i <= PRESET_SIZE
      invariant text == Latin1String(data[5..i])
      invariant forall k :: 5 <= k < i ==> data[k] != 0
    {
      if data[i] == 0 {
        break;
      }
      assert Latin1String(data[5..i + 1]) == Latin1String(data[5..i]) + [data[i] as char];
      text := text + [data[i] as char];
      i := i + 1;
    }
    NulAtIs(data[5..PRESET_SIZE], 0, i - 5);
    assert data[5..PRESET_SIZE][..i - 5] == data[5..i];
    r := Some(DtmfPreset(presetNumber, text, sequence, length));
  }

  // ---------------------------------------------------------------------------
  // Encoding.

  /** Math.min(9, Math.max(1, preset.length || preset.sequence.length)). */
  function EncodedLength(p: DtmfPreset): (n: int)
    ensures 1 <= n <= DIGIT_COUNT
    ensures 1 <= p.length <= DIGIT_COUNT ==> n == p.length
    ensures p.length == 0 && 1 <= |p.sequence| <= DIGIT_COUNT ==> n == |p.sequence|
    ensures p.length == 0 && p.sequence == [] ==> n == 1
  {
    var wanted := if p.length != 0 then p.length else |p.sequence|;
    var atLeastOne := if wanted < 1 then 1 else wanted;
    if atLeastOne < DIGIT_COUNT then atLeastOne else DIGIT_COUNT
  }

  /** The codes of the sequence cut to the encoded length, then zero-padded to nine. */
  function PaddedCodes(p: DtmfPreset): (ds: seq<int>)
    ensures |ds| == DIGIT_COUNT && forall k :: 0 <= k < |ds| ==> 0 <= ds[k] < 16
  {
    var cut := Take(Codes(p.sequence), EncodedLength(p));
    cut + seq(DIGIT_COUNT - |cut|, _ => 0)
  }

  /** Two 4-bit values in one byte, the first in the high nibble. */
  function Pair(hi: int, lo: int): (b: byte)
    requires 0 <= hi < 16 && 0 <= lo < 16
  {
    hi * 16 + lo
  }

  /** Bytes 0..4: a length nibble and nine codes, two to a byte, high nibble first. */
  function Header(n: int, d: seq<int>): (h: seq<byte>)
    requires 0 <= n < 16 && |d| == DIGIT_COUNT && forall k :: 0 <= k < |d| ==> 0 <= d[k] < 16
    ensures |h| == 5
  {
    [Pair(n, d[0]), Pair(d[1], d[2]), Pair(d[3], d[4]), Pair(d[5], d[6]), Pair(d[7], d[8])]
  }

  /** What encodeDTMFPresetBlock returns: the header, then the label field. */
  function EncodedPreset(p: DtmfPreset): (r: seq<byte>)
    ensures |r| == PRESET_SIZE
  {
    Header(EncodedLength(p), PaddedCodes(p)) + NulPadded(p.text, LABEL_WIDTH)
  }

  /** The encoder, with its padding loop `while (digits.length < 9) digits.push(0)`. */
  method EncodeDtmfPresetBlock(preset: DtmfPreset) returns (r: seq<byte>)
    ensures r == EncodedPreset(preset)
  {
    var buffer := new byte[PRESET_SIZE](_ => 0);
    assert buffer[..] == Laid([], PRESET_SIZE);
    var length := EncodedLength(preset);
    var cut := Take(Codes(preset.sequence), length);
    var digits := cut;
    while |digits| < DIGIT_COUNT
      invariant |cut| <= |digits| <= DIGIT_COUNT
      invariant digits == cut + seq(|digits| - |cut|, _ => 0)
      decreases DIGIT_COUNT - |digits|
    {
      digits := digits + [0];
    }
    assert digits == PaddedCodes(preset);
    PutHeader(buffer, length, digits);
    assert buffer[..] == Laid(Header(length, digits), PRESET_SIZE);
    var labelBuffer := AsciiBytes(Take(PadEnd(preset.text, LABEL_WIDTH, '\0'), LABEL_WIDTH) + ['\0']);
    assert labelBuffer[..LABEL_WIDTH] == NulPadded(preset.text, LABEL_WIDTH);
    Copy(labelBuffer[..LABEL_WIDTH], buffer, 5);
    SpliceLaid(Header(length, digits), NulPadded(preset.text, LABEL_WIDTH), PRESET_SIZE);
    r := buffer[..];
    assert r == Laid(EncodedPreset(preset), PRESET_SIZE);
  }

  /** The five byte stores `buffer[k] = ((a & 0x0F) << 4) | (b & 0x0F)`; the masks keep all of
      a value that is already below 16. */
  method PutHeader(buffer: array<byte>, length: int, digits: seq<int>)
    requires buffer.Length == PRESET_SIZE
    requires 0 <= length < 16 && |digits| == DIGIT_COUNT && forall k :: 0 <= k < |digits| ==> 0 <= digits[k] < 16
    modifies buffer
    ensures buffer[..5] == Header(length, digits) && buffer[5..] == old(buffer[5..])
  {
    ghost var h := Header(length, digits);
    buffer[0] := Pair(length, digits[0]);
    buffer[1] := Pair(digits[1], digits[2]);
    buffer[2] := Pair(digits[3], digits[4]);
    buffer[3] := Pair(digits[5], digits[6]);
    buffer[4] := Pair(digits[7], digits[8]);
    assert buffer[0] == h[0] && buffer[1] == h[1] && buffer[2] == h[2] && buffer[3] == h[3] && buffer[4] == h[4];
    assert buffer[..5] == h;
  }

  // ---------------------------------------------------------------------------
  // Properties of the codec.

  /** The header reads back: byte 0's high nibble is the length and the nine codes come back
      in order, whatever follows the header. */
  lemma HeaderRoundTrip(n: int, d: seq<int>, rest: seq<byte>)
    requires 0 <= n < 16 && |d| == DIGIT_COUNT && forall k :: 0 <= k < |d| ==> 0 <= d[k] < 16
    ensures (Header(n, d) + rest)[0] / 16 == n
    ensures DigitCodes(Header(n, d) + rest) == d
  {
    DivMod(n, d[0], 16);
    DivMod(d[1], d[2], 16);
    DivMod(d[3], d[4], 16);
    DivMod(d[5], d[6], 16);
    DivMod(d[7], d[8], 16);
  }

  /** The digits cut to n after zero-padding show as the keys of the codes, '0'-padded to n. */
  lemma PaddedKeys(cut: seq<int>, n: nat)
    requires |cut| <= n <= DIGIT_COUNT && forall k :: 0 <= k < |cut| ==> 0 <= cut[k] < 16
    ensures Keys(Take(cut + seq(DIGIT_COUNT - |cut|, _ => 0), n)) == PadEnd(Keys(cut), n, '0')
  {
    assert Take(cut + seq(DIGIT_COUNT - |cut|, _ => 0), n) == cut + seq(n - |cut|, _ => 0);
  }

  /** A label of at most 7 characters below U+0100 and without NULs comes back unchanged. */
  lemma LabelRoundTrip(text: string)
    requires |text| <= LABEL_WIDTH && '\0' !in text
    requires forall k :: 0 <= k < |text| ==> text[k] as int < 0x100
    ensures LabelOf(NulPadded(text, LABEL_WIDTH)) == text
  {
    var f := NulPadded(text, LABEL_WIDTH);
    assert Take(PadEnd(text, LABEL_WIDTH, '\0'), LABEL_WIDTH) == PadEnd(text, LABEL_WIDTH, '\0');
    forall k | 0 <= k < |text|
      ensures f[k] == text[k] as int && f[k] != 0
    {
      assert text[k] != '\0';
    }
    NulAtIs(f, 0, |text|);
    assert Latin1String(f[..|text|]) == text;
  }

  /** decode(encode(p)) for any preset: the encoded length; the first that many characters of
      the sequence with every non-key turned to '0', padded with '0' to that length; and the
      label as read from its field. */
  lemma PresetRoundTrip(p: DtmfPreset, presetNumber: int)
    ensures DecodedPreset(EncodedPreset(p), presetNumber) == Some(DtmfPreset(presetNumber,
      LabelOf(NulPadded(p.text, LABEL_WIDTH)), PadEnd(Keys(Take(Codes(p.sequence), EncodedLength(p))), EncodedLength(p), '0'),
      EncodedLength(p)))
  {
    var n, d := EncodedLength(p), PaddedCodes(p);
    var b := Header(n, d) + NulPadded(p.text, LABEL_WIDTH);
    HeaderRoundTrip(n, d, NulPadded(p.text, LABEL_WIDTH));
    PaddedKeys(Take(Codes(p.sequence), n), n);
    assert b[5..PRESET_SIZE] == NulPadded(p.text, LABEL_WIDTH);
  }

  /** So a sequence of 1..9 keys stored with its own length, and a label of at most 7
      characters below U+0100 without NULs, come back exactly. */
  lemma PresetRoundTripExact(p: DtmfPreset)
    requires 1 <= |p.sequence| <= DIGIT_COUNT && p.length == |p.sequence|
    requires forall k :: 0 <= k < |p.sequence| ==> IsKey(p.sequence[k])
    requires |p.text| <= LABEL_WIDTH && '\0' !in p.text
    requires forall k :: 0 <= k < |p.text| ==> p.text[k] as int < 0x100
    ensures DecodedPreset(EncodedPreset(p), p.presetNumber) == Some(p)
  {
    LabelRoundTrip(p.text);
    var s := Keys(Take(Codes(p.sequence), EncodedLength(p)));
    forall k | 0 <= k < |p.sequence|
      ensures s[k] == p.sequence[k]
    {
      KeyOfCode(p.sequence[k]);
    }
    assert PadEnd(s, EncodedLength(p), '0') == p.sequence;
    PresetRoundTrip(p, p.presetNumber);
  }

  /** A zero length takes the sequence's own length, clamped to 1..9, and a longer sequence
      is cut to its first nine keys. */
  lemma LongSequenceCut(p: DtmfPreset)
    requires p.length == 0 && |p.sequence| > DIGIT_COUNT
    ensures DecodedPreset(EncodedPreset(p), p.presetNumber).value.length == DIGIT_COUNT
    ensures |DecodedPreset(EncodedPreset(p), p.presetNumber).value.sequence| == DIGIT_COUNT
  {
    PresetRoundTrip(p, p.presetNumber);
  }
}
