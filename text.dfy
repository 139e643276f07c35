/**
 * The string operations the codecs rely on, with JavaScript's meaning: the
 * whitespace set of String.prototype.trim and of the regular-expression class
 * \s, slice and padStart/padEnd, Node's 'ascii' Buffer encoding, and the digit
 * strings of Number.prototype.toString and parseInt.
 */
module Text {
  import opened Bytes

  // ---------------------------------------------------------------------------
  // Character classes.

  /** WhiteSpace or LineTerminator in ECMAScript: what trim removes and \s matches. */
  predicate IsSpace(c: char)
  {
    var n := c as int;
    (0x09 <= n <= 0x0D) || n == 0x20 || n == 0xA0 || n == 0x1680 || (0x2000 <= n <= 0x200A)
    || n == 0x2028 || n == 0x2029 || n == 0x202F || n == 0x205F || n == 0x3000 || n == 0xFEFF
  }

  /** The regular-expression class \d: ASCII digits only. */
  predicate IsDigit(c: char)
  {
    '0' <= c <= '9'
  }

  /** The printable ASCII range 0x20..0x7E kept by the label decoders. */
  predicate IsPrintable(c: char)
  {
    ' ' <= c <= '~'
  }

  function DigitOf(c: char): (d: nat)
    requires IsDigit(c)
    ensures d < 10
  {
    c as int - '0' as int
  }

  function DigitChar(d: nat): (c: char)
    requires d < 10
    ensures IsDigit(c) && DigitOf(c) == d
  {
    ('0' as int + d) as char
  }

  /** ASCII-only lower-casing: the case folding of a non-Unicode /i regular expression. */
  function Lower(c: char): char
  {
    if 'A' <= c <= 'Z' then (c as int + 32) as char else c
  }

  /**
   * String.prototype.toUpperCase of one character, by the Unicode case mappings: every
   * lower-case letter of ASCII and Latin-1, and every character whose upper case holds an
   * ASCII letter (dotless i, long s, and the special casings that lengthen the string, such as
   * sharp s to "SS" and the ff, fi and fl ligatures). Other characters are kept.
   */
  function UpperCase(c: char): (u: string)
    ensures 1 <= |u| <= 3
    ensures 'a' <= c <= 'z' ==> u == [(c as int - 32) as char]
    ensures 'A' <= c <= 'Z' ==> u == [c]
  {
    var n := c as int;
    if 'a' <= c <= 'z' || (0xE0 <= n <= 0xFE && n != 0xF7) then [(n - 32) as char]
    else if n == 0xB5 then "\U{039C}"
    else if n == 0xDF then "SS"
    else if n == 0xFF then "\U{0178}"
    else if n == 0x131 then "I"
    else if n == 0x149 then "\U{02BC}N"
    else if n == 0x17F then "S"
    else if n == 0x1F0 then "J\U{030C}"
    else if n == 0x1E96 then "H\U{0331}"
    else if n == 0x1E97 then "T\U{0308}"
    else if n == 0x1E98 then "W\U{030A}"
    else if n == 0x1E99 then "Y\U{030A}"
    else if n == 0x1E9A then "A\U{02BE}"
    else if n == 0xFB00 then "FF"
    else if n == 0xFB01 then "FI"
    else if n == 0xFB02 then "FL"
    else if n == 0xFB03 then "FFI"
    else if n == 0xFB04 then "FFL"
    else if n == 0xFB05 || n == 0xFB06 then "ST"
    else [c]
  }

  /** toUpperCase of a string: each character's upper case, in order. */
  function UpperString(s: string): (r: string)
    ensures |r| >= |s|
  {
    if s == [] then [] else UpperString(s[..|s| - 1]) + UpperCase(s[|s| - 1])
  }

  /** Case-insensitive (ASCII) comparison of s[p..p + |word|] with a lower-case word. */
  predicate MatchesAt(s: string, p: nat, word: string)
  {
    p + |word| <= |s| && forall i :: 0 <= i < |word| ==> Lower(s[p + i]) == word[i]
  }

  // ---------------------------------------------------------------------------
  // trim, slice, padStart and padEnd.

  /** The first index at or after i holding a non-whitespace character, or |s|. */
  function SkipSpaces(s: string, i: nat): (j: nat)
    requires i <= |s|
    ensures i <= j <= |s|
    ensures forall k :: i <= k < j ==> IsSpace(s[k])
    ensures j < |s| ==> !IsSpace(s[j])
    decreases |s| - i
  {
    if i < |s| && IsSpace(s[i]) then SkipSpaces(s, i + 1) else i
  }

  /** The end of s[lo..j] once its trailing whitespace is dropped. */
  function SkipSpacesBack(s: string, lo: nat, j: nat): (e: nat)
    requires lo <= j <= |s|
    ensures lo <= e <= j
    ensures forall k :: e <= k < j ==> IsSpace(s[k])
    ensures e > lo ==> !IsSpace(s[e - 1])
    decreases j
  {
    if j > lo && IsSpace(s[j - 1]) then SkipSpacesBack(s, lo, j - 1) else j
  }

  /** SkipSpaces is the only index with its postcondition. */
  lemma SkipSpacesIs(s: string, i: nat, j: nat)
    requires i <= j <= |s| && (forall k :: i <= k < j ==> IsSpace(s[k])) && (j < |s| ==> !IsSpace(s[j]))
    ensures SkipSpaces(s, i) == j
  {
  }

  lemma SkipSpacesBackIs(s: string, lo: nat, j: nat, e: nat)
    requires lo <= e <= j <= |s| && (forall k :: e <= k < j ==> IsSpace(s[k])) && (e > lo ==> !IsSpace(s[e - 1]))
    ensures SkipSpacesBack(s, lo, j) == e
  {
  }

  /** String.prototype.trim. */
  function Trim(s: string): (r: string)
    ensures |r| <= |s|
    ensures r == [] || (!IsSpace(r[0]) && !IsSpace(r[|r| - 1]))
  {
    var a := SkipSpaces(s, 0);
    s[a..SkipSpacesBack(s, a, |s|)]
  }

  /** Where the trimmed text starts in s. */
  function TrimOffset(s: string): (o: nat)
    ensures o + |Trim(s)| <= |s|
  {
    SkipSpaces(s, 0)
  }

  lemma TrimIsSlice(s: string)
    ensures Trim(s) == s[TrimOffset(s)..TrimOffset(s) + |Trim(s)|]
  {
  }

  predicate AllSpaces(s: string)
  {
    forall i :: 0 <= i < |s| ==> IsSpace(s[i])
  }

  /** Array.prototype.indexOf: the first position of x, or -1. */
  function IndexOf<T(==)>(names: seq<T>, x: T): (i: int)
    ensures -1 <= i < |names|
    ensures i == -1 <==> x !in names
    ensures 0 <= i ==> names[i] == x && forall j :: 0 <= j < i ==> names[j] != x
  {
    if names == [] then -1
    else if names[0] == x then 0
    else
      var i := IndexOf(names[1..], x);
      if i == -1 then -1 else i + 1
  }

  /** slice(0, n). */
  function Take<T>(s: seq<T>, n: nat): (r: seq<T>)
    ensures |r| == if |s| <= n then |s| else n
    ensures r == s[..|r|]
  {
    if |s| <= n then s else s[..n]
  }

  /** padStart(n, c) with a one-character pad. */
  function PadStart(s: string, n: nat, c: char): (r: string)
    ensures |r| == if |s| <= n then n else |s|
    ensures r[|r| - |s|..] == s
    ensures forall i :: 0 <= i < |r| - |s| ==> r[i] == c
  {
    if |s| >= n then s else seq(n - |s|, _ => c) + s
  }

  /** padEnd(n, c) with a one-character pad. */
  function PadEnd(s: string, n: nat, c: char): (r: string)
    ensures |r| == if |s| <= n then n else |s|
    ensures r[..|s|] == s
    ensures forall i :: |s| <= i < |r| ==> r[i] == c
  {
    if |s| >= n then s else s + seq(n - |s|, _ => c)
  }

  /** Padding a string on the right with whitespace does not change its trimmed form. */
  lemma TrimAppendSpaces(s: string, sp: string)
    requires AllSpaces(sp)
    ensures Trim(s + sp) == Trim(s)
  {
    var a := SkipSpaces(s, 0);
    SkipSpacesAppend(s, sp);
    if a < |s| {
      SkipSpacesBackAppend(s, sp, a);
      SliceOfAppend(s, sp, a, SkipSpacesBack(s, a, |s|));
    }
  }

  lemma SliceOfAppend<T>(s: seq<T>, t: seq<T>, lo: nat, hi: nat)
    requires lo <= hi <= |s|
    ensures (s + t)[lo..hi] == s[lo..hi]
  {
  }

  lemma SkipSpacesAppend(s: string, sp: string)
    requires AllSpaces(sp)
    ensures SkipSpaces(s, 0) < |s| ==> SkipSpaces(s + sp, 0) == SkipSpaces(s, 0)
    ensures SkipSpaces(s, 0) == |s| ==> SkipSpaces(s + sp, 0) == |s + sp|
  {
    var t := s + sp;
    var a := SkipSpaces(s, 0);
    forall k | 0 <= k < |t| && (k < a || |s| <= k)
      ensures IsSpace(t[k])
    {
      if k < |s| {
        assert t[k] == s[k];
      } else {
        assert t[k] == sp[k - |s|];
      }
    }
    if a < |s| {
      assert t[a] == s[a];
      SkipSpacesIs(t, 0, a);
    } else {
      SkipSpacesIs(t, 0, |t|);
    }
  }

  lemma SkipSpacesBackAppend(s: string, sp: string, lo: nat)
    requires AllSpaces(sp) && lo <= |s|
    ensures SkipSpacesBack(s + sp, lo, |s + sp|) == SkipSpacesBack(s, lo, |s|)
  {
    var t := s + sp;
    var e := SkipSpacesBack(s, lo, |s|);
    forall k | e <= k < |t|
      ensures IsSpace(t[k])
    {
      if k < |s| {
        assert t[k] == s[k];
      } else {
        assert t[k] == sp[k - |s|];
      }
    }
    if e > lo {
      assert t[e - 1] == s[e - 1];
    }
    SkipSpacesBackIs(t, lo, |t|, e);
  }

  /** A string without leading or trailing whitespace is its own trim. */
  lemma TrimNoop(s: string)
    requires s == [] || (!IsSpace(s[0]) && !IsSpace(s[|s| - 1]))
    ensures Trim(s) == s
  {
    SkipSpacesIs(s, 0, 0);
    SkipSpacesBackIs(s, 0, |s|, |s|);
  }

  lemma TrimIdempotent(s: string)
    ensures Trim(Trim(s)) == Trim(s)
  {
    TrimNoop(Trim(s));
  }

  // ---------------------------------------------------------------------------
  // Character filters.

  function ReplaceChar(s: string, a: char, b: char): (r: string)
    ensures |r| == |s|
  {
    seq(|s|, i requires 0 <= i < |s| => if s[i] == a then b else s[i])
  }

  lemma ReplaceCharAppend(s: string, t: string, a: char, b: char)
    ensures ReplaceChar(s + t, a, b) == ReplaceChar(s, a, b) + ReplaceChar(t, a, b)
  {
    assert forall i :: 0 <= i < |s + t| ==> ReplaceChar(s + t, a, b)[i] == (ReplaceChar(s, a, b) + ReplaceChar(t, a, b))[i];
  }

  /** Every occurrence of c removed: replace(/\0/g, ''). */
  function RemoveChar(s: string, c: char): (r: string)
    ensures |r| <= |s|
    ensures forall i :: 0 <= i < |r| ==> r[i] != c
  {
    if s == [] then [] else (if s[0] == c then [] else [s[0]]) + RemoveChar(s[1..], c)
  }

  /** replace(/[^\x20-\x7E]/g, ''). */
  function KeepPrintable(s: string): (r: string)
    ensures |r| <= |s|
    ensures forall i :: 0 <= i < |r| ==> IsPrintable(r[i])
  {
    if s == [] then [] else (if IsPrintable(s[0]) then [s[0]] else []) + KeepPrintable(s[1..])
  }

  lemma {:induction false} RemoveCharAbsent(s: string, c: char)
    requires forall i :: 0 <= i < |s| ==> s[i] != c
    ensures RemoveChar(s, c) == s
  {
    if s != [] {
      RemoveCharAbsent(s[1..], c);
    }
  }

  lemma {:induction false} RemoveCharAppend(s: string, t: string, c: char)
    ensures RemoveChar(s + t, c) == RemoveChar(s, c) + RemoveChar(t, c)
  {
    if s != [] {
      assert (s + t)[1..] == s[1..] + t;
      RemoveCharAppend(s[1..], t, c);
    } else {
      assert s + t == t;
    }
  }

  lemma {:induction false} RemoveCharAll(s: string, c: char)
    requires forall i :: 0 <= i < |s| ==> s[i] == c
    ensures RemoveChar(s, c) == []
  {
    if s != [] {
      RemoveCharAll(s[1..], c);
    }
  }

  lemma {:induction false} KeepPrintableAll(s: string)
    requires forall i :: 0 <= i < |s| ==> IsPrintable(s[i])
    ensures KeepPrintable(s) == s
  {
    if s != [] {
      KeepPrintableAll(s[1..]);
    }
  }

  // ---------------------------------------------------------------------------
  // Node's 'ascii' encoding: writing keeps the low 8 bits of each code point,
  // reading keeps the low 7 bits of each byte.

  function AsciiByte(c: char): byte
  {
    (c as int) % 0x100
  }

  function AsciiBytes(s: string): (r: seq<byte>)
    ensures |r| == |s|
  {
    seq(|s|, i requires 0 <= i < |s| => AsciiByte(s[i]))
  }

  /** text.padEnd(w, '\0').substring(0, w) written in the 'ascii' encoding: the first w
      characters' low bytes, then zeros up to w bytes. */
  function NulPadded(text: string, w: nat): (b: seq<byte>)
    ensures |b| == w
  {
    AsciiBytes(Take(PadEnd(text, w, '\0'), w))
  }

  /** Byte i of the padded field is character i's low byte while the text lasts, then 0. */
  lemma NulPaddedBytes(text: string, w: nat, i: nat)
    requires i < w
    ensures NulPadded(text, w)[i] == if i < |text| then AsciiByte(text[i]) else 0
  {
  }

  function AsciiChar(b: byte): (c: char)
    ensures c as int < 0x80
  {
    (b % 0x80) as char
  }

  function AsciiString(bs: seq<byte>): (r: string)
    ensures |r| == |bs|
  {
    seq(|bs|, i requires 0 <= i < |bs| => AsciiChar(bs[i]))
  }

  predicate IsAscii(s: string)
  {
    forall i :: 0 <= i < |s| ==> s[i] as int < 0x80
  }

  lemma AsciiCharByte(c: char)
    requires c as int < 0x80
    ensures AsciiChar(AsciiByte(c)) == c
  {
  }

  lemma AsciiStringAppend(a: seq<byte>, b: seq<byte>)
    ensures AsciiString(a + b) == AsciiString(a) + AsciiString(b)
  {
    assert forall i :: 0 <= i < |a + b| ==> AsciiString(a + b)[i] == (AsciiString(a) + AsciiString(b))[i];
  }

  lemma AsciiStringZeros(n: nat)
    ensures AsciiString(Zeros(n)) == seq(n, _ => '\0')
  {
  }

  /** ASCII text survives an encode and decode unchanged. */
  lemma AsciiRoundTrip(s: string)
    requires IsAscii(s)
    ensures AsciiString(AsciiBytes(s)) == s
  {
    var r := AsciiString(AsciiBytes(s));
    forall i | 0 <= i < |s|
      ensures r[i] == s[i]
    {
      assert AsciiBytes(s)[i] == s[i] as int;
    }
  }

  // ---------------------------------------------------------------------------
  // Digit strings: Number.prototype.toString(base) and the value of a digit run.

  predicate AllDigits(s: string)
  {
    forall i :: 0 <= i < |s| ==> IsDigit(s[i])
  }

  function NatToDigits(n: nat, base: nat): (r: string)
    requires 2 <= base <= 10
    ensures r != [] && AllDigits(r)
    ensures forall i :: 0 <= i < |r| ==> DigitOf(r[i]) < base
  {
    if n < base then [DigitChar(n)]
    else
      DivModBounds(n, base);
      var q := NatToDigits(n / base, base);
      DigitsSnoc(q, DigitChar(n % base), base);
      q + [DigitChar(n % base)]
  }

  lemma DivModBounds(n: nat, base: nat)
    requires 2 <= base <= n
    ensures n / base < n && n % base < base
  {
  }

  lemma DigitsSnoc(s: string, d: char, base: nat)
    requires AllDigits(s) && (forall i :: 0 <= i < |s| ==> DigitOf(s[i]) < base)
    requires IsDigit(d) && DigitOf(d) < base
    ensures AllDigits(s + [d]) && forall i :: 0 <= i < |s + [d]| ==> DigitOf((s + [d])[i]) < base
  {
  }

  /** The value of a digit string read in the given base. */
  function DigitsValue(s: string, base: nat): nat
    requires AllDigits(s)
  {
    if s == [] then 0 else DigitsValue(s[..|s| - 1], base) * base + DigitOf(s[|s| - 1])
  }

  function DecimalString(n: nat): string
  {
    NatToDigits(n, 10)
  }

  function OctalString(n: nat): string
  {
    NatToDigits(n, 8)
  }

  lemma {:induction false} DigitsValueOfNat(n: nat, base: nat)
    requires 2 <= base <= 10
    ensures DigitsValue(NatToDigits(n, base), base) == n
  {
    if n >= base {
      var q := NatToDigits(n / base, base);
      DigitsValueOfNat(n / base, base);
      DigitsValueSnoc(q, DigitChar(n % base), base);
      DivModIdentity(n, base);
    }
  }

  lemma DigitsValueSnoc(s: string, d: char, base: nat)
    requires AllDigits(s) && IsDigit(d)
    ensures AllDigits(s + [d])
    ensures DigitsValue(s + [d], base) == DigitsValue(s, base) * base + DigitOf(d)
  {
    assert (s + [d])[..|s|] == s;
  }

  lemma DivModIdentity(n: nat, base: nat)
    requires base > 0
    ensures (n / base) * base + n % base == n
  {
  }

  /** Leading zeros do not change a digit string's value. */
  lemma {:induction false} DigitsValueLeadingZeros(z: nat, s: string, base: nat)
    requires AllDigits(s)
    ensures AllDigits(seq(z, _ => '0') + s)
    ensures DigitsValue(seq(z, _ => '0') + s, base) == DigitsValue(s, base)
    decreases |s|
  {
    var zs: string := seq(z, _ => '0');
    if s == [] {
      assert zs + s == zs;
      ZerosValue(z, base);
    } else {
      var t := zs + s;
      assert t[..|t| - 1] == zs + s[..|s| - 1];
      DigitsValueLeadingZeros(z, s[..|s| - 1], base);
    }
  }

  lemma {:induction false} ZerosValue(z: nat, base: nat)
    ensures AllDigits(seq(z, _ => '0'))
    ensures DigitsValue(seq(z, _ => '0'), base) == 0
  {
    if z > 0 {
      var zs: string := seq(z, _ => '0');
      assert zs[..z - 1] == seq(z - 1, _ => '0');
      ZerosValue(z - 1, base);
    }
  }
}
