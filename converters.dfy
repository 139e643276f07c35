/**
 * Field converters shared by the channel codecs: the two group bytes
 * (src/utils/converters.ts), the 16-bit group word with its letter string
 * (src/utils/converters.js), and the sub-tone word with its display string
 * (identical in both files).
 */
module Converters {
  import opened Wrappers
  import opened Bytes
  import opened Text
  import opened Groups

  // ---------------------------------------------------------------------------
  // Group bytes: byte1 = g0 | g1 << 4, byte2 = g2 | g3 << 4.

  function FromGroupBytes(byte1: byte, byte2: byte): (g: ChannelGroups)
    ensures forall k :: 0 <= k < 4 ==> 0 <= Slots(g)[k] < 16
  {
    ChannelGroups(byte1 % 16, byte1 / 16, byte2 % 16, byte2 / 16)
  }

  /** Math.min(Math.max(0, g || 0), 15) & 0x0F on an integer slot. */
  function ClampGroup(g: int): (c: int)
    ensures 0 <= c < 16
    ensures 0 <= g < 16 ==> c == g
  {
    if g < 0 then 0 else if g > 15 then 15 else g
  }

  function ToGroupBytes(g: ChannelGroups): (r: (byte, byte))
  {
    (ClampGroup(g.g0) + ClampGroup(g.g1) * 16, ClampGroup(g.g2) + ClampGroup(g.g3) * 16)
  }

  /** Encoding then decoding the group bytes clamps each slot to 0..15 and keeps its position. */
  lemma GroupBytesClampRoundTrip(g: ChannelGroups)
    ensures FromGroupBytes(ToGroupBytes(g).0, ToGroupBytes(g).1)
         == ChannelGroups(ClampGroup(g.g0), ClampGroup(g.g1), ClampGroup(g.g2), ClampGroup(g.g3))
  {
    var (b1, b2) := ToGroupBytes(g);
    DivMod(ClampGroup(g.g1), ClampGroup(g.g0), 16);
    DivMod(ClampGroup(g.g3), ClampGroup(g.g2), 16);
  }

  /** fromGroupBytes(toGroupBytes(g)) = g for every g whose slots are in 0..15. */
  lemma GroupBytesRoundTrip(g: ChannelGroups)
    requires forall k :: 0 <= k < 4 ==> 0 <= Slots(g)[k] < 16
    ensures FromGroupBytes(ToGroupBytes(g).0, ToGroupBytes(g).1) == g
  {
    assert 0 <= g.g0 < 16 && 0 <= g.g1 < 16 && 0 <= g.g2 < 16 && 0 <= g.g3 < 16 by {
      assert Slots(g)[0] == g.g0 && Slots(g)[1] == g.g1 && Slots(g)[2] == g.g2 && Slots(g)[3] == g.g3;
    }
    GroupBytesClampRoundTrip(g);
  }

  /** And every pair of bytes is the encoding of what it decodes to. */
  lemma GroupBytesDecodeEncode(byte1: byte, byte2: byte)
    ensures ToGroupBytes(FromGroupBytes(byte1, byte2)) == (byte1, byte2)
  {
  }

  // ---------------------------------------------------------------------------
  // Group word <-> letter string (src/utils/converters.js). Nibble i of the
  // word is a group number 1..15, shown as the letter '@' + n; nibble 0 is the
  // rightmost letter.

  function Pow16(i: nat): (p: nat)
    ensures p > 0
  {
    if i == 0 then 1 else 16 * Pow16(i - 1)
  }

  /** (w >> 4i) & 0xF for i = 0..3. */
  function Nibbles(w: u16): (ns: seq<int>)
    ensures |ns| == 4 && forall k :: 0 <= k < 4 ==> 0 <= ns[k] < 16
  {
    [w % 16, (w / 16) % 16, (w / 256) % 16, (w / 4096) % 16]
  }

  /** The word whose nibble i is ns[i]. */
  function Pack(ns: seq<int>): int
  {
    if ns == [] then 0 else Pack(ns[..|ns| - 1]) + ns[|ns| - 1] * Pow16(|ns| - 1)
  }

  function Reverse<T>(s: seq<T>): (r: seq<T>)
    ensures |r| == |s| && forall i :: 0 <= i < |s| ==> r[i] == s[|s| - 1 - i]
  {
    if s == [] then [] else [s[|s| - 1]] + Reverse(s[..|s| - 1])
  }

  function LetterOf(n: int): char
  {
    if 1 <= n <= 15 then (64 + n) as char else '@'
  }

  /** charCodeAt(0) - 64, kept only when it is 1..15. */
  function ValueOf(c: char): (v: int)
    ensures 0 <= v < 16
  {
    var v := c as int - 64;
    if 0 < v < 16 then v else 0
  }

  predicate IsGroupLetter(c: char)
  {
    'A' <= c <= 'O'
  }

  function Letters(ns: seq<int>): (r: string)
    ensures |r| == |ns| && forall i :: 0 <= i < |ns| ==> r[i] == LetterOf(ns[i])
  {
    seq(|ns|, i requires 0 <= i < |ns| => LetterOf(ns[i]))
  }

  function Values(s: string): (r: seq<int>)
    ensures |r| == |s| && forall i :: 0 <= i < |s| ==> r[i] == ValueOf(s[i])
  {
    seq(|s|, i requires 0 <= i < |s| => ValueOf(s[i]))
  }

  /** What toGroupString returns: the letters of the non-zero nibbles, the highest nibble first. */
  function GroupStringOf(w: int): (s: string)
    ensures |s| <= 4 && forall i :: 0 <= i < |s| ==> IsGroupLetter(s[i])
  {
    var ns := Nibbles(w % 0x1_0000);
    var d := NonZero(ns);
    assert forall k :: 0 <= k < |d| ==> 1 <= d[k] < 16 by {
      forall k | 0 <= k < |d|
        ensures 1 <= d[k] < 16
      {
        assert d[k] in d;
        assert d[k] in ns;
      }
    }
    Reverse(Letters(d))
  }

  /** The values of the last n characters of u, the rightmost first. */
  function RightValues(u: string, n: nat): (r: seq<int>)
    requires n <= |u|
    ensures |r| == n && forall j :: 0 <= j < n ==> r[j] == ValueOf(u[|u| - 1 - j])
  {
    seq(n, j requires 0 <= j < n => ValueOf(u[|u| - 1 - j]))
  }

  /** What toGroupWord returns: nibble i from the (i+1)-th character from the right of the
      upper-cased string, for the last four characters; other characters give 0. */
  function GroupWordOf(s: string): (w: int)
    ensures 0 <= w < 0x1_0000
  {
    WordOfUpper(UpperString(s))
  }

  /** The packing loop of toGroupWord over a string already upper-cased. */
  function WordOfUpper(u: string): (w: int)
    ensures 0 <= w < 0x1_0000
  {
    var r := RightValues(u, if |u| < 4 then |u| else 4);
    PackZeros(r, 4 - |r|);
    NibblesOfPack(r + Zeros(4 - |r|));
    Pack(r)
  }

  /** toGroupString: the loop prepends one letter per non-zero nibble, nibble 0 first. */
  method ToGroupString(groupw: int) returns (str: string)
    ensures str == GroupStringOf(groupw)
  {
    var w: u16 := groupw % 0x1_0000;
    var ns := Nibbles(w);
    str := PrependLetters(ns);
    GroupStringOfNonZero(groupw, NonZero(ns));
  }

  /** The loop of toGroupString over the four nibbles. */
  method PrependLetters(ns: seq<int>) returns (str: string)
    requires |ns| == 4 && forall k :: 0 <= k < 4 ==> 0 <= ns[k] < 16
    ensures str == Reverse(Letters(NonZero(ns)))
  {
    str := "";
    for i := 0 to 4
      invariant str == Reverse(Letters(NonZero(ns[..i])))
    {
      var nibble := ns[i];
      LetterStep(ns, i);
      if nibble > 0 && nibble < 16 {
        str := [LetterOf(nibble)] + str;
      }
    }
    assert ns[..4] == ns;
  }

  /** One more nibble: a non-zero one puts its letter in front. */
  lemma LetterStep(ns: seq<int>, i: nat)
    requires i < |ns|
    ensures Reverse(Letters(NonZero(ns[..i + 1])))
      == if ns[i] != 0 then [LetterOf(ns[i])] + Reverse(Letters(NonZero(ns[..i]))) else Reverse(Letters(NonZero(ns[..i])))
  {
    assert ns[..i + 1][..i] == ns[..i];
    var d := NonZero(ns[..i]);
    if ns[i] != 0 {
      assert NonZero(ns[..i + 1]) == d + [ns[i]];
      assert Letters(d + [ns[i]]) == Letters(d) + [LetterOf(ns[i])];
      ReverseSnoc(Letters(d), LetterOf(ns[i]));
    } else {
      assert NonZero(ns[..i + 1]) == d + [];
      assert d + [] == d;
    }
  }

  lemma ReverseSnoc<T>(s: seq<T>, x: T)
    ensures Reverse(s + [x]) == [x] + Reverse(s)
  {
    assert (s + [x])[..|s|] == s;
  }

  /** toGroupWord: the string upper-cased, then its last four characters packed. */
  method ToGroupWord(groupStr: string) returns (r: int)
    ensures r == GroupWordOf(groupStr)
    ensures 0 <= r < 0x1_0000
  {
    r := PackGroupWord(UpperString(groupStr));
  }

  /** The OR loop `word |= value << 4i` over the last four characters, rightmost first; the
      nibble written is still clear, so the OR adds. */
  method PackGroupWord(u: string) returns (r: int)
    ensures r == WordOfUpper(u)
  {
    var word := 0;
    var n := if |u| < 4 then |u| else 4;
    for i := 0 to n
      invariant word == Pack(RightValues(u, i))
      invariant 0 <= word < Pow16(i)
    {
      var value := u[|u| - 1 - i] as int - 64;
      PackStep(u, i);
      if value > 0 && value < 16 {
        word := word + value * Pow16(i);
      }
    }
    assert Pow16(n) <= Pow16(4) == 0x1_0000 by { PowMono(n, 4); }
    r := word % 0x1_0000;
  }

  /** One more character: its value lands in nibble i, above everything packed so far. */
  lemma PackStep(u: string, i: nat)
    requires i < |u| && 0 <= Pack(RightValues(u, i)) < Pow16(i)
    ensures Pack(RightValues(u, i + 1)) == Pack(RightValues(u, i)) + ValueOf(u[|u| - 1 - i]) * Pow16(i)
    ensures 0 <= Pack(RightValues(u, i + 1)) < Pow16(i + 1)
  {
    var x := RightValues(u, i + 1);
    var v := ValueOf(u[|u| - 1 - i]);
    var a := Pack(RightValues(u, i));
    var p := Pow16(i);
    assert Pack(x) == a + v * p by {
      assert x[..i] == RightValues(u, i);
    }
    assert Pow16(i + 1) == 16 * p;
    assert a + v * p < 16 * p by { MulMono(v, 15, p); }
  }

  lemma {:induction false} PowMono(i: nat, j: nat)
    requires i <= j
    ensures Pow16(i) <= Pow16(j)
  {
    if i < j {
      PowMono(i, j - 1);
    }
  }

  lemma {:induction false} PackZeros(ns: seq<int>, z: nat)
    ensures Pack(ns + Zeros(z)) == Pack(ns)
  {
    if z > 0 {
      var t := ns + Zeros(z);
      assert t[..|t| - 1] == ns + Zeros(z - 1);
      PackZeros(ns, z - 1);
    } else {
      assert ns + Zeros(z) == ns;
    }
  }

  lemma PackFour(ns: seq<int>)
    requires |ns| == 4
    ensures Pack(ns) == ns[0] + 16 * ns[1] + 256 * ns[2] + 4096 * ns[3]
  {
    assert Pow16(1) == 16 && Pow16(2) == 256 && Pow16(3) == 4096;
    assert ns[..3][..2] == ns[..2] && ns[..2][..1] == ns[..1] && ns[..1][..0] == [];
    assert Pack(ns[..1]) == ns[0];
    assert Pack(ns[..2]) == ns[0] + 16 * ns[1];
    assert Pack(ns[..3]) == ns[0] + 16 * ns[1] + 256 * ns[2];
  }

  /** Pack and Nibbles are inverse on four nibbles. */
  lemma NibblesOfPack(ns: seq<int>)
    requires |ns| == 4 && forall k :: 0 <= k < 4 ==> 0 <= ns[k] < 16
    ensures 0 <= Pack(ns) < 0x1_0000
    ensures Nibbles(Pack(ns)) == ns
  {
    PackFour(ns);
    var a, b, c, d := ns[0], ns[1], ns[2], ns[3];
    var v := a + 16 * b + 256 * c + 4096 * d;
    DivMod(b + 16 * c + 256 * d, a, 16);
    DivMod(c + 16 * d, a + 16 * b, 256);
    DivMod(d, a + 16 * b + 256 * c, 4096);
    DivMod(c + 16 * d, b, 16);
    DivMod(d, c, 16);
    DivMod(0, d, 16);
  }

  lemma PackOfNibbles(w: u16)
    ensures Pack(Nibbles(w)) == w
  {
    PackFour(Nibbles(w));
    DivModIdentity(w, 16);
    DivModIdentity(w / 16, 16);
    DivModIdentity(w / 256, 16);
    assert w / 16 / 16 == w / 256;
    assert w / 256 / 16 == w / 4096;
    assert w / 4096 < 16;
  }

  /** A string of letters A..O is its own upper case. */
  lemma {:induction false} UpperGroupLetters(s: string)
    requires forall i :: 0 <= i < |s| ==> IsGroupLetter(s[i])
    ensures UpperString(s) == s
  {
    if s != [] {
      UpperGroupLetters(s[..|s| - 1]);
      assert s[..|s| - 1] + [s[|s| - 1]] == s;
    }
  }

  lemma GroupStringOfNonZero(w: int, d: seq<int>)
    requires NonZero(Nibbles(w % 0x1_0000)) == d
    ensures GroupStringOf(w) == Reverse(Letters(d))
  {
  }

  function LetterWordNibbles(s: string): (ns: seq<int>)
    requires |s| <= 4
    ensures |ns| == 4
  {
    RightValues(s, |s|) + Zeros(4 - |s|)
  }

  lemma LetterWord(s: string)
    requires |s| <= 4 && forall i :: 0 <= i < |s| ==> IsGroupLetter(s[i])
    ensures GroupWordOf(s) == Pack(LetterWordNibbles(s))
    ensures NonZero(Nibbles(Pack(LetterWordNibbles(s)) % 0x1_0000)) == RightValues(s, |s|)
  {
    LetterWordPacks(s);
    LetterWordNonZero(s);
  }

  lemma LetterWordPacks(s: string)
    requires |s| <= 4 && forall i :: 0 <= i < |s| ==> IsGroupLetter(s[i])
    ensures GroupWordOf(s) == Pack(LetterWordNibbles(s))
  {
    UpperGroupLetters(s);
    assert GroupWordOf(s) == WordOfUpper(s);
    PackZeros(RightValues(s, |s|), 4 - |s|);
  }

  lemma LetterWordNonZero(s: string)
    requires |s| <= 4 && forall i :: 0 <= i < |s| ==> IsGroupLetter(s[i])
    ensures NonZero(Nibbles(Pack(LetterWordNibbles(s)) % 0x1_0000)) == RightValues(s, |s|)
  {
    PaddedNibbles(s);
    PaddedNonZero(s);
  }

  lemma LetterValuesInRange(s: string)
    requires forall i :: 0 <= i < |s| ==> IsGroupLetter(s[i])
    ensures forall k :: 0 <= k < |s| ==> 1 <= RightValues(s, |s|)[k] < 16
  {
    forall k | 0 <= k < |s|
      ensures 1 <= RightValues(s, |s|)[k] < 16
    {
      assert IsGroupLetter(s[|s| - 1 - k]);
    }
  }

  lemma PaddedNibbles(s: string)
    requires |s| <= 4 && forall i :: 0 <= i < |s| ==> IsGroupLetter(s[i])
    ensures Nibbles(Pack(LetterWordNibbles(s)) % 0x1_0000) == LetterWordNibbles(s)
  {
    var padded := LetterWordNibbles(s);
    LetterValuesInRange(s);
    assert forall k :: 0 <= k < 4 ==> 0 <= padded[k] < 16;
    NibblesOfPack(padded);
    var w := Pack(padded);
    assert w % 0x1_0000 == w;
  }

  lemma PaddedNonZero(s: string)
    requires |s| <= 4 && forall i :: 0 <= i < |s| ==> IsGroupLetter(s[i])
    ensures NonZero(LetterWordNibbles(s)) == RightValues(s, |s|)
  {
    var ms := RightValues(s, |s|);
    var z: seq<int> := Zeros(4 - |ms|);
    assert LetterWordNibbles(s) == ms + z;
    LetterValuesInRange(s);
    NonZeroAppend(ms, z);
    NonZeroOfZeros(4 - |ms|);
    NonZeroOfNonZero(ms);
    assert NonZero(ms) + NonZero(z) == ms;
  }

  lemma LettersOfRightValues(s: string)
    requires forall i :: 0 <= i < |s| ==> IsGroupLetter(s[i])
    ensures Reverse(Letters(RightValues(s, |s|))) == s
  {
    var ms := RightValues(s, |s|);
    var ls := Letters(ms);
    forall j | 0 <= j < |s|
      ensures Reverse(ls)[j] == s[j]
    {
      var k := |s| - 1 - j;
      assert ms[k] == ValueOf(s[j]);
      assert ls[k] == LetterOf(ms[k]);
      LetterOfValue(s[j]);
    }
  }

  lemma LetterOfValue(c: char)
    requires IsGroupLetter(c)
    ensures LetterOf(ValueOf(c)) == c
  {
  }

  /** toGroupString(toGroupWord(s)) = s for upper-case strings of at most four letters A..O. */
  lemma GroupStringWordRoundTrip(s: string)
    requires |s| <= 4 && forall i :: 0 <= i < |s| ==> IsGroupLetter(s[i])
    ensures GroupStringOf(GroupWordOf(s)) == s
  {
    LetterWord(s);
    GroupStringOfNonZero(Pack(LetterWordNibbles(s)), RightValues(s, |s|));
    LettersOfRightValues(s);
  }

  /** toGroupWord(toGroupString(w)) squeezes out the unused nibbles: it is the word of the
      compacted nibbles. */
  lemma GroupWordStringCompacts(w: u16)
    ensures GroupWordOf(GroupStringOf(w))
         == Pack(Slots(Compacted(FromSlots(Nibbles(w)))))
  {
    assert w % 0x1_0000 == w;
    GroupStringOfNonZero(w, NonZero(Nibbles(w)));
    CompactedWord(Nibbles(w));
  }

  /** The letters of the non-zero nibbles pack to the word of the compacted slots. */
  lemma CompactedWord(ns: seq<int>)
    requires |ns| == 4 && forall k :: 0 <= k < |ns| ==> 0 <= ns[k] < 16
    ensures GroupWordOf(Reverse(Letters(NonZero(ns)))) == Pack(Slots(Compacted(FromSlots(ns))))
  {
    NonZeroNibbles(ns);
    ValuesOfLetters(NonZero(ns));
    CompactedPack(ns);
  }

  /** Compacting drops only zero nibbles, which add nothing to the word. */
  lemma CompactedPack(ns: seq<int>)
    requires |ns| == 4
    ensures Pack(Slots(Compacted(FromSlots(ns)))) == Pack(NonZero(ns))
  {
    var d := NonZero(ns);
    SlotsOfCompacted(ns);
    PackZeros(d, 4 - |d|);
  }

  lemma NonZeroNibbles(ns: seq<int>)
    requires forall k :: 0 <= k < |ns| ==> 0 <= ns[k] < 16
    ensures forall k :: 0 <= k < |NonZero(ns)| ==> 1 <= NonZero(ns)[k] < 16
  {
    var d := NonZero(ns);
    forall k | 0 <= k < |d|
      ensures 1 <= d[k] < 16
    {
      assert d[k] in ns;
    }
  }

  lemma SlotsOfCompacted(ns: seq<int>)
    requires |ns| == 4
    ensures Slots(Compacted(FromSlots(ns))) == NonZero(ns) + Zeros(4 - |NonZero(ns)|)
  {
    assert Slots(FromSlots(ns)) == ns;
  }

  /** Reading the letters back, right to left, gives the group numbers. */
  lemma ValuesOfLetters(d: seq<int>)
    requires |d| <= 4 && forall k :: 0 <= k < |d| ==> 1 <= d[k] < 16
    ensures GroupWordOf(Reverse(Letters(d))) == Pack(d)
  {
    var t := Reverse(Letters(d));
    LettersAreGroupLetters(d);
    UpperGroupLetters(t);
    RightValuesOfLetters(d);
  }

  lemma LettersAreGroupLetters(d: seq<int>)
    requires forall k :: 0 <= k < |d| ==> 1 <= d[k] < 16
    ensures forall i :: 0 <= i < |d| ==> IsGroupLetter(Reverse(Letters(d))[i])
  {
    var t := Reverse(Letters(d));
    forall i | 0 <= i < |t|
      ensures IsGroupLetter(t[i])
    {
      assert t[i] == LetterOf(d[|d| - 1 - i]);
    }
  }

  lemma RightValuesOfLetters(d: seq<int>)
    requires forall k :: 0 <= k < |d| ==> 1 <= d[k] < 16
    ensures RightValues(Reverse(Letters(d)), |d|) == d
  {
    var t := Reverse(Letters(d));
    var vs := RightValues(t, |t|);
    forall j | 0 <= j < |d|
      ensures vs[j] == d[j]
    {
      assert t[|t| - 1 - j] == Letters(d)[j];
    }
  }

  /** So the round trip returns w exactly when w's groups sit in the lowest nibbles. */
  lemma GroupWordStringRoundTrip(w: u16)
    ensures GroupWordOf(GroupStringOf(w)) == w <==> IsCompact(Nibbles(w))
  {
    var ns := Nibbles(w);
    var g := FromSlots(ns);
    GroupWordStringCompacts(w);
    CompactedFixedPoints(g);
    PackOfNibbles(w);
    var c := Slots(Compacted(g));
    var d := NonZero(ns);
    assert c == d + Zeros(4 - |d|);
    forall k | 0 <= k < 4
      ensures 0 <= c[k] < 16
    {
      if k < |d| {
        assert d[k] in ns;
      }
    }
    NibblesOfPack(c);
    if Pack(c) == w {
      assert c == ns;
    }
  }

  /** Nibbles 0 and 2 in use, nibble 1 free: the word 0x0301 reads as "CA". */
  lemma GroupStringGapExample()
    ensures GroupStringOf(0x0301) == "CA"
  {
    NonZeroExample();
    GroupStringOfNonZero(0x0301, [1, 3]);
    assert Letters([1, 3]) == "AC";
  }

  /** ... and "CA" comes back as 0x0031, not 0x0301: the free nibble is closed up. */
  lemma GroupWordGapExample()
    ensures GroupWordOf(GroupStringOf(0x0301)) == 0x0031
  {
    NonZeroExample();
    GroupWordStringCompacts(0x0301);
    SlotsOfCompacted(Nibbles(0x0301));
    assert [1, 3] + Zeros(2) == [1, 3, 0, 0];
    PackFour([1, 3, 0, 0]);
  }

  /** toUpperCase is the full Unicode one and can lengthen the string: "a\u00DF" becomes
      "ASS", so group A lands in nibble 2 and the two S are no group. */
  lemma SharpSExample()
    ensures GroupWordOf("a\U{00DF}") == 0x0100
  {
    assert UpperCase('a') == "A";
    assert UpperCase('\U{00DF}') == "SS";
    assert "a\U{00DF}"[..1] == "a" && "a"[..0] == "";
    assert UpperString("a\U{00DF}") == "ASS";
    assert RightValues("ASS", 3) == [0, 0, 1];
    assert [0, 0, 1][..2] == [0, 0] && [0, 0][..1] == [0];
    assert Pow16(2) == 256;
    assert Pack([0, 0, 1]) == 0x0100;
  }

  /** Dotless i upper-cases to 'I', group 9. */
  lemma DotlessIExample()
    ensures GroupWordOf("\U{0131}") == 9
  {
    assert UpperCase('\U{0131}') == "I";
    assert UpperString("\U{0131}") == "I";
    assert RightValues("I", 1) == [9];
    assert Pack([9]) == 9;
  }

  /** The ff ligature upper-cases to "FF", two groups F. */
  lemma LigatureExample()
    ensures GroupWordOf("\U{FB00}") == 0x66
  {
    assert UpperCase('\U{FB00}') == "FF";
    assert UpperString("\U{FB00}") == "FF";
    assert RightValues("FF", 2) == [6, 6];
    assert [6, 6][..1] == [6];
    assert Pack([6, 6]) == 0x66;
  }

  lemma NonZeroExample()
    ensures NonZero(Nibbles(0x0301)) == [1, 3]
  {
    var ns := Nibbles(0x0301);
    assert ns == [1, 0, 3, 0];
    assert ns[..3] == [1, 0, 3];
    assert [1, 0, 3][..2] == [1, 0];
    assert [1, 0][..1] == [1];
    assert [1][..0] == [];
    assert NonZero([1]) == [1];
    assert NonZero([1, 0]) == [1];
    assert NonZero([1, 0, 3]) == [1, 3];
  }

  // ---------------------------------------------------------------------------
  // Sub-tone word and string. A word w in 1..3000 is a CTCSS tone in tenths of
  // a hertz; otherwise bits 0..13 hold a DCS code, bit 14 marks DCS and bit 15
  // an inverted code.

  const MAX_CTCSS: int := 3000
  const DCS_FLAG: int := 0x4000
  const INVERT_FLAG: int := 0x8000

  /** toToneString (toFixed(1) of w / 10 is the decimal digits of w with a point before the last). */
  function ToneString(w: u16): string
  {
    if w == 0 then "Off"
    else if w <= MAX_CTCSS then DecimalString(w / 10) + "." + [DigitChar(w % 10)]
    else "DCS " + PadStart(OctalString(w % DCS_FLAG), 3, '0') + (if w >= INVERT_FLAG then "I" else "N")
  }

  /** The leftmost index at or after p holding an ASCII digit. */
  function FirstDigit(s: string, p: nat): (r: Option<nat>)
    requires p <= |s|
    ensures r.Some? ==> p <= r.value < |s| && IsDigit(s[r.value])
    ensures r.Some? ==> forall i :: p <= i < r.value ==> !IsDigit(s[i])
    ensures r.None? ==> forall i :: p <= i < |s| ==> !IsDigit(s[i])
    decreases |s| - p
  {
    if p == |s| then None else if IsDigit(s[p]) then Some(p) else FirstDigit(s, p + 1)
  }

  /** The length of the longest run of characters satisfying the class, from p: a greedy
      \d+ or \s+ (which give back nothing here, since what follows cannot be in the class). */
  function DigitRun(s: string, p: nat): (n: nat)
    requires p <= |s|
    ensures p + n <= |s| && (forall i :: p <= i < p + n ==> IsDigit(s[i]))
    ensures p + n == |s| || !IsDigit(s[p + n])
    decreases |s| - p
  {
    if p < |s| && IsDigit(s[p]) then 1 + DigitRun(s, p + 1) else 0
  }

  function SpaceRun(s: string, p: nat): (n: nat)
    requires p <= |s|
    ensures p + n <= |s| && (forall i :: p <= i < p + n ==> IsSpace(s[i]))
    ensures p + n == |s| || !IsSpace(s[p + n])
    decreases |s| - p
  {
    if p < |s| && IsSpace(s[p]) then 1 + SpaceRun(s, p + 1) else 0
  }

  /**
   * The CTCSS attempt: /(?:ctcss\s+)?(\d+(?:\.\d+)?)/i matches wherever a digit
   * occurs, and its capture always starts at the first digit of the string (an
   * optional "ctcss " prefix only moves the match start, not the capture). The
   * capture is parsed and Math.round(x * 10) taken, in exact decimal: the first
   * fractional digit is tenths and the second rounds half up.
   */
  function CtcssTone(s: string): Option<int>
  {
    match FirstDigit(s, 0)
    case None => None
    case Some(d) =>
      var k := DigitRun(s, d);
      var whole := DigitsValue(s[d..d + k], 10);
      var e := d + k;
      if e + 1 < |s| && s[e] == '.' && IsDigit(s[e + 1]) then
        var m := DigitRun(s, e + 1);
        var up := if m >= 2 && DigitOf(s[e + 2]) >= 5 then 1 else 0;
        Some(whole * 10 + DigitOf(s[e + 1]) + up)
      else
        Some(whole * 10)
  }

  /** /dcs\s+(\d+)([NI])/i tried at position q: the digits and whether the suffix is I. */
  function DcsAt(s: string, q: nat): Option<(string, bool)>
    requires q <= |s|
  {
    if !MatchesAt(s, q, "dcs") then None
    else
      var w := SpaceRun(s, q + 3);
      var k := DigitRun(s, q + 3 + w);
      var e := q + 3 + w + k;
      if w >= 1 && k >= 1 && e < |s| && (Lower(s[e]) == 'n' || Lower(s[e]) == 'i') then
        Some((s[q + 3 + w..e], Lower(s[e]) == 'i'))
      else None
  }

  /** The leftmost DCS match at or after q. */
  function DcsMatch(s: string, q: nat): Option<(string, bool)>
    requires q <= |s|
    decreases |s| - q
  {
    if q == |s| then None
    else match DcsAt(s, q)
      case Some(m) => Some(m)
      case None => DcsMatch(s, q + 1)
  }

  predicate IsOctalDigit(c: char)
  {
    '0' <= c <= '7'
  }

  function OctalRun(s: string): (n: nat)
    ensures n <= |s| && forall i :: 0 <= i < n ==> IsOctalDigit(s[i])
    ensures n == |s| || !IsOctalDigit(s[n])
  {
    if s != [] && IsOctalDigit(s[0]) then 1 + OctalRun(s[1..]) else 0
  }

  /** parseInt(digits, 8): the value of the longest octal prefix, or NaN (None) if there is none. */
  function ParseOctal(digits: string): Option<nat>
  {
    var n := OctalRun(digits);
    if n == 0 then None else Some(DigitsValue(digits[..n], 8))
  }

  predicate IsOff(s: string)
  {
    |s| == 3 && MatchesAt(s, 0, "off")
  }

  /** toToneWord. */
  function ToneWord(s: string): (w: u16)
    ensures s == [] || IsOff(s) ==> w == 0
    ensures w == 0 || 1 <= w <= MAX_CTCSS || (w / DCS_FLAG) % 2 == 1
  {
    if s == [] || IsOff(s) then 0
    else
      var tone := CtcssTone(s);
      if tone.Some? && 0 < tone.value <= MAX_CTCSS then tone.value
      else match DcsMatch(s, 0)
        case None => 0
        case Some((digits, invert)) =>
          match ParseOctal(digits)
          case None => 0
          case Some(code) =>
            if code <= 0x3FFF then DCS_FLAG + (if invert then INVERT_FLAG else 0) + code else 0
  }

  lemma DigitRunIs(s: string, p: nat, n: nat)
    requires p + n <= |s| && (forall i :: p <= i < p + n ==> IsDigit(s[i]))
    requires p + n == |s| || !IsDigit(s[p + n])
    ensures DigitRun(s, p) == n
    decreases n
  {
    if n > 0 {
      DigitRunIs(s, p + 1, n - 1);
    }
  }

  /** Off comes back as Off. */
  lemma ToneOffRoundTrip()
    ensures ToneWord(ToneString(0)) == 0
  {
    assert IsOff("Off");
  }

  /** toToneWord(toToneString(w)) = w for every CTCSS tone word 1..3000. */
  lemma CtcssRoundTrip(w: u16)
    requires 1 <= w <= MAX_CTCSS
    ensures ToneWord(ToneString(w)) == w
  {
    CtcssStringTone(w);
    ToneWordCtcss(ToneString(w), w);
  }

  /** The CTCSS string of w reads back as w tenths of a hertz. */
  lemma CtcssStringTone(w: u16)
    requires 1 <= w <= MAX_CTCSS
    ensures var s := ToneString(w); s != [] && !IsOff(s) && CtcssTone(s) == Some(w)
  {
    assert ToneString(w) == DecimalString(w / 10) + "." + [DigitChar(w % 10)];
    DecimalPointTone(w / 10, w % 10);
    assert (w / 10) * 10 + w % 10 == w;
  }

  /** Whole hertz in decimal, a point and one digit of tenths read back as that many tenths. */
  lemma DecimalPointTone(whole: nat, tenths: nat)
    requires tenths < 10
    ensures var s := DecimalString(whole) + "." + [DigitChar(tenths)];
      s != [] && !IsOff(s) && CtcssTone(s) == Some(whole * 10 + tenths)
  {
    var q := DecimalString(whole);
    var s := q + "." + [DigitChar(tenths)];
    var e := |q|;
    assert s[e] == '.' && s[e + 1] == DigitChar(tenths);
    assert !IsOff(s) by { assert Lower(s[0 + 0]) != "off"[0]; }
    assert FirstDigit(s, 0) == Some(0) by { assert IsDigit(s[0]); }
    DigitRunIs(s, 0, e);
    DigitRunIs(s, e + 1, 1);
    assert s[0..e] == q;
    DigitsValueOfNat(whole, 10);
    CtcssToneIs(s, e, whole, tenths);
  }

  /** The CTCSS attempt on digits from 0 to e, a point and one more digit. */
  lemma CtcssToneIs(s: string, e: nat, whole: nat, tenths: nat)
    requires e + 2 == |s| && FirstDigit(s, 0) == Some(0) && DigitRun(s, 0) == e && DigitRun(s, e + 1) == 1
    requires DigitsValue(s[0..e], 10) == whole && s[e] == '.' && IsDigit(s[e + 1]) && DigitOf(s[e + 1]) == tenths
    ensures CtcssTone(s) == Some(whole * 10 + tenths)
  {
  }

  /** A tone the CTCSS attempt reads in range is the result. */
  lemma ToneWordCtcss(s: string, t: int)
    requires s != [] && !IsOff(s) && CtcssTone(s) == Some(t) && 0 < t <= MAX_CTCSS
    ensures ToneWord(s) == t
  {
  }

  function DcsDigits(w: u16): string
  {
    PadStart(OctalString(w % DCS_FLAG), 3, '0')
  }

  lemma DcsDigitsFacts(w: u16)
    ensures AllDigits(DcsDigits(w))
    ensures |DcsDigits(w)| >= 3
    ensures forall i :: 0 <= i < |DcsDigits(w)| ==> IsOctalDigit(DcsDigits(w)[i])
    ensures DigitsValue(DcsDigits(w), 8) == w % DCS_FLAG
  {
    var o := OctalString(w % DCS_FLAG);
    var z := if |o| >= 3 then 0 else 3 - |o|;
    assert DcsDigits(w) == seq(z, _ => '0') + o;
    DigitsValueLeadingZeros(z, o, 8);
    DigitsValueOfNat(w % DCS_FLAG, 8);
  }

  /**
   * A DCS word w > 3000 makes the string "DCS ddd" + N or I. The CTCSS attempt
   * reads ddd as a decimal number first: when that number is 1..300 the result
   * is a CTCSS tone of ten times it; otherwise the DCS branch decodes the octal
   * code, so the word comes back with bit 14 set, its inversion bit and its code.
   */
  lemma DcsRoundTrip(w: u16)
    requires w > MAX_CTCSS
    ensures var v := DigitsValue(DcsDigits(w), 10);
      ToneWord(ToneString(w))
      == if 1 <= v <= 300 then v * 10
         else DCS_FLAG + (if w >= INVERT_FLAG then INVERT_FLAG else 0) + w % DCS_FLAG
  {
    DcsDigitsFacts(w);
    var dd := DcsDigits(w);
    var invert := w >= INVERT_FLAG;
    var s := "DCS " + dd + (if invert then "I" else "N");
    assert ToneString(w) == s;
    DcsStringCtcss(dd, invert);
    var v := DigitsValue(dd, 10);
    if 1 <= v <= 300 {
      ToneWordCtcss(s, v * 10);
    } else {
      DcsStringDcs(dd, invert);
      ParseOctalAll(dd);
      ToneWordDcsPath(s, dd, invert, w % DCS_FLAG);
    }
  }

  /** When the CTCSS attempt gives nothing in range, the DCS match decides. */
  lemma ToneWordDcsPath(s: string, dd: string, invert: bool, code: nat)
    requires s != [] && !IsOff(s)
    requires CtcssTone(s).None? || !(0 < CtcssTone(s).value <= MAX_CTCSS)
    requires DcsMatch(s, 0) == Some((dd, invert)) && ParseOctal(dd) == Some(code)
    ensures ToneWord(s) == if code <= 0x3FFF then DCS_FLAG + (if invert then INVERT_FLAG else 0) + code else 0
  {
  }

  /** The CTCSS attempt on "DCS " + digits + suffix reads the digits as a decimal number. */
  lemma DcsStringCtcss(dd: string, invert: bool)
    requires dd != [] && AllDigits(dd)
    ensures var s := "DCS " + dd + (if invert then "I" else "N");
      !IsOff(s) && s != [] && CtcssTone(s) == Some(DigitsValue(dd, 10) * 10)
  {
    var s := "DCS " + dd + (if invert then "I" else "N");
    var e := 4 + |dd|;
    assert |s| == e + 1;
    assert !IsDigit(s[e]) && s[e] != '.';
    assert FirstDigit(s, 0) == Some(4) by {
      assert IsDigit(s[4]) by { assert s[4] == dd[0]; }
      assert FirstDigit(s, 3) == Some(4);
      assert FirstDigit(s, 2) == Some(4);
      assert FirstDigit(s, 1) == Some(4);
    }
    forall i | 4 <= i < e
      ensures IsDigit(s[i])
    {
      assert s[i] == dd[i - 4];
    }
    DigitRunIs(s, 4, |dd|);
    assert s[4..e] == dd;
  }

  /** The DCS pattern matches "DCS " + digits + suffix at its very start. */
  lemma DcsStringDcs(dd: string, invert: bool)
    requires dd != [] && AllDigits(dd)
    ensures DcsMatch("DCS " + dd + (if invert then "I" else "N"), 0) == Some((dd, invert))
  {
    var s := "DCS " + dd + (if invert then "I" else "N");
    DcsFields(dd, invert);
    assert s[4 + |dd|] == if invert then 'I' else 'N';
    assert DcsAt(s, 0) == Some((dd, invert));
  }

  /** The pieces of a DCS string the pattern matches: the prefix, one space, then the digits. */
  lemma DcsFields(dd: string, invert: bool)
    requires dd != [] && AllDigits(dd)
    ensures var s := "DCS " + dd + (if invert then "I" else "N");
      MatchesAt(s, 0, "dcs") && SpaceRun(s, 3) == 1 && DigitRun(s, 4) == |dd| && s[4..4 + |dd|] == dd
  {
    var s := "DCS " + dd + (if invert then "I" else "N");
    var e := 4 + |dd|;
    assert MatchesAt(s, 0, "dcs");
    assert SpaceRun(s, 3) == 1 by {
      assert IsSpace(s[3]);
      assert !IsSpace(s[4]) by { assert s[4] == dd[0]; }
    }
    forall i | 4 <= i < e
      ensures IsDigit(s[i])
    {
      assert s[i] == dd[i - 4];
    }
    DigitRunIs(s, 4, |dd|);
    assert s[4..e] == dd;
  }

  lemma ParseOctalAll(s: string)
    requires s != [] && AllDigits(s) && forall i :: 0 <= i < |s| ==> IsOctalDigit(s[i])
    ensures ParseOctal(s) == Some(DigitsValue(s, 8))
  {
    OctalRunAll(s);
    assert s[..|s|] == s;
  }

  lemma {:induction false} OctalRunAll(s: string)
    requires forall i :: 0 <= i < |s| ==> IsOctalDigit(s[i])
    ensures OctalRun(s) == |s|
  {
    if s != [] {
      OctalRunAll(s[1..]);
    }
  }

  /** DCS 023N (code 19, word 0x4013) is read back as the CTCSS tone 23.0 Hz. */
  lemma DcsShadowExample()
    ensures ToneString(0x4013) == "DCS 023N"
    ensures ToneWord("DCS 023N") == 230
  {
    DcsShadowString();
    DcsRoundTrip(0x4013);
    assert DigitsValue("023", 10) == 23 by {
      assert "023"[..2] == "02";
      assert "02"[..1] == "0";
      assert "0"[..0] == "";
    }
  }

  /** Word 0x4013 prints as DCS 023N. */
  lemma DcsShadowString()
    ensures DcsDigits(0x4013) == "023" && ToneString(0x4013) == "DCS 023N"
  {
    assert OctalString(19) == "23" by {
      assert OctalString(2) == "2";
    }
    assert PadStart("23", 3, '0') == "023";
    assert AllDigits("023");
  }
}
