/**
 * Channel group membership (src/utils/groups.ts): a channel belongs to up to
 * four scan groups g0..g3, 0 meaning "no group". compactGroups moves the
 * groups in use to the lowest slots.
 */
module Groups {
  import opened Bytes


  datatype ChannelGroups = ChannelGroups(g0: int, g1: int, g2: int, g3: int)

  function Slots(g: ChannelGroups): (s: seq<int>)
    ensures |s| == 4
  {
    [g.g0, g.g1, g.g2, g.g3]
  }

  function FromSlots(s: seq<int>): (g: ChannelGroups)
    requires |s| == 4
    ensures Slots(g) == s
  {
    ChannelGroups(s[0], s[1], s[2], s[3])
  }

  /** The filter `g => g !== 0`, keeping order. */
  function NonZero(s: seq<int>): (r: seq<int>)
    ensures |r| <= |s|
    ensures forall i :: 0 <= i < |r| ==> r[i] != 0
    ensures forall x :: x in r ==> x in s
  {
    if s == [] then [] else NonZero(s[..|s| - 1]) + (if s[|s| - 1] != 0 then [s[|s| - 1]] else [])
  }

  /** No slot in use after an unused one. */
  predicate IsCompact(s: seq<int>)
  {
    forall i, j :: 0 <= i < j < |s| && s[i] == 0 ==> s[j] == 0
  }

  /** The result compactGroups promises: the groups in use, in order, then zeros. */
  function Compacted(g: ChannelGroups): ChannelGroups
  {
    var d := NonZero(Slots(g));
    FromSlots(d + Zeros(4 - |d|))
  }

  /** compactGroups: the forEach assigns definedGroups[index] to slot g<index>. */
  method CompactGroups(g: ChannelGroups) returns (c: ChannelGroups)
    ensures c == Compacted(g)
  {
    var defined := NonZero(Slots(g));
    var slots := [0, 0, 0, 0];
    var index := 0;
    while index < |defined|
      invariant 0 <= index <= |defined|
      invariant |slots| == 4
      invariant slots[..index] == defined[..index]
      invariant forall k :: index <= k < 4 ==> slots[k] == 0
    {
      slots := slots[index := defined[index]];
      index := index + 1;
    }
    assert slots == defined + Zeros(4 - |defined|);
    c := FromSlots(slots);
  }

  lemma {:induction false} NonZeroAppend(a: seq<int>, b: seq<int>)
    ensures NonZero(a + b) == NonZero(a) + NonZero(b)
    decreases |b|
  {
    if b == [] {
      assert a + b == a;
    } else {
      assert (a + b)[..|a + b| - 1] == a + b[..|b| - 1];
      NonZeroAppend(a, b[..|b| - 1]);
    }
  }

  lemma {:induction false} NonZeroOfZeros(n: nat)
    ensures NonZero(Zeros(n)) == []
  {
    if n > 0 {
      assert Zeros(n)[..n - 1] == Zeros(n - 1);
      NonZeroOfZeros(n - 1);
    }
  }

  lemma {:induction false} NonZeroOfNonZero(s: seq<int>)
    requires forall i :: 0 <= i < |s| ==> s[i] != 0
    ensures NonZero(s) == s
  {
    if s != [] {
      NonZeroOfNonZero(s[..|s| - 1]);
    }
  }

  /** The groups in use keep their values and their order. */
  lemma CompactedKeepsGroupsInOrder(g: ChannelGroups)
    ensures NonZero(Slots(Compacted(g))) == NonZero(Slots(g))
  {
    var d := NonZero(Slots(g));
    NonZeroAppend(d, Zeros(4 - |d|));
    NonZeroOfZeros(4 - |d|);
    NonZeroOfNonZero(d);
  }

  /** So the count of groups in use and their multiset are the same. */
  lemma CompactedKeepsCountAndMultiset(g: ChannelGroups)
    ensures |NonZero(Slots(Compacted(g)))| == |NonZero(Slots(g))|
    ensures multiset(NonZero(Slots(Compacted(g)))) == multiset(NonZero(Slots(g)))
  {
    CompactedKeepsGroupsInOrder(g);
  }

  /** Every slot of the compacted groups is 0 or one of the original groups. */
  lemma CompactedDrawsFromSlots(g: ChannelGroups)
    ensures forall k :: 0 <= k < 4 ==> Slots(Compacted(g))[k] == 0 || Slots(Compacted(g))[k] in Slots(g)
  {
    var d := NonZero(Slots(g));
    var s := d + Zeros(4 - |d|);
    assert Slots(Compacted(g)) == s;
    forall k | 0 <= k < 4
      ensures s[k] == 0 || s[k] in Slots(g)
    {
      if k < |d| {
        assert s[k] == d[k] && d[k] in d;
      }
    }
  }

  /** The groups in use occupy the lowest slots. */
  lemma CompactedIsCompact(g: ChannelGroups)
    ensures IsCompact(Slots(Compacted(g)))
  {
  }

  /** IsCompact(s) is exactly "s lists its non-zero values, then zeros". */
  lemma {:induction false} CompactLayout(s: seq<int>)
    requires IsCompact(s)
    ensures s == NonZero(s) + Zeros(|s| - |NonZero(s)|)
  {
    if s != [] {
      var init := s[..|s| - 1];
      assert IsCompact(init);
      CompactLayout(init);
      if s[|s| - 1] == 0 {
        assert s == init + [0];
      } else {
        forall i | 0 <= i < |init|
          ensures init[i] != 0
        {
        }
        NonZeroOfNonZero(init);
      }
    }
  }

  /** compactGroups returns compact input unchanged, and only compact input. */
  lemma CompactedFixedPoints(g: ChannelGroups)
    ensures Compacted(g) == g <==> IsCompact(Slots(g))
  {
    if IsCompact(Slots(g)) {
      CompactLayout(Slots(g));
    } else {
      CompactedIsCompact(g);
    }
  }

  lemma CompactedIdempotent(g: ChannelGroups)
    ensures Compacted(Compacted(g)) == Compacted(g)
  {
    CompactedIsCompact(g);
    CompactedFixedPoints(Compacted(g));
  }

  /** The documented example: {g0: 0, g1: 2, g2: 0, g3: 3} becomes {2, 3, 0, 0}. */
  lemma CompactedExample()
    ensures Compacted(ChannelGroups(0, 2, 0, 3)) == ChannelGroups(2, 3, 0, 0)
  {
    assert Slots(ChannelGroups(0, 2, 0, 3))[..3] == [0, 2, 0];
    assert [0, 2, 0][..2] == [0, 2];
    assert [0, 2][..1] == [0];
    assert [0][..0] == [];
  }
}
