/**
 * The region readers' shared loop shape: walk slots lo..hi-1 in order, decode
 * each, skip the ones that decode to nothing, and number the rest by their
 * slot plus a fixed offset (block - 1 for channels, slot + 1 for presets).
 */
module Listings {
  import opened Wrappers

  datatype Numbered<T> = Numbered(number: int, item: T)

  /** The items of a listing without their numbers. */
  function Items<T>(ns: seq<Numbered<T>>): (xs: seq<T>)
    ensures |xs| == |ns| && forall k :: 0 <= k < |ns| ==> xs[k] == ns[k].item
  {
    seq(|ns|, k requires 0 <= k < |ns| => ns[k].item)
  }

  lemma ItemsSnoc<T>(ns: seq<Numbered<T>>, e: seq<Numbered<T>>)
    ensures Items(ns + e) == Items(ns) + Items(e)
  {
  }

  /** What slot n contributes. */
  function Entry<T>(ds: seq<Option<T>>, n: nat, offset: int): (e: seq<Numbered<T>>)
    requires n < |ds|
    ensures |e| <= 1 && forall k :: 0 <= k < |e| ==> e[k].number == n + offset
  {
    if ds[n].Some? then [Numbered(n + offset, ds[n].value)] else []
  }

  /** The numbered items of slots lo..hi-1, in slot order. */
  function Present<T>(ds: seq<Option<T>>, lo: nat, hi: nat, offset: int): seq<Numbered<T>>
    requires lo <= hi <= |ds|
    decreases hi - lo
  {
    if hi == lo then [] else Present(ds, lo, hi - 1, offset) + Entry(ds, hi - 1, offset)
  }

  /** One more slot. */
  lemma PresentSnoc<T>(ds: seq<Option<T>>, lo: nat, hi: nat, offset: int)
    requires lo <= hi < |ds|
    ensures Present(ds, lo, hi + 1, offset)
      == Present(ds, lo, hi, offset) + (if ds[hi].Some? then [Numbered(hi + offset, ds[hi].value)] else [])
  {
  }

  /** The numbers are strictly ascending and lie in lo+offset .. hi-1+offset. */
  lemma {:induction false} PresentAscending<T>(ds: seq<Option<T>>, lo: nat, hi: nat, offset: int)
    requires lo <= hi <= |ds|
    ensures forall k :: 0 <= k < |Present(ds, lo, hi, offset)| ==>
      lo + offset <= Present(ds, lo, hi, offset)[k].number < hi + offset
    ensures forall i, j :: 0 <= i < j < |Present(ds, lo, hi, offset)| ==>
      Present(ds, lo, hi, offset)[i].number < Present(ds, lo, hi, offset)[j].number
    decreases hi - lo
  {
    if hi > lo {
      PresentAscending(ds, lo, hi - 1, offset);
      var prev, e := Present(ds, lo, hi - 1, offset), Entry(ds, hi - 1, offset);
      var r := prev + e;
      forall k | 0 <= k < |r|
        ensures lo + offset <= r[k].number < hi + offset
      {
        if k >= |prev| {
          assert r[k] == e[k - |prev|];
        } else {
          assert r[k] == prev[k];
        }
      }
      forall i, j | 0 <= i < j < |r|
        ensures r[i].number < r[j].number
      {
        if j >= |prev| {
          assert r[j] == e[j - |prev|] && r[i] == prev[i];
        } else {
          assert r[i] == prev[i] && r[j] == prev[j];
        }
      }
    }
  }

  /** An item is listed under number n exactly when slot n - offset is in range and decodes to it. */
  lemma {:induction false} PresentHolds<T>(ds: seq<Option<T>>, lo: nat, hi: nat, offset: int, n: int, x: T)
    requires lo <= hi <= |ds|
    ensures Numbered(n, x) in Present(ds, lo, hi, offset) <==> lo <= n - offset < hi && ds[n - offset] == Some(x)
    decreases hi - lo
  {
    if hi > lo {
      PresentHolds(ds, lo, hi - 1, offset, n, x);
      var prev, e := Present(ds, lo, hi - 1, offset), Entry(ds, hi - 1, offset);
      assert Numbered(n, x) in prev + e <==> Numbered(n, x) in prev || Numbered(n, x) in e;
    }
  }

  /** Both facts over a whole range. */
  lemma PresentListing<T>(ds: seq<Option<T>>, lo: nat, hi: nat, offset: int)
    requires lo <= hi <= |ds|
    ensures forall k :: 0 <= k < |Present(ds, lo, hi, offset)| ==>
      lo + offset <= Present(ds, lo, hi, offset)[k].number < hi + offset
    ensures forall i, j :: 0 <= i < j < |Present(ds, lo, hi, offset)| ==>
      Present(ds, lo, hi, offset)[i].number < Present(ds, lo, hi, offset)[j].number
    ensures forall n, x :: Numbered(n, x) in Present(ds, lo, hi, offset) <==> lo <= n - offset < hi && ds[n - offset] == Some(x)
  {
    PresentAscending(ds, lo, hi, offset);
    forall n, x
      ensures Numbered(n, x) in Present(ds, lo, hi, offset) <==> lo <= n - offset < hi && ds[n - offset] == Some(x)
    {
      PresentHolds(ds, lo, hi, offset, n, x);
    }
  }
}
