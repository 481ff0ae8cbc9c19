// The two binary searches of Python's `bisect` module that the module map
// and the symbol tables rely on, over any order given as a `lt` function
// (the entries' `__lt__`), and `insort`, which inserts at the
// `bisect_right` position.
module Bisect {

  /** `lt(s[k], x)` holds on a prefix of `s`: what `bisect_left` needs of a sorted list. */
  predicate BelowIsPrefix<T(!new)>(s: seq<T>, x: T, lt: (T, T) -> bool)
  {
    forall i, j :: 0 <= i < j < |s| && lt(s[j], x) ==> lt(s[i], x)
  }

  /** `lt(x, s[k])` holds on a suffix of `s`: what `bisect_right` needs of a sorted list. */
  predicate AboveIsSuffix<T(!new)>(s: seq<T>, x: T, lt: (T, T) -> bool)
  {
    forall i, j :: 0 <= i < j < |s| && lt(x, s[i]) ==> lt(x, s[j])
  }

  /** `bisect_left(s, x, lo, hi)`: halve `[lo, hi)`, going right past every entry below `x`. */
  function BisectLeftIn<T>(s: seq<T>, x: T, lt: (T, T) -> bool, lo: nat, hi: nat): (i: nat)
    requires lo <= hi <= |s|
    ensures lo <= i <= hi
    decreases hi - lo
  {
    if lo < hi then
      var mid := (lo + hi) / 2;
      if lt(s[mid], x) then BisectLeftIn(s, x, lt, mid + 1, hi) else BisectLeftIn(s, x, lt, lo, mid)
    else lo
  }

  /** `bisect_right(s, x, lo, hi)`: halve `[lo, hi)`, going left of every entry above `x`. */
  function BisectRightIn<T>(s: seq<T>, x: T, lt: (T, T) -> bool, lo: nat, hi: nat): (i: nat)
    requires lo <= hi <= |s|
    ensures lo <= i <= hi
    decreases hi - lo
  {
    if lo < hi then
      var mid := (lo + hi) / 2;
      if lt(x, s[mid]) then BisectRightIn(s, x, lt, lo, mid) else BisectRightIn(s, x, lt, mid + 1, hi)
    else lo
  }

  function BisectLeft<T>(s: seq<T>, x: T, lt: (T, T) -> bool): (i: nat)
    ensures i <= |s|
  {
    BisectLeftIn(s, x, lt, 0, |s|)
  }

  function BisectRight<T>(s: seq<T>, x: T, lt: (T, T) -> bool): (i: nat)
    ensures i <= |s|
  {
    BisectRightIn(s, x, lt, 0, |s|)
  }

  /** `insort(s, x)`: `x` inserted at its `bisect_right` position. */
  function Insort<T>(s: seq<T>, x: T, lt: (T, T) -> bool): (r: seq<T>)
    ensures |r| == |s| + 1 && multiset(r) == multiset(s) + multiset{x}
    ensures x in r && forall y :: y in s ==> y in r
  {
    var i := BisectRight(s, x, lt);
    assert s == s[..i] + s[i..];
    s[..i] + [x] + s[i..]
  }

  /** Where each element of `s` lands after `insort`: before the insertion point in place, after it one further on. */
  lemma InsortAt<T>(s: seq<T>, x: T, lt: (T, T) -> bool)
    ensures var i := BisectRight(s, x, lt); var r := Insort(s, x, lt);
      i < |r| && r[i] == x && (forall k :: 0 <= k < i ==> r[k] == s[k]) && forall k :: i < k < |r| ==> r[k] == s[k - 1]
  {
  }

  lemma {:induction false} BisectLeftInSpec<T(!new)>(s: seq<T>, x: T, lt: (T, T) -> bool, lo: nat, hi: nat)
    requires lo <= hi <= |s| && BelowIsPrefix(s, x, lt)
    requires forall k :: 0 <= k < lo ==> lt(s[k], x)
    requires forall k :: hi <= k < |s| ==> !lt(s[k], x)
    ensures forall k :: 0 <= k < BisectLeftIn(s, x, lt, lo, hi) ==> lt(s[k], x)
    ensures forall k :: BisectLeftIn(s, x, lt, lo, hi) <= k < |s| ==> !lt(s[k], x)
    decreases hi - lo
  {
    if lo < hi {
      var mid := (lo + hi) / 2;
      if lt(s[mid], x) {
        BisectLeftInSpec(s, x, lt, mid + 1, hi);
      } else {
        BisectLeftInSpec(s, x, lt, lo, mid);
      }
    }
  }

  /**
   * On a list whose entries below `x` form a prefix, `bisect_left` returns
   * the length of that prefix.
   */
  lemma BisectLeftSpec<T(!new)>(s: seq<T>, x: T, lt: (T, T) -> bool)
    requires BelowIsPrefix(s, x, lt)
    ensures forall k :: 0 <= k < BisectLeft(s, x, lt) ==> lt(s[k], x)
    ensures forall k :: BisectLeft(s, x, lt) <= k < |s| ==> !lt(s[k], x)
  {
    BisectLeftInSpec(s, x, lt, 0, |s|);
  }

  lemma {:induction false} BisectRightInSpec<T(!new)>(s: seq<T>, x: T, lt: (T, T) -> bool, lo: nat, hi: nat)
    requires lo <= hi <= |s| && AboveIsSuffix(s, x, lt)
    requires forall k :: 0 <= k < lo ==> !lt(x, s[k])
    requires forall k :: hi <= k < |s| ==> lt(x, s[k])
    ensures forall k :: 0 <= k < BisectRightIn(s, x, lt, lo, hi) ==> !lt(x, s[k])
    ensures forall k :: BisectRightIn(s, x, lt, lo, hi) <= k < |s| ==> lt(x, s[k])
    decreases hi - lo
  {
    if lo < hi {
      var mid := (lo + hi) / 2;
      if lt(x, s[mid]) {
        BisectRightInSpec(s, x, lt, lo, mid);
      } else {
        BisectRightInSpec(s, x, lt, mid + 1, hi);
      }
    }
  }

  /**
   * On a list whose entries above `x` form a suffix, `bisect_right` returns
   * where that suffix starts.
   */
  lemma BisectRightSpec<T(!new)>(s: seq<T>, x: T, lt: (T, T) -> bool)
    requires AboveIsSuffix(s, x, lt)
    ensures forall k :: 0 <= k < BisectRight(s, x, lt) ==> !lt(x, s[k])
    ensures forall k :: BisectRight(s, x, lt) <= k < |s| ==> lt(x, s[k])
  {
    BisectRightInSpec(s, x, lt, 0, |s|);
  }
}
