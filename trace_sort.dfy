// execution_trace/__init__.py, `parse`: each state's trace is sorted in
// place by header timestamp with Python's list sort, which is stable.
module TraceSort {
  import TE = TraceEntries

  function Time(e: TE.Entry): nat
  {
    e.header.timestamp
  }

  predicate SortedByTime(s: seq<TE.Entry>)
  {
    forall i, j :: 0 <= i < j < |s| ==> Time(s[i]) <= Time(s[j])
  }

  /** The entries of `s` stamped `t`, in their order in `s`. */
  function StampedAt(s: seq<TE.Entry>, t: nat): seq<TE.Entry>
  {
    if s == [] then []
    else StampedAt(s[..|s| - 1], t) + (if Time(s[|s| - 1]) == t then [s[|s| - 1]] else [])
  }

  /** `x` placed after every entry of `s` stamped no later than it (from the right, as an insertion sort shifts). */
  function InsertByTime(s: seq<TE.Entry>, x: TE.Entry): (r: seq<TE.Entry>)
    ensures |r| == |s| + 1
  {
    if s == [] || Time(s[|s| - 1]) <= Time(x) then s + [x]
    else InsertByTime(s[..|s| - 1], x) + [s[|s| - 1]]
  }

  /** The stable sort by timestamp, as repeated insertion. */
  function SortByTime(s: seq<TE.Entry>): (r: seq<TE.Entry>)
    ensures |r| == |s|
  {
    if s == [] then [] else InsertByTime(SortByTime(s[..|s| - 1]), s[|s| - 1])
  }

  lemma StampedAtAppend(a: seq<TE.Entry>, b: seq<TE.Entry>, t: nat)
    ensures StampedAt(a + b, t) == StampedAt(a, t) + StampedAt(b, t)
    decreases |b|
  {
    if b == [] {
      assert a + b == a;
    } else {
      assert (a + b)[..|a + b| - 1] == a + b[..|b| - 1];
      StampedAtAppend(a, b[..|b| - 1], t);
    }
  }

  lemma {:induction false} InsertPerm(s: seq<TE.Entry>, x: TE.Entry)
    ensures multiset(InsertByTime(s, x)) == multiset(s) + multiset{x}
    decreases |s|
  {
    if s != [] && Time(s[|s| - 1]) > Time(x) {
      InsertPerm(s[..|s| - 1], x);
      assert s == s[..|s| - 1] + [s[|s| - 1]];
    }
  }

  lemma {:induction false} InsertSorted(s: seq<TE.Entry>, x: TE.Entry)
    requires SortedByTime(s)
    ensures SortedByTime(InsertByTime(s, x))
    decreases |s|
  {
    if s != [] && Time(s[|s| - 1]) > Time(x) {
      var front, last := s[..|s| - 1], s[|s| - 1];
      InsertSorted(front, x);
      InsertPerm(front, x);
      var r := InsertByTime(front, x);
      forall k | 0 <= k < |r| ensures Time(r[k]) <= Time(last)
      {
        var y := r[k];
        assert y in multiset(r);
        if y != x {
          assert y in multiset(front);
          var m :| 0 <= m < |front| && front[m] == y;
          assert s[m] == y;
        }
      }
    }
  }

  lemma {:induction false} InsertStable(s: seq<TE.Entry>, x: TE.Entry, t: nat)
    ensures StampedAt(InsertByTime(s, x), t) == StampedAt(s, t) + (if Time(x) == t then [x] else [])
    decreases |s|
  {
    if s != [] && Time(s[|s| - 1]) > Time(x) {
      var front, last := s[..|s| - 1], s[|s| - 1];
      InsertStable(front, x, t);
      var r := InsertByTime(front, x);
      assert (r + [last])[..|r|] == r;
    } else {
      assert (s + [x])[..|s|] == s;
    }
  }

  /**
   * The sort puts the entries in timestamp order, keeps every entry, and
   * is stable: the entries stamped alike keep their relative order.
   */
  lemma {:induction false} SortSpec(s: seq<TE.Entry>)
    ensures SortedByTime(SortByTime(s))
    ensures multiset(SortByTime(s)) == multiset(s)
    ensures forall t :: StampedAt(SortByTime(s), t) == StampedAt(s, t)
    decreases |s|
  {
    if s != [] {
      var front, last := s[..|s| - 1], s[|s| - 1];
      SortSpec(front);
      InsertPerm(SortByTime(front), last);
      InsertSorted(SortByTime(front), last);
      assert s == front + [last];
      forall t ensures StampedAt(SortByTime(s), t) == StampedAt(s, t)
      {
        InsertStable(SortByTime(front), last, t);
      }
    }
  }

  /** A trace already in timestamp order is left as it is. */
  lemma {:induction false} SortedUnchanged(s: seq<TE.Entry>)
    requires SortedByTime(s)
    ensures SortByTime(s) == s
    decreases |s|
  {
    if s != [] {
      var front := s[..|s| - 1];
      assert SortedByTime(front);
      SortedUnchanged(front);
      assert s == front + [s[|s| - 1]];
    }
  }

  /** Where `InsertByTime(p, x)` puts `x`: after the last entry of `p` stamped no later than it. */
  function Slot(p: seq<TE.Entry>, x: TE.Entry): (j: nat)
    ensures j <= |p|
    ensures j == |p| || Time(p[j]) > Time(x)
  {
    if p == [] || Time(p[|p| - 1]) <= Time(x) then |p| else Slot(p[..|p| - 1], x)
  }

  lemma {:induction false} InsertAtSlot(p: seq<TE.Entry>, x: TE.Entry)
    ensures InsertByTime(p, x) == p[..Slot(p, x)] + [x] + p[Slot(p, x)..]
    decreases |p|
  {
    if p != [] && Time(p[|p| - 1]) > Time(x) {
      var front := p[..|p| - 1];
      InsertAtSlot(front, x);
      var j := Slot(front, x);
      assert front[..j] == p[..j];
      assert front[j..] + [p[|p| - 1]] == p[j..];
    } else {
      assert p[..|p|] == p;
    }
  }

  /** One shift of the inner loop: the slot of `x` lies left of the larger entry at `j - 1`. */
  lemma SlotShift(p: seq<TE.Entry>, j: nat, x: TE.Entry)
    requires 0 < j <= |p| && Time(p[j - 1]) > Time(x)
    ensures Slot(p[..j], x) == Slot(p[..j - 1], x)
  {
    assert p[..j][..j - 1] == p[..j - 1];
  }

  /**
   * The state of `InsertAt`'s array in the middle of the shifting: the
   * prefix `p` split at `j`, its right part moved one place right, and the
   * entries past `i` as they were.
   */
  ghost predicate Shifted(cur: seq<TE.Entry>, p: seq<TE.Entry>, tail: seq<TE.Entry>, j: nat)
  {
    j <= |p| && |cur| == |p| + 1 + |tail|
    && cur[..j] == p[..j]
    && cur[j + 1..|p| + 1] == p[j..]
    && cur[|p| + 1..] == tail
  }

  lemma ShiftedStart(cur: seq<TE.Entry>, i: nat)
    requires i < |cur|
    ensures Shifted(cur, cur[..i], cur[i + 1..], i)
  {
  }

  lemma ShiftedStep(cur: seq<TE.Entry>, p: seq<TE.Entry>, tail: seq<TE.Entry>, j: nat)
    requires Shifted(cur, p, tail, j) && 0 < j
    ensures cur[j - 1] == p[j - 1]
    ensures Shifted(cur[j := cur[j - 1]], p, tail, j - 1)
  {
    assert cur[..j][j - 1] == p[..j][j - 1];
    var c := cur[j := cur[j - 1]];
    assert c[..j - 1] == cur[..j][..j - 1];
    assert c[j..|p| + 1] == [p[j - 1]] + cur[j + 1..|p| + 1];
  }

  lemma ShiftedDone(cur: seq<TE.Entry>, p: seq<TE.Entry>, tail: seq<TE.Entry>, j: nat, x: TE.Entry)
    requires Shifted(cur, p, tail, j)
    ensures cur[j := x][..|p| + 1] == p[..j] + [x] + p[j..]
    ensures cur[j := x][|p| + 1..] == tail
  {
    var c := cur[j := x];
    assert c[..|p| + 1] == c[..j] + [x] + c[j + 1..|p| + 1];
  }

  /** One pass of the insertion sort: `a[i]` moves left past the entries of `a[..i]` stamped later. */
  method InsertAt(a: array<TE.Entry>, i: nat)
    requires i < a.Length
    modifies a
    ensures a[..i + 1] == InsertByTime(old(a[..i]), old(a[i]))
    ensures a[i + 1..] == old(a[i + 1..])
  {
    var x := a[i];
    ghost var p, tail := a[..i], a[i + 1..];
    ghost var cur := a[..];
    ShiftedStart(cur, i);
    var j := i;
    assert p[..i] == p;
    while j > 0 && Time(a[j - 1]) > Time(x)
      invariant 0 <= j <= i
      invariant a[..] == cur && Shifted(cur, p, tail, j)
      invariant Slot(p, x) == Slot(p[..j], x)
    {
      SlotShift(p, j, x);
      ShiftedStep(cur, p, tail, j);
      a[j] := a[j - 1];
      cur := cur[j := cur[j - 1]];
      j := j - 1;
    }
    a[j] := x;
    ShiftedDone(cur, p, tail, j, x);
    InsertAtSlot(p, x);
    assert a[..] == cur[j := x];
  }

  /** `list.sort(key=timestamp)` on the trace in `a`, as an insertion sort. */
  method SortEntries(a: array<TE.Entry>)
    modifies a
    ensures a[..] == SortByTime(old(a[..]))
  {
    ghost var s := a[..];
    var i := 0;
    while i < a.Length
      invariant 0 <= i <= a.Length
      invariant a[..i] == SortByTime(s[..i])
      invariant a[i..] == s[i..]
    {
      assert s[..i + 1][..i] == s[..i] && s[i] == a[i];
      InsertAt(a, i);
      i := i + 1;
    }
    assert a[..] == a[..a.Length] && s == s[..a.Length];
  }
}
