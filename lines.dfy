// symbols/lines.py: the address -> source line table, kept sorted by
// address and searched with `bisect_right`.
module SymbolLines {
  import opened Wrappers
  import opened Bisect

  datatype LineInfoEntry = LineInfoEntry(filename: string, line: int, addr: int)

  /** `LineInfoEntry.__lt__`: entries are ordered by address alone. */
  predicate Lt(a: LineInfoEntry, b: LineInfoEntry)
  {
    a.addr < b.addr
  }

  /** `LineInfoEntry.__eq__`: neither entry is below the other. */
  predicate Eq(a: LineInfoEntry, b: LineInfoEntry)
  {
    !Lt(a, b) && !Lt(b, a)
  }

  /** Equality (and the hash, which is the address) look at the address only. */
  lemma EqIffSameAddr(a: LineInfoEntry, b: LineInfoEntry)
    ensures Eq(a, b) <==> a.addr == b.addr
  {
  }

  predicate Sorted(lines: seq<LineInfoEntry>)
  {
    forall i, j :: 0 <= i < j < |lines| ==> lines[i].addr <= lines[j].addr
  }

  /** The line data of one file: `(line number, addresses)` pairs. */
  datatype FileLines = FileLines(path: string, lines: seq<(int, seq<int>)>)

  /** One entry per address of one line. */
  function LineEntries(path: string, line: int, addrs: seq<int>): (r: seq<LineInfoEntry>)
    ensures |r| == |addrs|
    ensures forall k :: 0 <= k < |addrs| ==> r[k] == LineInfoEntry(path, line, addrs[k])
  {
    if addrs == [] then [] else [LineInfoEntry(path, line, addrs[0])] + LineEntries(path, line, addrs[1..])
  }

  function FileEntries(path: string, lines: seq<(int, seq<int>)>): (r: seq<LineInfoEntry>)
    ensures forall e :: e in r <==> e.filename == path && exists l :: l in lines && e.line == l.0 && e.addr in l.1
  {
    if lines == [] then []
    else
      var head := LineEntries(path, lines[0].0, lines[0].1);
      var rest := FileEntries(path, lines[1..]);
      assert forall l :: l in lines <==> l == lines[0] || l in lines[1..];
      assert forall e :: e in head <==> e.filename == path && e.line == lines[0].0 && e.addr in lines[0].1 by {
        forall e | e in head ensures e.addr in lines[0].1
        {
          var k :| 0 <= k < |head| && head[k] == e;
        }
        forall e: LineInfoEntry | e.filename == path && e.line == lines[0].0 && e.addr in lines[0].1 ensures e in head
        {
          var k :| 0 <= k < |lines[0].1| && lines[0].1[k] == e.addr;
          assert head[k] == e;
        }
      }
      head + rest
  }

  /** The entries the constructor creates: one per (file, line, address), in input order. */
  function Entries(files: seq<FileLines>): (r: seq<LineInfoEntry>)
    ensures forall e :: e in r <==>
      exists f :: f in files && e.filename == f.path && exists l :: l in f.lines && e.line == l.0 && e.addr in l.1
  {
    if files == [] then []
    else
      assert forall f :: f in files <==> f == files[0] || f in files[1..];
      FileEntries(files[0].path, files[0].lines) + Entries(files[1..])
  }

  /** `insort` into an address-sorted list keeps it sorted. */
  lemma InsortSorted(lines: seq<LineInfoEntry>, e: LineInfoEntry)
    requires Sorted(lines)
    ensures Sorted(Insort(lines, e, Lt))
  {
    BisectRightSpec(lines, e, Lt);
    var i := BisectRight(lines, e, Lt);
    var r := Insort(lines, e, Lt);
    InsortAt(lines, e, Lt);
    forall a, b | 0 <= a < b < |r| ensures r[a].addr <= r[b].addr
    {
      if b < i {
        assert r[a] == lines[a] && r[b] == lines[b];
      } else if a > i {
        assert r[a] == lines[a - 1] && r[b] == lines[b - 1];
      } else if a == i {
        assert r[b] == lines[b - 1];
      } else if b == i {
        assert r[a] == lines[a];
      } else {
        assert r[a] == lines[a] && r[b] == lines[b - 1];
      }
    }
  }

  /** The entries at address `a`, in their order in `s`. */
  function AtAddr(s: seq<LineInfoEntry>, a: int): seq<LineInfoEntry>
  {
    if s == [] then [] else (if s[0].addr == a then [s[0]] else []) + AtAddr(s[1..], a)
  }

  lemma {:induction false} AtAddrAppend(s: seq<LineInfoEntry>, t: seq<LineInfoEntry>, a: int)
    ensures AtAddr(s + t, a) == AtAddr(s, a) + AtAddr(t, a)
    decreases |s|
  {
    if s != [] {
      assert (s + t)[1..] == s[1..] + t;
      AtAddrAppend(s[1..], t, a);
    } else {
      assert s + t == t;
    }
  }

  /** No entry from index `i` on lies at `a`: that part contributes nothing at `a`. */
  lemma {:induction false} AtAddrNone(s: seq<LineInfoEntry>, i: nat, a: int)
    requires i <= |s|
    requires forall k :: i <= k < |s| ==> s[k].addr != a
    ensures AtAddr(s[i..], a) == []
    decreases |s| - i
  {
    if i < |s| {
      assert s[i..][1..] == s[i + 1..];
      AtAddrNone(s, i + 1, a);
    }
  }

  lemma AtAddrOne(e: LineInfoEntry, a: int)
    ensures AtAddr([e], a) == if e.addr == a then [e] else []
  {
    assert [e][1..] == [];
  }

  /** Inserting at the `bisect_right` slot splits each address's entries into those before and after the slot. */
  lemma {:induction false} InsortParts(lines: seq<LineInfoEntry>, e: LineInfoEntry, a: int)
    ensures var i := BisectRight(lines, e, Lt);
      AtAddr(Insort(lines, e, Lt), a) == AtAddr(lines[..i], a) + AtAddr([e], a) + AtAddr(lines[i..], a) &&
      AtAddr(lines, a) == AtAddr(lines[..i], a) + AtAddr(lines[i..], a)
  {
    var i := BisectRight(lines, e, Lt);
    var front, back := lines[..i], lines[i..];
    assert Insort(lines, e, Lt) == front + [e] + back;
    assert lines == front + back;
    AtAddrAppend(front + [e], back, a);
    AtAddrAppend(front, [e], a);
    AtAddrAppend(front, back, a);
  }

  /** In a sorted list, every entry after the `bisect_right` slot of `e` lies above `e`'s address. */
  lemma {:induction false} AfterSlot(lines: seq<LineInfoEntry>, e: LineInfoEntry)
    requires Sorted(lines)
    ensures AtAddr(lines[BisectRight(lines, e, Lt)..], e.addr) == []
  {
    BisectRightSpec(lines, e, Lt);
    AtAddrNone(lines, BisectRight(lines, e, Lt), e.addr);
  }

  /**
   * `insort` (`bisect_right`) puts the new entry after every entry at its
   * address: at each address, the entries keep their order and the new
   * one comes last.
   */
  lemma {:induction false} InsortStable(lines: seq<LineInfoEntry>, e: LineInfoEntry, a: int)
    requires Sorted(lines)
    ensures AtAddr(Insort(lines, e, Lt), a) == AtAddr(lines, a) + AtAddr([e], a)
  {
    var i := BisectRight(lines, e, Lt);
    InsortParts(lines, e, a);
    AtAddrOne(e, a);
    if e.addr == a {
      AfterSlot(lines, e);
    }
    SwapEmpty(AtAddr(lines[..i], a), AtAddr([e], a), AtAddr(lines[i..], a));
  }

  /** Of the last two parts, one is empty: they may trade places. */
  lemma SwapEmpty(x: seq<LineInfoEntry>, y: seq<LineInfoEntry>, z: seq<LineInfoEntry>)
    requires y == [] || z == []
    ensures x + y + z == x + z + y
  {
    if y == [] {
      assert x + y + z == x + z;
    } else {
      assert x + y + z == x + y;
    }
  }

  /**
   * The constructor's sort: every entry inserted in turn. The result is
   * sorted, holds the same entries, and is stable like `list.sort()`: the
   * entries at one address stay in input order.
   */
  method SortEntries(entries: seq<LineInfoEntry>) returns (r: seq<LineInfoEntry>)
    ensures Sorted(r) && multiset(r) == multiset(entries)
    ensures forall a :: AtAddr(r, a) == AtAddr(entries, a)
  {
    r := [];
    for i := 0 to |entries|
      invariant Sorted(r) && multiset(r) == multiset(entries[..i])
      invariant forall a :: AtAddr(r, a) == AtAddr(entries[..i], a)
    {
      assert entries[..i + 1] == entries[..i] + [entries[i]];
      forall a ensures AtAddr(Insort(r, entries[i], Lt), a) == AtAddr(entries[..i + 1], a)
      {
        InsortStable(r, entries[i], a);
        AtAddrAppend(entries[..i], [entries[i]], a);
      }
      InsortSorted(r, entries[i]);
      r := Insort(r, entries[i], Lt);
    }
    assert entries[..|entries|] == entries;
  }

  class LinesByAddr {
    var lines: seq<LineInfoEntry>

    /** `LinesByAddr(lines)`: every (file, line, address) of the input, sorted by address. */
    constructor(files: seq<FileLines>)
      ensures Sorted(lines) && multiset(lines) == multiset(Entries(files))
      ensures forall a :: AtAddr(lines, a) == AtAddr(Entries(files), a)
    {
      var sorted := SortEntries(Entries(files));
      lines := sorted;
    }

    /** `add`: one more entry, inserted so that the list stays sorted. */
    method Add(filename: string, line: int, addr: int)
      requires Sorted(lines)
      modifies this
      ensures Sorted(lines)
      ensures multiset(lines) == multiset(old(lines)) + multiset{LineInfoEntry(filename, line, addr)}
      ensures forall a :: AtAddr(lines, a) == AtAddr(old(lines), a) + AtAddr([LineInfoEntry(filename, line, addr)], a)
    {
      var e := LineInfoEntry(filename, line, addr);
      forall a ensures AtAddr(Insort(lines, e, Lt), a) == AtAddr(lines, a) + AtAddr([e], a)
      {
        InsortStable(lines, e, a);
      }
      InsortSorted(lines, e);
      lines := Insort(lines, e, Lt);
    }

    /**
     * `get`: the entry with the greatest address at or below `addr` (the
     * last of several at that address); ValueError when every entry lies
     * above `addr`.
     */
    method Get(addr: int) returns (r: Result<LineInfoEntry>)
      requires Sorted(lines)
      ensures r.Fail? <==> forall k :: 0 <= k < |lines| ==> lines[k].addr > addr
      ensures r.Fail? ==> r.error == ValueError
      ensures r.Ok? ==>
        r.value.addr <= addr &&
        exists i :: 0 <= i < |lines| && r.value == lines[i] && forall k :: i < k < |lines| ==> lines[k].addr > addr
    {
      var probe := LineInfoEntry([], 0, addr);
      BisectRightSpec(lines, probe, Lt);
      var i := BisectRight(lines, probe, Lt);
      if i == 0 {
        return Fail(ValueError);
      }
      assert lines[i - 1] == lines[i - 1];
      return Ok(lines[i - 1]);
    }
  }
}
