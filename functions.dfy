// symbols/functions.py: the address -> function table. Entries are
// [start, end) address ranges, kept in a list ordered by `__lt__` and
// searched with `bisect_right` using a one-byte probe [addr, addr + 1).
module SymbolFunctions {
  import opened Wrappers
  import opened Bisect

  datatype FunctionInfoEntry = FunctionInfoEntry(name: string, start: int, end: int)

  /**
   * `FunctionInfoEntry.__lt__` as written: `a` is below `b` when `a` ends
   * strictly before `b` starts, which treats `end` as the last address.
   */
  predicate Lt(a: FunctionInfoEntry, b: FunctionInfoEntry)
  {
    a.end < b.start
  }

  /** The order the end addresses call for: `end` is one past the last address. */
  predicate LtFixed(a: FunctionInfoEntry, b: FunctionInfoEntry)
  {
    a.end <= b.start
  }

  /** A function table: disjoint [start, end) ranges in address order. */
  predicate Ordered(fs: seq<FunctionInfoEntry>)
  {
    (forall i :: 0 <= i < |fs| ==> fs[i].start <= fs[i].end) &&
    forall i, j :: 0 <= i < j < |fs| ==> fs[i].end <= fs[j].start
  }

  predicate Disjoint(fs: seq<FunctionInfoEntry>, e: FunctionInfoEntry)
  {
    forall i :: 0 <= i < |fs| ==> fs[i].end <= e.start || e.end <= fs[i].start
  }

  predicate InFunction(f: FunctionInfoEntry, addr: int)
  {
    f.start <= addr < f.end
  }

  /** The probe `get` searches for. */
  function Probe(addr: int): FunctionInfoEntry
  {
    FunctionInfoEntry([], addr, addr + 1)
  }

  /** `get` as written: `bisect_right` of the probe under `Lt`, then the entry before it. */
  function Lookup(fs: seq<FunctionInfoEntry>, addr: int): Result<FunctionInfoEntry>
  {
    var i := BisectRight(fs, Probe(addr), Lt);
    if i == 0 then Fail(ValueError) else Ok(fs[i - 1])
  }

  /** `get` under the corrected order. */
  function LookupFixed(fs: seq<FunctionInfoEntry>, addr: int): Result<FunctionInfoEntry>
  {
    var i := BisectRight(fs, Probe(addr), LtFixed);
    if i == 0 then Fail(ValueError) else Ok(fs[i - 1])
  }

  /**
   * On a table, the lookup as written returns the last function starting
   * at or before `addr + 1`, and fails only when every function starts
   * after `addr + 1`.
   */
  lemma LookupSpec(fs: seq<FunctionInfoEntry>, addr: int)
    requires Ordered(fs)
    ensures Lookup(fs, addr).Fail? <==> forall k :: 0 <= k < |fs| ==> fs[k].start > addr + 1
    ensures Lookup(fs, addr).Fail? ==> Lookup(fs, addr).error == ValueError
    ensures Lookup(fs, addr).Ok? ==>
      exists i :: 0 <= i < |fs| && Lookup(fs, addr).value == fs[i] && fs[i].start <= addr + 1 &&
        forall k :: i < k < |fs| ==> fs[k].start > addr + 1
  {
    BisectRightSpec(fs, Probe(addr), Lt);
    var i := BisectRight(fs, Probe(addr), Lt);
    if i > 0 {
      assert Lookup(fs, addr).value == fs[i - 1];
    }
  }

  /**
   * The lookup as written reports a function for the address just before
   * it starts: with one function at [0x20, 0x30), address 0x1f lies in no
   * function yet the lookup returns that one; the corrected lookup fails.
   */
  lemma LookupReturnsNextFunction()
    ensures var f := FunctionInfoEntry("f", 0x20, 0x30);
      Lookup([f], 0x1f) == Ok(f) && !InFunction(f, 0x1f) && LookupFixed([f], 0x1f) == Fail(ValueError)
  {
    var f := FunctionInfoEntry("f", 0x20, 0x30);
    assert BisectRight([f], Probe(0x1f), Lt) == 1;
    assert BisectRight([f], Probe(0x1f), LtFixed) == 0;
  }

  /**
   * `insort` as written misplaces a function inserted before an adjacent
   * one: adding [0x10, 0x20) to a table holding [0x20, 0x30) puts it last,
   * and the table is no longer in address order.
   */
  lemma InsortMisordersAdjacent()
    ensures var a := FunctionInfoEntry("a", 0x10, 0x20);
      var b := FunctionInfoEntry("b", 0x20, 0x30);
      Ordered([b]) && Disjoint([b], a) && !Ordered(Insort([b], a, Lt))
  {
    var a := FunctionInfoEntry("a", 0x10, 0x20);
    var b := FunctionInfoEntry("b", 0x20, 0x30);
    assert BisectRight([b], a, Lt) == 1;
    assert Insort([b], a, Lt) == [b, a];
  }

  /**
   * Under the corrected order the lookup returns the function containing
   * `addr` whenever there is one, and otherwise the last function starting
   * at or before `addr`; it fails only when every function starts above.
   */
  lemma LookupFixedSpec(fs: seq<FunctionInfoEntry>, addr: int)
    requires Ordered(fs)
    ensures LookupFixed(fs, addr).Fail? <==> forall k :: 0 <= k < |fs| ==> fs[k].start > addr
    ensures LookupFixed(fs, addr).Fail? ==> LookupFixed(fs, addr).error == ValueError
    ensures LookupFixed(fs, addr).Ok? ==>
      exists i :: 0 <= i < |fs| && LookupFixed(fs, addr).value == fs[i] && fs[i].start <= addr &&
        forall k :: i < k < |fs| ==> fs[k].start > addr
    ensures forall k :: 0 <= k < |fs| && InFunction(fs[k], addr) ==> LookupFixed(fs, addr) == Ok(fs[k])
  {
    BisectRightSpec(fs, Probe(addr), LtFixed);
    var i := BisectRight(fs, Probe(addr), LtFixed);
    if i > 0 {
      assert LookupFixed(fs, addr).value == fs[i - 1];
    }
    forall k | 0 <= k < |fs| && InFunction(fs[k], addr) ensures LookupFixed(fs, addr) == Ok(fs[k])
    {
      assert k < i && fs[i - 1].start <= addr;
    }
  }

  /** Under the corrected order, `insort` of a function disjoint from the table keeps it a table. */
  lemma InsortFixedOrdered(fs: seq<FunctionInfoEntry>, e: FunctionInfoEntry)
    requires Ordered(fs) && Disjoint(fs, e) && e.start <= e.end
    ensures Ordered(Insort(fs, e, LtFixed))
  {
    var i := BisectRight(fs, e, LtFixed);
    InsortFixedPlace(fs, e);
    var r := Insort(fs, e, LtFixed);
    InsortAt(fs, e, LtFixed);
    forall a, b | 0 <= a < b < |r| ensures r[a].end <= r[b].start
    {
      if b < i {
        assert r[a] == fs[a] && r[b] == fs[b];
      } else if a > i {
        assert r[a] == fs[a - 1] && r[b] == fs[b - 1];
      } else if a == i {
        assert r[b] == fs[b - 1];
      } else if b == i {
        assert r[a] == fs[a];
      } else {
        assert r[a] == fs[a] && r[b] == fs[b - 1];
      }
    }
  }

  /** The corrected insertion point: every function before it ends by `e.start`, every one after starts at `e.end` or later. */
  lemma InsortFixedPlace(fs: seq<FunctionInfoEntry>, e: FunctionInfoEntry)
    requires Ordered(fs) && Disjoint(fs, e) && e.start <= e.end
    ensures var i := BisectRight(fs, e, LtFixed);
      (forall k :: 0 <= k < i ==> fs[k].end <= e.start) && forall k :: i <= k < |fs| ==> e.end <= fs[k].start
  {
    BisectRightSpec(fs, e, LtFixed);
  }

  /** What `to_dict` builds: name -> (start, end), a later entry overwriting an earlier one. */
  function FuncMap(fs: seq<FunctionInfoEntry>): (m: map<string, (int, int)>)
    ensures forall n :: n in m <==> exists e :: e in fs && e.name == n
  {
    if fs == [] then map[]
    else
      var init := fs[..|fs| - 1];
      var last := fs[|fs| - 1];
      assert forall e :: e in fs <==> e in init || e == last by {
        assert fs == init + [last];
      }
      FuncMap(init)[last.name := (last.start, last.end)]
  }

  /** No two different entries share a name. */
  predicate NamesDistinct(fs: seq<FunctionInfoEntry>)
  {
    forall a, b :: a in fs && b in fs && a.name == b.name ==> a == b
  }

  lemma {:induction false} FuncMapValues(fs: seq<FunctionInfoEntry>)
    requires NamesDistinct(fs)
    ensures forall e :: e in fs ==> FuncMap(fs)[e.name] == (e.start, e.end)
  {
    if fs != [] {
      var init := fs[..|fs| - 1];
      assert fs == init + [fs[|fs| - 1]];
      FuncMapValues(init);
    }
  }

  /** The entries `from_dict` adds, one per (name, (start, end)) item. */
  function DictEntries(d: seq<(string, (int, int))>): (r: seq<FunctionInfoEntry>)
    ensures |r| == |d| && forall k :: 0 <= k < |d| ==> r[k] == FunctionInfoEntry(d[k].0, d[k].1.0, d[k].1.1)
  {
    if d == [] then [] else [FunctionInfoEntry(d[0].0, d[0].1.0, d[0].1.1)] + DictEntries(d[1..])
  }

  /** The items of a dictionary: no key occurs twice. */
  predicate KeysDistinct(d: seq<(string, (int, int))>)
  {
    forall i, j :: 0 <= i < j < |d| ==> d[i].0 != d[j].0
  }

  lemma DictEntriesNamesDistinct(d: seq<(string, (int, int))>)
    requires KeysDistinct(d)
    ensures NamesDistinct(DictEntries(d))
  {
    var es := DictEntries(d);
    forall a, b | a in es && b in es && a.name == b.name ensures a == b
    {
      var i :| 0 <= i < |es| && es[i] == a;
      var j :| 0 <= j < |es| && es[j] == b;
      assert i < j ==> d[i].0 != d[j].0;
      assert j < i ==> d[j].0 != d[i].0;
    }
  }

  /**
   * `to_dict(from_dict(d)) == d`: whatever order `from_dict`'s insertions
   * leave the entries in, `to_dict` gives back exactly the items of `d`.
   * Applied to the items of `to_dict(f)`, it also gives
   * `to_dict(from_dict(to_dict(f))) == to_dict(f)`.
   */
  lemma FromDictToDict(d: seq<(string, (int, int))>, fs: seq<FunctionInfoEntry>)
    requires KeysDistinct(d) && multiset(fs) == multiset(DictEntries(d))
    ensures forall n :: n in FuncMap(fs) <==> exists k :: 0 <= k < |d| && d[k].0 == n
    ensures forall k :: 0 <= k < |d| ==> FuncMap(fs)[d[k].0] == d[k].1
  {
    var es := DictEntries(d);
    assert forall e :: e in fs <==> e in es by {
      forall e ensures e in fs <==> e in es
      {
        assert e in fs <==> e in multiset(fs);
        assert e in es <==> e in multiset(es);
      }
    }
    DictEntriesNamesDistinct(d);
    FuncMapValues(fs);
    forall n ensures n in FuncMap(fs) <==> exists k :: 0 <= k < |d| && d[k].0 == n
    {
      if n in FuncMap(fs) {
        var e :| e in fs && e.name == n;
        var k :| 0 <= k < |es| && es[k] == e;
        assert d[k].0 == n;
      }
      if exists k :: 0 <= k < |d| && d[k].0 == n {
        var k :| 0 <= k < |d| && d[k].0 == n;
        assert es[k] in fs;
      }
    }
    forall k | 0 <= k < |d| ensures FuncMap(fs)[d[k].0] == d[k].1
    {
      assert es[k] in es;
      assert es[k] in fs;
      assert es[k].name == d[k].0;
    }
  }

  class FunctionInfo {
    var funcs: seq<FunctionInfoEntry>

    constructor()
      ensures funcs == []
    {
      funcs := [];
    }

    /**
     * `add`, under the corrected order: the entry is inserted, and a table
     * stays a table when the new function overlaps none of it.
     */
    method Add(name: string, start: int, end: int)
      modifies this
      ensures multiset(funcs) == multiset(old(funcs)) + multiset{FunctionInfoEntry(name, start, end)}
      ensures Ordered(old(funcs)) && Disjoint(old(funcs), FunctionInfoEntry(name, start, end)) && start <= end ==>
        Ordered(funcs)
    {
      var e := FunctionInfoEntry(name, start, end);
      if Ordered(funcs) && Disjoint(funcs, e) && start <= end {
        InsortFixedOrdered(funcs, e);
      }
      funcs := Insort(funcs, e, LtFixed);
    }

    /**
     * `get`, under the corrected order: on a table, the function containing
     * `addr` if there is one, else the last starting before it; ValueError
     * when all start above `addr`.
     */
    method Get(addr: int) returns (r: Result<FunctionInfoEntry>)
      ensures r == LookupFixed(funcs, addr)
      ensures Ordered(funcs) ==> (r.Fail? <==> forall k :: 0 <= k < |funcs| ==> funcs[k].start > addr)
      ensures Ordered(funcs) && r.Fail? ==> r.error == ValueError
      ensures Ordered(funcs) ==> forall k :: 0 <= k < |funcs| && InFunction(funcs[k], addr) ==> r == Ok(funcs[k])
      ensures Ordered(funcs) && r.Ok? ==> r.value in funcs && r.value.start <= addr
    {
      if Ordered(funcs) {
        LookupFixedSpec(funcs, addr);
      }
      var i := BisectRight(funcs, Probe(addr), LtFixed);
      if i == 0 {
        return Fail(ValueError);
      }
      return Ok(funcs[i - 1]);
    }

    /** `to_dict`: the loop filling name -> (start, end). */
    method ToDict() returns (out: map<string, (int, int)>)
      ensures out == FuncMap(funcs)
      ensures NamesDistinct(funcs) ==> forall e :: e in funcs ==> out[e.name] == (e.start, e.end)
    {
      out := map[];
      for i := 0 to |funcs|
        invariant out == FuncMap(funcs[..i])
      {
        assert funcs[..i + 1][..i] == funcs[..i];
        out := out[funcs[i].name := (funcs[i].start, funcs[i].end)];
      }
      assert funcs[..|funcs|] == funcs;
      if NamesDistinct(funcs) {
        FuncMapValues(funcs);
      }
    }
  }

  /** `from_dict`: a new table with one entry per item, added in item order. */
  method FromDict(d: seq<(string, (int, int))>) returns (f: FunctionInfo)
    ensures fresh(f)
    ensures multiset(f.funcs) == multiset(DictEntries(d))
    ensures KeysDistinct(d) ==>
      forall k :: 0 <= k < |d| ==> d[k].0 in FuncMap(f.funcs) && FuncMap(f.funcs)[d[k].0] == d[k].1
  {
    f := new FunctionInfo();
    ghost var es := DictEntries(d);
    for i := 0 to |d|
      invariant multiset(f.funcs) == multiset(es[..i])
    {
      assert es[..i + 1] == es[..i] + [es[i]];
      f.Add(d[i].0, d[i].1.0, d[i].1.1);
    }
    assert es[..|d|] == es;
    if KeysDistinct(d) {
      FromDictToDict(d, f.funcs);
    }
  }
}
