// execution_trace/modules.py: the sections of loaded modules and the
// per-process module map, which keeps each process's sections sorted and
// non-overlapping and finds the module containing an address.
module TraceModules {
  import opened Wrappers
  import opened Bisect

  datatype SectionDescriptor = SectionDescriptor(
    name: string, runtimeLoadBase: int, nativeLoadBase: int, size: nat,
    readable: bool, writable: bool, executable: bool)

  datatype Module = Module(name: string, path: string, pid: int, sections: seq<SectionDescriptor>)

  /** `SectionDescriptor.contains`. */
  predicate Contains(s: SectionDescriptor, pc: int)
  {
    s.runtimeLoadBase <= pc < s.runtimeLoadBase + s.size
  }

  /** `SectionDescriptor.__lt__`: `a` ends at or before `b` starts. */
  predicate Less(a: SectionDescriptor, b: SectionDescriptor)
  {
    a.runtimeLoadBase + a.size <= b.runtimeLoadBase
  }

  /** `SectionDescriptor.__eq__`: neither section lies below the other. */
  predicate Same(a: SectionDescriptor, b: SectionDescriptor)
  {
    !Less(a, b) && !Less(b, a)
  }

  /** Two non-empty sections compare equal exactly when they share an address. */
  lemma SameIffOverlap(a: SectionDescriptor, b: SectionDescriptor)
    requires a.size > 0 && b.size > 0
    ensures Same(a, b) <==> exists pc :: Contains(a, pc) && Contains(b, pc)
  {
    if Same(a, b) {
      var pc := if a.runtimeLoadBase < b.runtimeLoadBase then b.runtimeLoadBase else a.runtimeLoadBase;
      assert Contains(a, pc) && Contains(b, pc);
    }
  }

  /** The one-byte section `get` searches for. */
  function Probe(pc: int): SectionDescriptor
  {
    SectionDescriptor([], pc, 0, 1, false, false, false)
  }

  /** A section equals the probe for `pc` exactly when it contains `pc`. */
  lemma SameProbeIffContains(s: SectionDescriptor, pc: int)
    ensures Same(s, Probe(pc)) <==> Contains(s, pc)
  {
  }

  /**
   * The dictionary key of a section: its hash is (runtime base, size), and
   * two non-empty sections with the same base and size compare equal.
   */
  type SectionKey = (int, int, nat)

  function Key(pid: int, s: SectionDescriptor): SectionKey
  {
    (pid, s.runtimeLoadBase, s.size)
  }

  /** The sections of one process: non-empty and in strictly increasing, disjoint order. */
  predicate SortedSections(ss: seq<SectionDescriptor>)
  {
    (forall i :: 0 <= i < |ss| ==> ss[i].size > 0) &&
    forall i, j :: 0 <= i < j < |ss| ==> Less(ss[i], ss[j])
  }

  /** `_index`: the `bisect_left` position of `x`, if the section there equals `x`. */
  function Index(ss: seq<SectionDescriptor>, x: SectionDescriptor): (r: Option<nat>)
    ensures r.Some? ==> r.value < |ss|
  {
    var i := BisectLeft(ss, x, Less);
    if i != |ss| && Same(ss[i], x) then Some(i) else None
  }

  /**
   * On sorted sections, `_index` finds the first section equal to `x` and
   * returns nothing exactly when no section equals it.
   */
  lemma IndexSpec(ss: seq<SectionDescriptor>, x: SectionDescriptor)
    requires SortedSections(ss)
    ensures Index(ss, x).None? <==> forall k :: 0 <= k < |ss| ==> !Same(ss[k], x)
    ensures Index(ss, x).Some? ==>
      Index(ss, x).value < |ss| && Same(ss[Index(ss, x).value], x) &&
      forall k :: 0 <= k < Index(ss, x).value ==> Less(ss[k], x)
  {
    assert BelowIsPrefix(ss, x, Less) by {
      forall i, j | 0 <= i < j < |ss| && Less(ss[j], x) ensures Less(ss[i], x)
      {
        assert Less(ss[i], ss[j]);
      }
    }
    BisectLeftSpec(ss, x, Less);
    var i := BisectLeft(ss, x, Less);
    if i < |ss| && !Same(ss[i], x) {
      forall k | 0 <= k < |ss| ensures !Same(ss[k], x)
      {
        if i < k {
          assert Less(ss[i], ss[k]);
        }
      }
    }
  }

  /** The insertion point splits the list into the sections below `x` and those above it. */
  lemma InsortPlace(ss: seq<SectionDescriptor>, x: SectionDescriptor)
    requires SortedSections(ss) && x.size > 0
    requires forall k :: 0 <= k < |ss| ==> !Same(ss[k], x)
    ensures var p := BisectRight(ss, x, Less);
      (forall k :: 0 <= k < p ==> !Less(x, ss[k])) && forall k :: p <= k < |ss| ==> Less(x, ss[k])
  {
    assert AboveIsSuffix(ss, x, Less) by {
      forall i, j | 0 <= i < j < |ss| && Less(x, ss[i]) ensures Less(x, ss[j])
      {
        assert Less(ss[i], ss[j]);
      }
    }
    BisectRightSpec(ss, x, Less);
  }

  /** `insort` of a non-empty section that equals none of the list keeps the list sorted. */
  lemma InsortSorted(ss: seq<SectionDescriptor>, x: SectionDescriptor)
    requires SortedSections(ss) && x.size > 0
    requires forall k :: 0 <= k < |ss| ==> !Same(ss[k], x)
    ensures SortedSections(Insort(ss, x, Less))
  {
    InsortPlace(ss, x);
    var p := BisectRight(ss, x, Less);
    var r := Insort(ss, x, Less);
    InsortAt(ss, x, Less);
    forall a, b | 0 <= a < b < |r| ensures Less(r[a], r[b])
    {
      if b < p {
        assert r[a] == ss[a] && r[b] == ss[b];
      } else if a > p {
        assert r[a] == ss[a - 1] && r[b] == ss[b - 1];
      } else if a == p {
        assert r[b] == ss[b - 1];
      } else if b == p {
        assert r[a] == ss[a];
      } else {
        assert r[a] == ss[a] && r[b] == ss[b - 1];
      }
    }
  }

  /** Deleting one section keeps the list sorted. */
  lemma DeleteSorted(ss: seq<SectionDescriptor>, i: nat)
    requires SortedSections(ss) && i < |ss|
    ensures SortedSections(ss[..i] + ss[i + 1..])
  {
    var r := ss[..i] + ss[i + 1..];
    forall a | 0 <= a < |r| ensures r[a] == if a < i then ss[a] else ss[a + 1]
    {
    }
  }

  /** The first section of a module that contains `pc`. */
  function FirstContaining(sections: seq<SectionDescriptor>, pc: int): (r: Option<nat>)
    ensures r.None? <==> forall k :: 0 <= k < |sections| ==> !Contains(sections[k], pc)
    ensures r.Some? ==>
      r.value < |sections| && Contains(sections[r.value], pc) &&
      forall k :: 0 <= k < r.value ==> !Contains(sections[k], pc)
  {
    if sections == [] then None
    else if Contains(sections[0], pc) then Some(0)
    else
      var r := FirstContaining(sections[1..], pc);
      assert forall k :: 1 <= k < |sections| ==> sections[1..][k - 1] == sections[k];
      if r.None? then None else Some(r.value + 1)
  }

  /** `Module.get_section`: the loop over the sections, returning the first that contains `pc`. */
  method GetSection(m: Module, pc: int) returns (r: Option<SectionDescriptor>)
    ensures r.None? <==> FirstContaining(m.sections, pc).None?
    ensures r.Some? ==> r.value == m.sections[FirstContaining(m.sections, pc).value]
  {
    for i := 0 to |m.sections|
      invariant forall k :: 0 <= k < i ==> !Contains(m.sections[k], pc)
    {
      if Contains(m.sections[i], pc) {
        return Some(m.sections[i]);
      }
    }
    return None;
  }

  /**
   * `Module.to_native`: `pc` moved from the section's runtime base to its
   * native base, using the first section containing it; None when no
   * section contains `pc`.
   */
  method ToNative(m: Module, pc: int) returns (r: Option<int>)
    ensures r.None? <==> forall k :: 0 <= k < |m.sections| ==> !Contains(m.sections[k], pc)
    ensures r.Some? ==>
      exists k :: 0 <= k < |m.sections| && Contains(m.sections[k], pc) &&
        (forall j :: 0 <= j < k ==> !Contains(m.sections[j], pc)) &&
        r.value - m.sections[k].nativeLoadBase == pc - m.sections[k].runtimeLoadBase
  {
    var section := GetSection(m, pc);
    if section.None? {
      return None;
    }
    return Some(pc - section.value.runtimeLoadBase + section.value.nativeLoadBase);
  }

  /** Some loaded section equals `x`. */
  predicate Loaded(ss: seq<SectionDescriptor>, x: SectionDescriptor)
  {
    exists t :: t in ss && Same(x, t)
  }

  /** One step of `add`: `x` is inserted unless a loaded section equals it. */
  function AddOne(ss: seq<SectionDescriptor>, x: SectionDescriptor): seq<SectionDescriptor>
  {
    if Index(ss, x).Some? then ss else Insort(ss, x, Less)
  }

  lemma AddOneSpec(ss: seq<SectionDescriptor>, x: SectionDescriptor)
    requires SortedSections(ss) && x.size > 0
    ensures SortedSections(AddOne(ss, x))
    ensures forall s :: s in ss ==> s in AddOne(ss, x)
    ensures forall s :: s in AddOne(ss, x) ==> s in ss || s == x
    ensures Loaded(AddOne(ss, x), x)
  {
    IndexSpec(ss, x);
    var idx := Index(ss, x);
    if idx.Some? {
      assert ss[idx.value] in ss;
    } else {
      InsortSorted(ss, x);
      var p := BisectRight(ss, x, Less);
      assert Insort(ss, x, Less) == ss[..p] + [x] + ss[p..];
      assert Same(x, x);
    }
  }

  lemma LoadedGrows(ss: seq<SectionDescriptor>, r: seq<SectionDescriptor>, x: SectionDescriptor)
    requires forall s :: s in ss ==> s in r
    requires Loaded(ss, x)
    ensures Loaded(r, x)
  {
  }

  /** A process's section list, the section -> module dictionary, and how a loop over sections ended. */
  datatype SectionState = SectionState(sections: seq<SectionDescriptor>, modules: map<SectionKey, Module>, outcome: Outcome)

  /**
   * What the loop of `ModuleMap.add` does with the sections `secs` of
   * `mod`: a zero-size section raises (the sections before it stay added),
   * a section equal to a loaded one is skipped, any other is inserted in
   * order and mapped to the module.
   */
  function AddAll(ss: seq<SectionDescriptor>, s2m: map<SectionKey, Module>, mod: Module, secs: seq<SectionDescriptor>): SectionState
    decreases |secs|
  {
    if secs == [] then SectionState(ss, s2m, Pass)
    else if secs[0].size == 0 then SectionState(ss, s2m, Raise(PlainException))
    else if Index(ss, secs[0]).Some? then AddAll(ss, s2m, mod, secs[1..])
    else AddAll(Insort(ss, secs[0], Less), s2m[Key(mod.pid, secs[0]) := mod], mod, secs[1..])
  }

  /** `add` keeps the list sorted, never drops a loaded section, and inserts only the module's sections. */
  lemma {:induction false} AddAllSections(ss: seq<SectionDescriptor>, s2m: map<SectionKey, Module>, mod: Module, secs: seq<SectionDescriptor>)
    requires SortedSections(ss)
    ensures var r := AddAll(ss, s2m, mod, secs);
      SortedSections(r.sections) &&
      (forall s :: s in ss ==> s in r.sections) &&
      (forall s :: s in r.sections ==> s in ss || s in secs)
    decreases |secs|
  {
    if secs != [] && secs[0].size != 0 {
      var x := secs[0];
      AddOneSpec(ss, x);
      var s2m' := if Index(ss, x).Some? then s2m else s2m[Key(mod.pid, x) := mod];
      AddAllSections(AddOne(ss, x), s2m', mod, secs[1..]);
      assert forall s :: s in secs <==> s == x || s in secs[1..];
    }
  }

  /** `add` raises, with a plain Exception, exactly when one of the sections is empty. */
  lemma {:induction false} AddAllRaises(ss: seq<SectionDescriptor>, s2m: map<SectionKey, Module>, mod: Module, secs: seq<SectionDescriptor>)
    ensures var r := AddAll(ss, s2m, mod, secs);
      (r.outcome.Raise? <==> exists k :: 0 <= k < |secs| && secs[k].size == 0) &&
      (r.outcome.Raise? ==> r.outcome.error == PlainException)
    decreases |secs|
  {
    if secs != [] && secs[0].size != 0 {
      var x := secs[0];
      var s2m' := if Index(ss, x).Some? then s2m else s2m[Key(mod.pid, x) := mod];
      AddAllRaises(AddOne(ss, x), s2m', mod, secs[1..]);
      assert forall k :: 1 <= k < |secs| ==> secs[1..][k - 1] == secs[k];
    }
  }

  /**
   * Every section `add` inserts maps to the module, and the only dictionary
   * entries it adds or changes are the module's.
   */
  lemma {:induction false} AddAllModules(ss: seq<SectionDescriptor>, s2m: map<SectionKey, Module>, mod: Module, secs: seq<SectionDescriptor>)
    ensures var r := AddAll(ss, s2m, mod, secs);
      (forall s :: s in r.sections && s !in ss ==> Key(mod.pid, s) in r.modules && r.modules[Key(mod.pid, s)] == mod) &&
      (forall k :: k in s2m ==> k in r.modules) &&
      (forall k :: k in r.modules && (k !in s2m || r.modules[k] != s2m[k]) ==> r.modules[k] == mod && k.0 == mod.pid)
    decreases |secs|
  {
    if secs != [] && secs[0].size != 0 {
      var x := secs[0];
      var s2m' := if Index(ss, x).Some? then s2m else s2m[Key(mod.pid, x) := mod];
      var ss' := AddOne(ss, x);
      AddAllModules(ss', s2m', mod, secs[1..]);
      if Index(ss, x).None? {
        var i := BisectRight(ss, x, Less);
        assert ss' == ss[..i] + [x] + ss[i..];
        assert ss == ss[..i] + ss[i..];
        assert forall s :: s in ss' ==> s in ss || s == x;
      }
    }
  }

  /** When `add` does not raise, every section of the module equals a loaded one. */
  lemma {:induction false} AddAllLoaded(ss: seq<SectionDescriptor>, s2m: map<SectionKey, Module>, mod: Module, secs: seq<SectionDescriptor>)
    requires SortedSections(ss)
    ensures var r := AddAll(ss, s2m, mod, secs);
      r.outcome.Pass? ==> forall s :: s in secs ==> Loaded(r.sections, s)
    decreases |secs|
  {
    if secs != [] && secs[0].size != 0 {
      var x := secs[0];
      var s2m' := if Index(ss, x).Some? then s2m else s2m[Key(mod.pid, x) := mod];
      var ss' := AddOne(ss, x);
      AddOneSpec(ss, x);
      AddAllLoaded(ss', s2m', mod, secs[1..]);
      AddAllSections(ss', s2m', mod, secs[1..]);
      var r := AddAll(ss', s2m', mod, secs[1..]);
      assert forall s :: s in secs <==> s == x || s in secs[1..];
      if r.outcome.Pass? {
        LoadedGrows(ss', r.sections, x);
      }
    }
  }

  /** The loop of `ModuleMap.add` over one process's sections and the dictionary. */
  method AddSections(ss0: seq<SectionDescriptor>, s2m0: map<SectionKey, Module>, mod: Module)
    returns (ss: seq<SectionDescriptor>, s2m: map<SectionKey, Module>, o: Outcome)
    ensures SectionState(ss, s2m, o) == AddAll(ss0, s2m0, mod, mod.sections)
  {
    ss, s2m := ss0, s2m0;
    var secs := mod.sections;
    assert secs[0..] == secs;
    for i := 0 to |secs|
      invariant AddAll(ss, s2m, mod, secs[i..]) == AddAll(ss0, s2m0, mod, secs)
    {
      assert secs[i..][1..] == secs[i + 1..] && secs[i..][0] == secs[i];
      var section := secs[i];
      if section.size == 0 {
        return ss, s2m, Raise(PlainException);
      }
      var idx := Index(ss, section);
      if idx != None {
        continue;
      }
      ss := Insort(ss, section, Less);
      s2m := s2m[Key(mod.pid, section) := mod];
    }
    assert secs[|secs|..] == [];
    o := Pass;
  }

  /**
   * What the loop of `ModuleMap.remove` does: each section of the module
   * deletes the first loaded section equal to it, then its dictionary
   * entry; a missing dictionary entry raises KeyError, after the list
   * deletion.
   */
  function RemoveAll(ss: seq<SectionDescriptor>, s2m: map<SectionKey, Module>, mod: Module, secs: seq<SectionDescriptor>): SectionState
    decreases |secs|
  {
    if secs == [] then SectionState(ss, s2m, Pass)
    else
      var idx := Index(ss, secs[0]);
      if idx.None? then RemoveAll(ss, s2m, mod, secs[1..])
      else
        var ss' := ss[..idx.value] + ss[idx.value + 1..];
        var key := Key(mod.pid, secs[0]);
        if key !in s2m then SectionState(ss', s2m, Raise(KeyError))
        else RemoveAll(ss', s2m - {key}, mod, secs[1..])
  }

  /** `remove` keeps the list sorted and deletes only sections equal to one of the module's. */
  lemma {:induction false} RemoveAllSections(ss: seq<SectionDescriptor>, s2m: map<SectionKey, Module>, mod: Module, secs: seq<SectionDescriptor>)
    requires SortedSections(ss)
    ensures var r := RemoveAll(ss, s2m, mod, secs);
      SortedSections(r.sections) &&
      (forall s :: s in r.sections ==> s in ss) &&
      (forall s :: s in ss && s !in r.sections ==> exists t :: t in secs && Same(t, s))
    decreases |secs|
  {
    if secs != [] {
      var x := secs[0];
      IndexSpec(ss, x);
      var idx := Index(ss, x);
      assert forall s :: s in secs <==> s == x || s in secs[1..];
      if idx.None? {
        RemoveAllSections(ss, s2m, mod, secs[1..]);
      } else {
        var j := idx.value;
        var ss' := ss[..j] + ss[j + 1..];
        DeleteSorted(ss, j);
        assert ss == ss[..j] + [ss[j]] + ss[j + 1..];
        assert forall s :: s in ss ==> s in ss' || s == ss[j];
        assert x in secs && Same(x, ss[j]);
        var key := Key(mod.pid, x);
        if key in s2m {
          RemoveAllSections(ss', s2m - {key}, mod, secs[1..]);
        }
      }
    }
  }

  /**
   * `remove` deletes only dictionary entries keyed by the module's sections,
   * changes no other, and can raise only KeyError.
   */
  lemma {:induction false} RemoveAllModules(ss: seq<SectionDescriptor>, s2m: map<SectionKey, Module>, mod: Module, secs: seq<SectionDescriptor>)
    ensures var r := RemoveAll(ss, s2m, mod, secs);
      (forall k :: k in r.modules ==> k in s2m && r.modules[k] == s2m[k]) &&
      (forall k :: k in s2m && k !in r.modules ==> exists t :: t in secs && k == Key(mod.pid, t)) &&
      (r.outcome.Raise? ==> r.outcome.error == KeyError)
    decreases |secs|
  {
    if secs != [] {
      var x := secs[0];
      var idx := Index(ss, x);
      assert forall s :: s in secs <==> s == x || s in secs[1..];
      if idx.None? {
        RemoveAllModules(ss, s2m, mod, secs[1..]);
      } else {
        var key := Key(mod.pid, x);
        if key in s2m {
          RemoveAllModules(ss[..idx.value] + ss[idx.value + 1..], s2m - {key}, mod, secs[1..]);
        }
      }
    }
  }

  /** Every section in `ss` has its `(pid, section)` entry in the dictionary. */
  predicate Linked(pid: int, ss: seq<SectionDescriptor>, s2m: map<SectionKey, Module>)
  {
    forall s :: s in ss ==> Key(pid, s) in s2m
  }

  /**
   * In a sorted list, the dictionary key of a section equal to the one at
   * `j` belongs to no other listed section: two sections with one key
   * coincide, and listed sections are disjoint.
   */
  lemma KeyOnlyOwn(pid: int, ss: seq<SectionDescriptor>, j: nat, x: SectionDescriptor)
    requires SortedSections(ss) && j < |ss| && Same(ss[j], x)
    ensures forall s :: s in ss[..j] + ss[j + 1..] ==> Key(pid, s) != Key(pid, x)
  {
    forall s | s in ss[..j] + ss[j + 1..] ensures Key(pid, s) != Key(pid, x)
    {
      var k :| 0 <= k < |ss| && k != j && ss[k] == s by {
        if s in ss[..j] {
          var a :| 0 <= a < j && ss[..j][a] == s;
          assert ss[a] == s;
        } else {
          var a :| 0 <= a < |ss[j + 1..]| && ss[j + 1..][a] == s;
          assert ss[j + 1 + a] == s;
        }
      }
      if k < j {
        assert Less(ss[k], ss[j]);
      } else {
        assert Less(ss[j], ss[k]);
      }
    }
  }

  /** Deleting the section at `j` and the key of a section equal to it keeps the others linked. */
  lemma RemoveStepLinked(pid: int, ss: seq<SectionDescriptor>, s2m: map<SectionKey, Module>, j: nat, x: SectionDescriptor)
    requires SortedSections(ss) && Linked(pid, ss, s2m) && j < |ss| && Same(ss[j], x)
    ensures Linked(pid, ss[..j] + ss[j + 1..], s2m)
    ensures Linked(pid, ss[..j] + ss[j + 1..], s2m - {Key(pid, x)})
  {
    assert forall s :: s in ss[..j] + ss[j + 1..] ==> s in ss;
    KeyOnlyOwn(pid, ss, j, x);
  }

  /** `remove` keeps every listed section's dictionary entry, whether it ends normally or raises. */
  lemma {:induction false} RemoveAllLinked(ss: seq<SectionDescriptor>, s2m: map<SectionKey, Module>, mod: Module, secs: seq<SectionDescriptor>)
    requires SortedSections(ss) && Linked(mod.pid, ss, s2m)
    ensures var r := RemoveAll(ss, s2m, mod, secs); Linked(mod.pid, r.sections, r.modules)
    decreases |secs|
  {
    if secs != [] {
      var x := secs[0];
      var idx := Index(ss, x);
      if idx.None? {
        RemoveAllLinked(ss, s2m, mod, secs[1..]);
      } else {
        var j := idx.value;
        IndexSpec(ss, x);
        DeleteSorted(ss, j);
        RemoveStepLinked(mod.pid, ss, s2m, j, x);
        if Key(mod.pid, x) in s2m {
          RemoveAllLinked(ss[..j] + ss[j + 1..], s2m - {Key(mod.pid, x)}, mod, secs[1..]);
        }
      }
    }
  }

  /** The loop of `ModuleMap.remove` over one process's sections and the dictionary. */
  method RemoveSections(ss0: seq<SectionDescriptor>, s2m0: map<SectionKey, Module>, mod: Module)
    returns (ss: seq<SectionDescriptor>, s2m: map<SectionKey, Module>, o: Outcome)
    ensures SectionState(ss, s2m, o) == RemoveAll(ss0, s2m0, mod, mod.sections)
  {
    ss, s2m := ss0, s2m0;
    var secs := mod.sections;
    assert secs[0..] == secs;
    for i := 0 to |secs|
      invariant RemoveAll(ss, s2m, mod, secs[i..]) == RemoveAll(ss0, s2m0, mod, secs)
    {
      assert secs[i..][1..] == secs[i + 1..] && secs[i..][0] == secs[i];
      var section := secs[i];
      var idx := Index(ss, section);
      if idx != None {
        ss := ss[..idx.value] + ss[idx.value + 1..];
        var key := Key(mod.pid, section);
        if key !in s2m {
          return ss, s2m, Raise(KeyError);
        }
        s2m := s2m - {key};
      }
    }
    assert secs[|secs|..] == [];
    o := Pass;
  }

  /** `_translate_pid`: addresses at or above the kernel start belong to process 0. */
  function TranslatePid(kernelStart: int, pid: int, pc: int): int
  {
    if pc >= kernelStart then 0 else pid
  }

  // ---------------------------------------------------------------------
  // The module map as a value

  /** The three attributes of a `ModuleMap`. */
  datatype MapState = MapState(pidToSections: map<int, seq<SectionDescriptor>>,
                               sectionToModule: map<SectionKey, Module>, kernelStart: int)

  /** A new map: no process, no module, the kernel start at 2^64 - 1. */
  const EmptyMap := MapState(map[], map[], 0xffff_ffff_ffff_ffff)

  /**
   * Every process's sections are sorted and non-empty, and every section
   * listed for a process has its entry in the section -> module dictionary.
   */
  predicate ValidMap(m: MapState)
  {
    forall pid :: pid in m.pidToSections ==>
      SortedSections(m.pidToSections[pid]) && Linked(pid, m.pidToSections[pid], m.sectionToModule)
  }

  /** The section list `add` and `remove` start from: the process's list, or a new empty one. */
  function SectionsOf(m: MapState, pid: int): seq<SectionDescriptor>
  {
    if pid in m.pidToSections then m.pidToSections[pid] else []
  }

  /** `ModuleMap.add`: the state afterwards (the list is updated in place, so also after a raise) and how it ended. */
  function AddModule(m: MapState, mod: Module): (MapState, Outcome)
  {
    var r := AddAll(SectionsOf(m, mod.pid), m.sectionToModule, mod, mod.sections);
    (m.(pidToSections := m.pidToSections[mod.pid := r.sections], sectionToModule := r.modules), r.outcome)
  }

  /** `ModuleMap.remove`: KeyError, changing nothing, for an unknown process; otherwise the loop's result. */
  function RemoveModule(m: MapState, mod: Module): (MapState, Outcome)
  {
    if mod.pid !in m.pidToSections then (m, Raise(KeyError))
    else
      var r := RemoveAll(m.pidToSections[mod.pid], m.sectionToModule, mod, mod.sections);
      (m.(pidToSections := m.pidToSections[mod.pid := r.sections], sectionToModule := r.modules), r.outcome)
  }

  /**
   * `add` keeps the map valid and the kernel start; only the module's
   * process changes, and it keeps every section it had; every new section
   * is one of the module's and maps to it; it raises exactly on an empty
   * section, and otherwise every section of the module is loaded; no
   * dictionary entry is lost and the only ones added or changed map to
   * the module.
   */
  lemma AddModuleSpec(m: MapState, mod: Module)
    requires ValidMap(m)
    ensures var (m', o) := AddModule(m, mod);
      ValidMap(m') && m'.kernelStart == m.kernelStart &&
      m'.pidToSections.Keys == m.pidToSections.Keys + {mod.pid} &&
      (forall p :: p in m.pidToSections && p != mod.pid ==> m'.pidToSections[p] == m.pidToSections[p]) &&
      (forall s :: s in SectionsOf(m, mod.pid) ==> s in m'.pidToSections[mod.pid]) &&
      (forall s :: s in m'.pidToSections[mod.pid] && s !in SectionsOf(m, mod.pid) ==>
        s in mod.sections && Key(mod.pid, s) in m'.sectionToModule && m'.sectionToModule[Key(mod.pid, s)] == mod) &&
      (o.Raise? <==> exists k :: 0 <= k < |mod.sections| && mod.sections[k].size == 0) &&
      (o.Raise? ==> o.error == PlainException) &&
      (o.Pass? ==> forall s :: s in mod.sections ==> Loaded(m'.pidToSections[mod.pid], s)) &&
      (forall k :: k in m.sectionToModule ==> k in m'.sectionToModule) &&
      (forall k :: k in m'.sectionToModule && (k !in m.sectionToModule || m'.sectionToModule[k] != m.sectionToModule[k]) ==>
        m'.sectionToModule[k] == mod && k.0 == mod.pid)
  {
    var ss0 := SectionsOf(m, mod.pid);
    AddAllSections(ss0, m.sectionToModule, mod, mod.sections);
    AddAllRaises(ss0, m.sectionToModule, mod, mod.sections);
    AddAllModules(ss0, m.sectionToModule, mod, mod.sections);
    AddAllLoaded(ss0, m.sectionToModule, mod, mod.sections);
    var r := AddAll(ss0, m.sectionToModule, mod, mod.sections);
    assert Linked(mod.pid, r.sections, r.modules);
  }

  /**
   * `remove` keeps the map valid, the kernel start and the set of
   * processes; an unknown process is a KeyError that changes nothing;
   * only the module's process changes, losing only sections equal to one
   * of the module's; dictionary entries are only deleted, and only those
   * keyed by the module's sections; the only error is KeyError.
   */
  lemma RemoveModuleSpec(m: MapState, mod: Module)
    requires ValidMap(m)
    ensures var (m', o) := RemoveModule(m, mod);
      ValidMap(m') && m'.kernelStart == m.kernelStart &&
      (mod.pid !in m.pidToSections ==> m' == m && o == Raise(KeyError)) &&
      (o.Raise? ==> o.error == KeyError) &&
      m'.pidToSections.Keys == m.pidToSections.Keys &&
      (forall p :: p in m.pidToSections && p != mod.pid ==> m'.pidToSections[p] == m.pidToSections[p]) &&
      (mod.pid in m.pidToSections ==>
        (forall s :: s in m'.pidToSections[mod.pid] ==> s in m.pidToSections[mod.pid]) &&
        forall s :: s in m.pidToSections[mod.pid] && s !in m'.pidToSections[mod.pid] ==>
          exists t :: t in mod.sections && Same(t, s)) &&
      (forall k :: k in m'.sectionToModule ==> k in m.sectionToModule && m'.sectionToModule[k] == m.sectionToModule[k]) &&
      (forall k :: k in m.sectionToModule && k !in m'.sectionToModule ==> exists t :: t in mod.sections && k == Key(mod.pid, t))
  {
    if mod.pid in m.pidToSections {
      RemoveAllSections(m.pidToSections[mod.pid], m.sectionToModule, mod, mod.sections);
      RemoveAllModules(m.pidToSections[mod.pid], m.sectionToModule, mod, mod.sections);
      RemoveAllLinked(m.pidToSections[mod.pid], m.sectionToModule, mod, mod.sections);
    }
  }

  /**
   * `get`: the module mapped to the section containing `pc` in the process
   * (process 0 at or above the kernel start); a plain Exception for an
   * unknown process or an address in no section, KeyError for a section
   * the dictionary does not know.
   */
  function Lookup(m: MapState, pid: int, pc: int): Result<Module>
  {
    var p := TranslatePid(m.kernelStart, pid, pc);
    if p !in m.pidToSections then Fail(PlainException)
    else
      var idx := Index(m.pidToSections[p], Probe(pc));
      if idx.None? then Fail(PlainException)
      else
        var key := Key(p, m.pidToSections[p][idx.value]);
        if key !in m.sectionToModule then Fail(KeyError) else Ok(m.sectionToModule[key])
  }

  /**
   * On a valid map, `get` fails, always with a plain Exception, exactly
   * when the process is unknown or no section contains `pc` (its KeyError
   * cannot happen there); a module it returns is the one mapped to a
   * section of the process containing `pc`.
   */
  lemma LookupSpec(m: MapState, pid: int, pc: int)
    requires ValidMap(m)
    ensures var p := TranslatePid(m.kernelStart, pid, pc);
      (Lookup(m, pid, pc) == Fail(PlainException) <==>
        p !in m.pidToSections || forall k :: 0 <= k < |m.pidToSections[p]| ==> !Contains(m.pidToSections[p][k], pc)) &&
      (Lookup(m, pid, pc).Ok? ==>
        exists k :: 0 <= k < |m.pidToSections[p]| && Contains(m.pidToSections[p][k], pc) &&
          Key(p, m.pidToSections[p][k]) in m.sectionToModule &&
          Lookup(m, pid, pc).value == m.sectionToModule[Key(p, m.pidToSections[p][k])]) &&
      (Lookup(m, pid, pc).Fail? ==> Lookup(m, pid, pc).error == PlainException)
  {
    var p := TranslatePid(m.kernelStart, pid, pc);
    if p in m.pidToSections {
      var sections := m.pidToSections[p];
      IndexSpec(sections, Probe(pc));
      forall k | 0 <= k < |sections| ensures Same(sections[k], Probe(pc)) <==> Contains(sections[k], pc)
      {
        SameProbeIffContains(sections[k], pc);
      }
    }
  }

  // ---------------------------------------------------------------------
  // ModuleMap

  class ModuleMap {
    var pidToSections: map<int, seq<SectionDescriptor>>
    var sectionToModule: map<SectionKey, Module>
    var kernelStart: int

    function State(): MapState
      reads this
    {
      MapState(pidToSections, sectionToModule, kernelStart)
    }

    predicate Valid()
      reads this
    {
      ValidMap(State())
    }

    constructor()
      ensures Valid() && State() == EmptyMap
    {
      pidToSections := map[];
      sectionToModule := map[];
      kernelStart := 0xffff_ffff_ffff_ffff;
    }

    /** `add`: the module's non-overlapping sections are inserted in order and mapped to it. */
    method Add(mod: Module) returns (o: Outcome)
      requires Valid()
      modifies this
      ensures Valid()
      ensures (State(), o) == AddModule(old(State()), mod)
    {
      AddModuleSpec(State(), mod);
      var ss0 := if mod.pid in pidToSections then pidToSections[mod.pid] else [];
      var ss, s2m;
      ss, s2m, o := AddSections(ss0, sectionToModule, mod);
      pidToSections := pidToSections[mod.pid := ss];
      sectionToModule := s2m;
    }

    /** `remove`: KeyError for an unknown process; otherwise the loaded sections equal to the module's go. */
    method Remove(mod: Module) returns (o: Outcome)
      requires Valid()
      modifies this
      ensures Valid()
      ensures (State(), o) == RemoveModule(old(State()), mod)
    {
      RemoveModuleSpec(State(), mod);
      if mod.pid !in pidToSections {
        return Raise(KeyError);
      }
      var ss, s2m;
      ss, s2m, o := RemoveSections(pidToSections[mod.pid], sectionToModule, mod);
      pidToSections := pidToSections[mod.pid := ss];
      sectionToModule := s2m;
    }

    /** `remove_pid`: the process's section list goes; KeyError for an unknown process. */
    method RemovePid(pid: int) returns (o: Outcome)
      requires Valid()
      modifies this`pidToSections
      ensures Valid()
      ensures o == (if pid in old(pidToSections) then Pass else Raise(KeyError))
      ensures pidToSections == old(pidToSections) - {pid}
    {
      if pid !in pidToSections {
        return Raise(KeyError);
      }
      pidToSections := pidToSections - {pid};
      return Pass;
    }

    /** `get`: see `Lookup`. */
    method Get(pid: int, pc: int) returns (r: Result<Module>)
      ensures r == Lookup(State(), pid, pc)
    {
      var p := TranslatePid(kernelStart, pid, pc);
      if p !in pidToSections {
        return Fail(PlainException);
      }
      var sections := pidToSections[p];
      var idx := Index(sections, Probe(pc));
      if idx.None? {
        return Fail(PlainException);
      }
      var key := Key(p, sections[idx.value]);
      if key !in sectionToModule {
        return Fail(KeyError);
      }
      return Ok(sectionToModule[key]);
    }

    /** `clone`: a new map with copies of both dictionaries and the kernel start. */
    method Clone() returns (ret: ModuleMap)
      ensures fresh(ret)
      ensures ret.State() == State()
    {
      ret := new ModuleMap();
      ret.pidToSections := pidToSections;
      ret.sectionToModule := sectionToModule;
      ret.kernelStart := kernelStart;
    }

    /** The `kernel_start` setter. */
    method SetKernelStart(pc: int)
      modifies this`kernelStart
      ensures State() == old(State()).(kernelStart := pc)
    {
      kernelStart := pc;
    }
  }
}
