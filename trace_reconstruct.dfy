// execution_trace/__init__.py, `ExecutionTraceParser.parse` after the files
// are read, and `_get_parent_states`: pick the states to return, then hang
// each state's trace under the fork entry it was forked from, from the
// highest state id down.
module TraceReconstruct {
  import opened Wrappers
  import TE = TraceEntries

  type Trace = seq<TE.Entry>

  /** `_path_info`: a forked state's parent and the index of the fork in the parent's trace. */
  type PathInfo = map<nat, (nat, nat)>

  /** What a step of `parse` gives: a value, a raised exception, or a loop that never ends. */
  datatype Found<T> = Found(value: T) | Raised(error: ErrorKind) | Loops

  // ---------------------------------------------------------------------
  // Parent chains

  /**
   * `_get_parent_states(s)`: follow parents from `s` until state 0. A state
   * without path information unpacks `None` and raises TypeError; coming
   * back to a state already passed (`seen`) means the loop never ends.
   */
  function ParentChain(info: PathInfo, s: nat, seen: set<nat>): Found<seq<nat>>
    decreases info.Keys - seen
  {
    if s == 0 then Found([])
    else if s in seen then Loops
    else if s !in info then Raised(TypeError)
    else
      match ParentChain(info, info[s].0, seen + {s})
      case Found(ps) => Found([info[s].0] + ps)
      case Raised(e) => Raised(e)
      case Loops => Loops
  }

  /**
   * A chain that ends lists the parent of `s`, then each state's parent in
   * turn, and ends at state 0; every state on it but the last has path
   * information.
   */
  lemma {:induction false} ChainLinks(info: PathInfo, s: nat, seen: set<nat>, ps: seq<nat>)
    requires ParentChain(info, s, seen) == Found(ps)
    ensures ps == [] <==> s == 0
    ensures ps != [] ==> s in info && ps[0] == info[s].0 && ps[|ps| - 1] == 0
    ensures forall k :: 0 <= k < |ps| - 1 ==> ps[k] != 0 && ps[k] in info && ps[k + 1] == info[ps[k]].0
    decreases info.Keys - seen
  {
    if s != 0 {
      var rest := ParentChain(info, info[s].0, seen + {s}).value;
      ChainLinks(info, info[s].0, seen + {s}, rest);
      assert ps == [info[s].0] + rest;
    }
  }

  /** Every recorded parent has a smaller id than its child, as S2E numbers forked states. */
  predicate Ordered(info: PathInfo)
  {
    forall c :: c in info ==> info[c].0 < c
  }

  /** When parents have smaller ids, following them always ends, at state 0 or at a state without path information. */
  lemma {:induction false} OrderedChainEnds(info: PathInfo, s: nat, seen: set<nat>)
    requires Ordered(info) && forall v :: v in seen ==> v > s
    ensures !ParentChain(info, s, seen).Loops?
    decreases s
  {
    if s != 0 && s in info {
      OrderedChainEnds(info, info[s].0, seen + {s});
    }
  }

  // ---------------------------------------------------------------------
  // States to return

  /** The states on the parent chain of `s`, when it ends. */
  function ChainSet(info: PathInfo, s: nat): set<nat>
  {
    match ParentChain(info, s, {})
    case Found(ps) => set x | x in ps
    case _ => {}
  }

  /** The requested ids' parents, gathered left to right; the first chain that fails decides the outcome. */
  function Gather(info: PathInfo, ids: seq<nat>): Found<set<nat>>
  {
    if ids == [] then Found({})
    else
      match Gather(info, ids[..|ids| - 1])
      case Raised(e) => Raised(e)
      case Loops => Loops
      case Found(a) =>
        match ParentChain(info, ids[|ids| - 1], {})
        case Found(_) => Found(a + ChainSet(info, ids[|ids| - 1]))
        case Raised(e) => Raised(e)
        case Loops => Loops
  }

  /** `states_to_return`: the requested ids and their parents without state 0, or every state with path information. */
  function Targets(info: PathInfo, pathIds: seq<nat>): Found<set<nat>>
  {
    if pathIds == [] then Found(info.Keys)
    else
      match Gather(info, pathIds)
      case Found(a) => Found((set x | x in pathIds) + a - {0})
      case Raised(e) => Raised(e)
      case Loops => Loops
  }

  /** Gathering one more id adds its chain, which must end. */
  lemma GatherStep(info: PathInfo, ids: seq<nat>)
    requires ids != [] && Gather(info, ids).Found?
    ensures Gather(info, ids[..|ids| - 1]).Found? && ParentChain(info, ids[|ids| - 1], {}).Found?
    ensures Gather(info, ids).value == Gather(info, ids[..|ids| - 1]).value + ChainSet(info, ids[|ids| - 1])
  {
  }

  /** A state is gathered exactly when it is on the parent chain of a requested id. */
  lemma {:induction false} GatherSpec(info: PathInfo, ids: seq<nat>)
    requires Gather(info, ids).Found?
    ensures forall k :: 0 <= k < |ids| ==> ParentChain(info, ids[k], {}).Found?
    ensures forall x :: x in Gather(info, ids).value <==> exists k :: 0 <= k < |ids| && x in ChainSet(info, ids[k])
    decreases |ids|
  {
    if ids != [] {
      var front := ids[..|ids| - 1];
      GatherStep(info, ids);
      GatherSpec(info, front);
      assert forall k :: 0 <= k < |front| ==> ids[k] == front[k];
    }
  }

  /**
   * With requested ids, the states to return are the nonzero ids that are
   * requested or on a requested id's parent chain; each requested id's
   * chain must end.
   */
  lemma TargetsSpec(info: PathInfo, pathIds: seq<nat>)
    requires pathIds != [] && Targets(info, pathIds).Found?
    ensures forall k :: 0 <= k < |pathIds| ==> ParentChain(info, pathIds[k], {}).Found?
    ensures forall x :: x in Targets(info, pathIds).value <==>
      x != 0 && (x in pathIds || exists k :: 0 <= k < |pathIds| && x in ChainSet(info, pathIds[k]))
  {
    GatherSpec(info, pathIds);
    var t := Targets(info, pathIds).value;
    forall x ensures x in t <==> x != 0 && (x in pathIds || exists k :: 0 <= k < |pathIds| && x in ChainSet(info, pathIds[k]))
    {
      if x in pathIds {
        var k :| 0 <= k < |pathIds| && pathIds[k] == x;
      }
    }
  }

  /** When parents have smaller ids, collecting the states to return never loops. */
  lemma {:induction false} OrderedTargetsEnd(info: PathInfo, pathIds: seq<nat>)
    requires Ordered(info)
    ensures !Targets(info, pathIds).Loops?
  {
    if pathIds != [] {
      OrderedGatherEnds(info, pathIds);
    }
  }

  lemma {:induction false} OrderedGatherEnds(info: PathInfo, ids: seq<nat>)
    requires Ordered(info)
    ensures !Gather(info, ids).Loops?
    decreases |ids|
  {
    if ids != [] {
      OrderedGatherEnds(info, ids[..|ids| - 1]);
      OrderedChainEnds(info, ids[|ids| - 1], {});
    }
  }

  // ---------------------------------------------------------------------
  // Highest id first

  /** The largest element of a nonempty set. */
  ghost function SetMax(s: set<nat>): (m: nat)
    requires s != {}
    ensures m in s && forall x :: x in s ==> x <= m
  {
    var x :| x in s;
    var rest := s - {x};
    assert forall y :: y in s ==> y in rest || y == x;
    if rest == {} then x
    else
      var m := SetMax(rest);
      if m >= x then m else x
  }

  /** `sorted(states, reverse=True)`. */
  ghost function Descending(s: set<nat>): seq<nat>
    decreases s
  {
    if s == {} then [] else [SetMax(s)] + Descending(s - {SetMax(s)})
  }

  /** The order lists every state once, from the highest id down. */
  lemma {:induction false} DescendingSpec(s: set<nat>)
    ensures forall x :: x in Descending(s) <==> x in s
    ensures forall j, k :: 0 <= j < k < |Descending(s)| ==> Descending(s)[j] > Descending(s)[k]
    decreases s
  {
    if s != {} {
      var m := SetMax(s);
      var rest := s - {m};
      DescendingSpec(rest);
      var d := Descending(rest);
      var r := [m] + d;
      assert Descending(s) == r;
      forall x ensures x in r <==> x in s
      {
        assert x in r <==> x == m || x in d;
      }
      forall j, k | 0 <= j < k < |r| ensures r[j] > r[k]
      {
        if j == 0 {
          assert r[k] == d[k - 1] && d[k - 1] in rest;
        } else {
          assert r[j] == d[j - 1] && r[k] == d[k - 1];
        }
      }
    }
  }

  // ---------------------------------------------------------------------
  // Attaching

  /** `children[id] = t` on a fork's dict of branches: an existing id keeps its place, a new one goes last. */
  function SetBranch(bs: seq<TE.Branch>, id: nat, t: Trace): seq<TE.Branch>
  {
    if bs == [] then [TE.Branch(id, t)]
    else if bs[0].id == id then [TE.Branch(id, t)] + bs[1..]
    else [bs[0]] + SetBranch(bs[1..], id, t)
  }

  /**
   * The fork then holds `t` under `id`, keeps every branch with another
   * id, and gains nothing else; it grows only when `id` is new.
   */
  lemma {:induction false} SetBranchSpec(bs: seq<TE.Branch>, id: nat, t: Trace)
    ensures TE.Branch(id, t) in SetBranch(bs, id, t)
    ensures forall b :: b in bs && b.id != id ==> b in SetBranch(bs, id, t)
    ensures forall b :: b in SetBranch(bs, id, t) ==> b in bs || b == TE.Branch(id, t)
    ensures |SetBranch(bs, id, t)| == if exists b :: b in bs && b.id == id then |bs| else |bs| + 1
  {
    if bs != [] && bs[0].id != id {
      SetBranchSpec(bs[1..], id, t);
      assert forall b :: b in bs ==> b == bs[0] || b in bs[1..];
      if exists b :: b in bs[1..] && b.id == id {
        var b :| b in bs[1..] && b.id == id;
        assert b in bs;
      }
      if exists b :: b in bs && b.id == id {
        var b :| b in bs && b.id == id;
        assert b in bs[1..];
      }
    }
  }

  /** `self._execution_traces.get(s, [])`. */
  function TraceOf(traces: map<nat, Trace>, s: nat): Trace
  {
    if s in traces then traces[s] else []
  }

  /**
   * Hang the trace of `s` under the fork at its fork point: a state without
   * path information or a parent without a trace raises KeyError, a fork
   * point past the parent's trace IndexError, an entry there that holds no
   * branches AttributeError.
   */
  function AttachStep(traces: map<nat, Trace>, info: PathInfo, s: nat): (r: Result<map<nat, Trace>>)
    ensures r.Ok? ==> s in info && info[s].0 in traces && info[s].1 < |traces[info[s].0]|
    ensures r.Ok? ==> r.value.Keys == traces.Keys && |r.value[info[s].0]| == |traces[info[s].0]|
  {
    if s !in info then Fail(KeyError)
    else
      var (p, fp) := info[s];
      if p !in traces then Fail(KeyError)
      else if fp >= |traces[p]| then Fail(IndexError)
      else
        var e := traces[p][fp];
        if !e.item.ForkTree? then Fail(AttributeError)
        else
          var fork := TE.Entry(e.header, TE.ForkTree(SetBranch(e.item.branches, s, TraceOf(traces, s))));
          Ok(traces[p := traces[p][fp := fork]])
  }

  /** A fork entry with a branch for `s`. */
  predicate HoldsBranch(e: TE.Entry, s: nat)
  {
    e.item.ForkTree? && exists b :: b in e.item.branches && b.id == s
  }

  /** The fork point of `s` still indexes, in its parent's trace, a fork holding a branch for `s`. */
  predicate Linked(traces: map<nat, Trace>, info: PathInfo, s: nat)
  {
    s in info && info[s].0 in traces && info[s].1 < |traces[info[s].0]| &&
    HoldsBranch(traces[info[s].0][info[s].1], s)
  }

  /** Attaching `s` links it and keeps every state linked before. */
  lemma AttachLinks(traces: map<nat, Trace>, info: PathInfo, s: nat, x: nat)
    requires AttachStep(traces, info, s).Ok?
    requires x == s || Linked(traces, info, x)
    ensures Linked(AttachStep(traces, info, s).value, info, x)
  {
    var (p, fp) := info[s];
    var e := traces[p][fp];
    var t := TraceOf(traces, s);
    var t1: map<nat, Trace> := AttachStep(traces, info, s).value;
    SetBranchSpec(e.item.branches, s, t);
    if x == s {
      assert TE.Branch(s, t) in t1[p][fp].item.branches;
    } else if info[x] == (p, fp) {
      var b :| b in e.item.branches && b.id == x;
      assert b in t1[p][fp].item.branches;
    } else {
      assert t1[info[x].0][info[x].1] == traces[info[x].0][info[x].1];
    }
  }

  // ---------------------------------------------------------------------
  // Reconstruction as written

  /**
   * The loop of `parse` over the states from the highest id down. With
   * requested ids, a parent that was not requested is cut right after the
   * fork point of the state just attached (`del trace[fork_point + 1:]`).
   */
  function ReconstructAsWritten(traces: map<nat, Trace>, info: PathInfo, order: seq<nat>, pathIds: seq<nat>): (map<nat, Trace>, Outcome)
    decreases |order|
  {
    if order == [] then (traces, Pass)
    else
      match AttachStep(traces, info, order[0])
      case Fail(e) => (traces, Raise(e))
      case Ok(t1) =>
        var (p, fp) := info[order[0]];
        var t2 := if pathIds != [] && p !in pathIds then t1[p := t1[p][..fp + 1]] else t1;
        ReconstructAsWritten(t2, info, order[1..], pathIds)
  }

  // ---------------------------------------------------------------------
  // Reconstruction, corrected

  function Max(a: nat, b: nat): nat
  {
    if a >= b then a else b
  }

  function Min(a: nat, b: nat): nat
  {
    if a <= b then a else b
  }

  /**
   * The same loop, but a parent that was not requested is never cut
   * before a fork point already attached in it: `kept` holds, for each
   * parent cut so far, the length it keeps.
   */
  function Reconstruct(traces: map<nat, Trace>, info: PathInfo, order: seq<nat>, pathIds: seq<nat>, kept: map<nat, nat>): (map<nat, Trace>, Outcome)
    decreases |order|
  {
    if order == [] then (traces, Pass)
    else
      match AttachStep(traces, info, order[0])
      case Fail(e) => (traces, Raise(e))
      case Ok(t1) =>
        var (p, fp) := info[order[0]];
        if pathIds != [] && p !in pathIds then
          var keep := if p in kept then Max(kept[p], fp + 1) else fp + 1;
          Reconstruct(t1[p := t1[p][..Min(keep, |t1[p]|)]], info, order[1..], pathIds, kept[p := keep])
        else Reconstruct(t1, info, order[1..], pathIds, kept)
  }

  /** Every attached state whose parent gets cut has its fork point inside the length the parent keeps. */
  predicate KeptCovers(info: PathInfo, kept: map<nat, nat>, done: set<nat>, pathIds: seq<nat>)
  {
    forall s :: s in done ==>
      s in info && (pathIds != [] && info[s].0 !in pathIds ==> info[s].0 in kept && kept[info[s].0] > info[s].1)
  }

  /** Cutting a parent to a length past every attached fork point in it keeps every link. */
  lemma CutLinks(t1: map<nat, Trace>, info: PathInfo, p: nat, keep: nat, x: nat)
    requires Linked(t1, info, x) && p in t1
    requires info[x].0 == p ==> keep > info[x].1
    ensures Linked(t1[p := t1[p][..Min(keep, |t1[p]|)]], info, x)
  {
  }

  /** One corrected step keeps every attached state linked, the one just attached included. */
  lemma StepLinks(traces: map<nat, Trace>, info: PathInfo, s: nat, pathIds: seq<nat>, kept: map<nat, nat>, done: set<nat>)
    requires AttachStep(traces, info, s).Ok?
    requires forall x :: x in done ==> Linked(traces, info, x)
    requires KeptCovers(info, kept, done, pathIds)
    ensures var t1 := AttachStep(traces, info, s).value;
      var (p, fp) := info[s];
      if pathIds != [] && p !in pathIds then
        var keep := if p in kept then Max(kept[p], fp + 1) else fp + 1;
        (forall x :: x in done + {s} ==> Linked(t1[p := t1[p][..Min(keep, |t1[p]|)]], info, x)) &&
        KeptCovers(info, kept[p := keep], done + {s}, pathIds)
      else
        (forall x :: x in done + {s} ==> Linked(t1, info, x)) && KeptCovers(info, kept, done + {s}, pathIds)
  {
    var t1 := AttachStep(traces, info, s).value;
    var (p, fp) := info[s];
    forall x | x in done + {s} ensures Linked(t1, info, x)
    {
      AttachLinks(traces, info, s, x);
    }
    if pathIds != [] && p !in pathIds {
      var keep := if p in kept then Max(kept[p], fp + 1) else fp + 1;
      forall x | x in done + {s} ensures Linked(t1[p := t1[p][..Min(keep, |t1[p]|)]], info, x)
      {
        CutLinks(t1, info, p, keep, x);
      }
    }
  }

  /**
   * Corrected reconstruction: when it succeeds, every state it attached
   * (and every state attached before it) still has its fork point
   * indexing a fork that holds its branch.
   */
  lemma {:induction false} ReconstructLinks(traces: map<nat, Trace>, info: PathInfo, order: seq<nat>, pathIds: seq<nat>, kept: map<nat, nat>, done: set<nat>)
    requires forall x :: x in done ==> Linked(traces, info, x)
    requires KeptCovers(info, kept, done, pathIds)
    requires Reconstruct(traces, info, order, pathIds, kept).1 == Pass
    ensures forall x :: x in done || x in order ==> Linked(Reconstruct(traces, info, order, pathIds, kept).0, info, x)
    decreases |order|
  {
    if order != [] {
      var s := order[0];
      StepLinks(traces, info, s, pathIds, kept, done);
      var t1 := AttachStep(traces, info, s).value;
      var (p, fp) := info[s];
      if pathIds != [] && p !in pathIds {
        var keep := if p in kept then Max(kept[p], fp + 1) else fp + 1;
        ReconstructLinks(t1[p := t1[p][..Min(keep, |t1[p]|)]], info, order[1..], pathIds, kept[p := keep], done + {s});
      } else {
        ReconstructLinks(t1, info, order[1..], pathIds, kept, done + {s});
      }
      assert forall x :: x in order ==> x == s || x in order[1..];
    }
  }

  /** The corrected reconstruction from a fresh start links every state it processes. */
  lemma ReconstructLinksAll(traces: map<nat, Trace>, info: PathInfo, order: seq<nat>, pathIds: seq<nat>)
    requires Reconstruct(traces, info, order, pathIds, map[]).1 == Pass
    ensures forall x :: x in order ==> Linked(Reconstruct(traces, info, order, pathIds, map[]).0, info, x)
  {
    ReconstructLinks(traces, info, order, pathIds, map[], {});
  }

  /** Without requested ids nothing is cut, and the two loops agree. */
  lemma {:induction false} UncutAgrees(traces: map<nat, Trace>, info: PathInfo, order: seq<nat>, kept: map<nat, nat>)
    ensures Reconstruct(traces, info, order, [], kept) == ReconstructAsWritten(traces, info, order, [])
    decreases |order|
  {
    if order != [] && AttachStep(traces, info, order[0]).Ok? {
      UncutAgrees(AttachStep(traces, info, order[0]).value, info, order[1..], kept);
    }
  }

  // ---------------------------------------------------------------------
  // The lost fork

  function ForkHeader(): TE.Header
  {
    TE.Header(TE.Fork, 0, 0, 0, 0, 0, 0)
  }

  /** State 0 forks state 1 at index 0, then state 2 at index 1, then goes on. */
  function TwoForks(): map<nat, Trace>
  {
    map[0 := [TE.Entry(ForkHeader(), TE.ForkTree([TE.Branch(1, [])])),
              TE.Entry(ForkHeader(), TE.ForkTree([TE.Branch(2, [])])),
              TE.Entry(ForkHeader(), TE.ForkTree([]))],
        1 := [], 2 := []]
  }

  function TwoForksInfo(): PathInfo
  {
    map[1 := (0, 0), 2 := (0, 1)]
  }

  /** Asking for states 1 and 2 returns just those two, and state 2 is processed first. */
  lemma TwoForksOrder()
    ensures Descending({1, 2}) == [2, 1]
    ensures Targets(TwoForksInfo(), [1, 2]) == Found({1, 2})
  {
    assert SetMax({1, 2}) == 2;
    assert {1, 2} - {2} == {1};
    assert SetMax({1}) == 1;
    assert {1} - {1} == {};
    var info := TwoForksInfo();
    assert ParentChain(info, 0, {1}) == Found([]);
    assert ParentChain(info, 1, {}) == Found([0] + []);
    assert ParentChain(info, 0, {2}) == Found([]);
    assert ParentChain(info, 2, {}) == Found([0] + []);
    assert [0] + [] == [0];
    assert Gather(info, []) == Found({});
    assert [1, 2][..1] == [1] && [1][..0] == [];
    assert (set x: nat | x in [0]) == {0};
    assert {} + (set x: nat | x in [0]) == {0};
    assert Gather(info, [1]) == Found({0});
    assert Gather(info, [1, 2]) == Found({0} + set x: nat | x in [0]);
    assert (set x: nat | x in [1, 2]) == {1, 2};
  }

  /**
   * As written, asking for states 1 and 2 cuts state 0 after index 1 for
   * state 2, then after index 0 for state 1, so the fork that holds
   * state 2 is gone from the tree.
   */
  lemma AsWrittenLosesFork()
    ensures Descending({1, 2}) == [2, 1]
    ensures Targets(TwoForksInfo(), [1, 2]) == Found({1, 2})
    ensures ReconstructAsWritten(TwoForks(), TwoForksInfo(), [2, 1], [1, 2]).1 == Pass
    ensures !Linked(ReconstructAsWritten(TwoForks(), TwoForksInfo(), [2, 1], [1, 2]).0, TwoForksInfo(), 2)
  {
    TwoForksOrder();
    var info := TwoForksInfo();
    var t1 := AttachStep(TwoForks(), info, 2).value;
    var t2 := t1[0 := t1[0][..2]];
    var t3 := AttachStep(t2, info, 1).value;
    assert ReconstructAsWritten(TwoForks(), info, [2, 1], [1, 2]) == ReconstructAsWritten(t2, info, [1], [1, 2]);
    assert ReconstructAsWritten(t2, info, [1], [1, 2]) == ReconstructAsWritten(t3[0 := t3[0][..1]], info, [], [1, 2]);
  }

  /** Corrected, the same request keeps both forks, each holding its state. */
  lemma CorrectedKeepsFork()
    ensures Reconstruct(TwoForks(), TwoForksInfo(), [2, 1], [1, 2], map[]).1 == Pass
    ensures Linked(Reconstruct(TwoForks(), TwoForksInfo(), [2, 1], [1, 2], map[]).0, TwoForksInfo(), 2)
    ensures Linked(Reconstruct(TwoForks(), TwoForksInfo(), [2, 1], [1, 2], map[]).0, TwoForksInfo(), 1)
  {
    var info := TwoForksInfo();
    var t1 := AttachStep(TwoForks(), info, 2).value;
    var t2 := t1[0 := t1[0][..2]];
    var t3 := AttachStep(t2, info, 1).value;
    assert Reconstruct(t2, info, [1], [1, 2], map[0 := 2]).1 == Pass;
    ReconstructLinksAll(TwoForks(), info, [2, 1], [1, 2]);
  }
}
