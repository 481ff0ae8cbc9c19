// execution_trace/__init__.py: `ExecutionTraceParser`, which reads every
// ExecutionTracer.dat file of a run, sorts each state's trace by time and
// reassembles the execution tree; and the module function `parse`.
module ExecutionTrace {
  import opened Wrappers
  import TE = TraceEntries
  import TFP = TraceFileParse
  import TS = TraceSort
  import TR = TraceReconstruct

  type Trace = seq<TE.Entry>

  // ---------------------------------------------------------------------
  // What a parse computes

  /**
   * The files read one after another into the same traces and path
   * information, each with fresh per-file counts; the first file that
   * raises stops the parse, keeping what was recorded before the raise.
   */
  function ParseFiles(files: seq<TE.Bytes>, traces: map<nat, Trace>, info: TR.PathInfo, maxId: Option<nat>): (map<nat, Trace>, TR.PathInfo, Outcome)
    decreases |files|
  {
    if files == [] then (traces, info, Pass)
    else
      var (p, o) := TFP.ParseBytes(TFP.Parsed(traces, info, map[]), files[0], maxId);
      if o.Raise? then (p.traces, p.pathInfo, o)
      else ParseFiles(files[1..], p.traces, p.pathInfo, maxId)
  }

  /** Every state's trace sorted by timestamp. */
  function SortAll(m: map<nat, Trace>): map<nat, Trace>
  {
    map s | s in m :: TS.SortByTime(m[s])
  }

  /** Sorting keeps the states, and sorts each trace into a stable permutation of itself. */
  lemma SortAllSpec(m: map<nat, Trace>)
    ensures SortAll(m).Keys == m.Keys
    ensures forall s :: s in m ==>
      TS.SortedByTime(SortAll(m)[s]) && multiset(SortAll(m)[s]) == multiset(m[s]) &&
      forall t :: TS.StampedAt(SortAll(m)[s], t) == TS.StampedAt(m[s], t)
  {
    forall s | s in m
      ensures TS.SortedByTime(SortAll(m)[s]) && multiset(SortAll(m)[s]) == multiset(m[s])
      ensures forall t :: TS.StampedAt(SortAll(m)[s], t) == TS.StampedAt(m[s], t)
    {
      TS.SortSpec(m[s]);
    }
  }

  /** `ExecutionTraceParser(files).parse(path_ids)` from the given fields: the new traces, path information and result. */
  ghost function ParseRun(files: seq<TE.Bytes>, traces: map<nat, Trace>, info: TR.PathInfo, pathIds: seq<nat>): (map<nat, Trace>, TR.PathInfo, TR.Found<Trace>)
  {
    var (t1, i1, o) := ParseFiles(files, traces, info, TFP.MaxId(pathIds));
    if o.Raise? then (t1, i1, TR.Raised(o.error))
    else
      var t2 := SortAll(t1);
      match TR.Targets(i1, pathIds)
      case Raised(e) => (t2, i1, TR.Raised(e))
      case Loops => (t2, i1, TR.Loops)
      case Found(states) =>
        var (t3, o3) := TR.Reconstruct(t2, i1, TR.Descending(states), pathIds, map[]);
        if o3.Raise? then (t3, i1, TR.Raised(o3.error))
        else if 0 !in t3 then (t3, i1, TR.Raised(KeyError))
        else (t3, i1, TR.Found(t3[0]))
  }

  /**
   * When a parse succeeds, every state it returns (each requested id and
   * each of their parents, or every forked state when none is requested)
   * has its fork point indexing, in its parent's final trace, a fork that
   * holds its branch.
   */
  lemma ParseLinks(files: seq<TE.Bytes>, traces: map<nat, Trace>, info: TR.PathInfo, pathIds: seq<nat>)
    requires ParseRun(files, traces, info, pathIds).2.Found?
    ensures var (t, i, _) := ParseRun(files, traces, info, pathIds);
      (pathIds == [] ==> forall x :: x in i ==> TR.Linked(t, i, x)) &&
      (forall x :: x in pathIds && x != 0 ==> TR.Linked(t, i, x))
  {
    var (t1, i1, o) := ParseFiles(files, traces, info, TFP.MaxId(pathIds));
    var states := TR.Targets(i1, pathIds).value;
    var order := TR.Descending(states);
    TR.DescendingSpec(states);
    TR.ReconstructLinksAll(SortAll(t1), i1, order, pathIds);
    if pathIds != [] {
      TR.TargetsSpec(i1, pathIds);
    }
  }

  /** When parents have smaller ids than their children, a parse never loops. */
  lemma OrderedParseEnds(files: seq<TE.Bytes>, traces: map<nat, Trace>, info: TR.PathInfo, pathIds: seq<nat>)
    requires TR.Ordered(ParseFiles(files, traces, info, TFP.MaxId(pathIds)).1)
    ensures !ParseRun(files, traces, info, pathIds).2.Loops?
  {
    TR.OrderedTargetsEnd(ParseFiles(files, traces, info, TFP.MaxId(pathIds)).1, pathIds);
  }

  /** A single file read by a fresh parser records only fork points that index the fork that forked each child. */
  lemma OneFileForkPoints(data: TE.Bytes, maxId: Option<nat>)
    ensures var (t, i, _) := ParseFiles([data], map[], map[], maxId);
      forall c :: c in i ==> i[c].0 in t && i[c].1 < |t[i[c].0]| && TFP.ForkOf(t[i[c].0][i[c].1], c)
  {
    TFP.FreshConsistent();
    TFP.ParseKeepsForkPoints(TFP.Parsed(map[], map[], map[]), data, maxId);
    var p := TFP.ParseBytes(TFP.Parsed(map[], map[], map[]), data, maxId).0;
    assert forall c :: c in p.pathInfo ==> TFP.LinkValid(p, c);
    assert [data][1..] == [];
  }

  // ---------------------------------------------------------------------
  // Per-file helpers

  lemma LinksStep(info: TR.PathInfo, cur: nat, fp: nat, children: seq<nat>, i: nat)
    requires i < |children|
    ensures children[..i + 1][..i] == children[..i]
    ensures TFP.Links(info, cur, fp, children[..i + 1]) ==
      if children[i] == cur then TFP.Links(info, cur, fp, children[..i])
      else TFP.Links(info, cur, fp, children[..i])[children[i] := (cur, fp)]
  {
    assert children[..i + 1] == children[..i] + [children[i]];
  }

  /**
   * The loop over a fork's children: each child other than the forking
   * state gets the forking state and fork point as its path information
   * and an (empty) entry in `new_children`.
   */
  method LinkChildren(info: TR.PathInfo, cur: nat, fp: nat, children: seq<nat>) returns (info': TR.PathInfo, ids: seq<nat>)
    ensures info' == TFP.Links(info, cur, fp, children)
    ensures ids == TFP.NewChildren(cur, children)
  {
    info', ids := info, [];
    var i := 0;
    assert children[..0] == [];
    assert TFP.Links(info, cur, fp, []) == info;
    while i < |children|
      invariant i <= |children|
      invariant info' == TFP.Links(info, cur, fp, children[..i])
      invariant ids == TFP.NewChildren(cur, children[..i])
    {
      var c := children[i];
      LinksStep(info, cur, fp, children, i);
      if c != cur {
        info' := info'[c := (cur, fp)];
        if c !in ids {
          ids := ids + [c];
        }
      }
      i := i + 1;
    }
    assert children[..i] == children;
  }

  // ---------------------------------------------------------------------
  // The parser

  class ExecutionTraceParser {
    /** The contents of the ExecutionTracer.dat files, in the order given. */
    var traceFiles: seq<TE.Bytes>
    /** `_execution_traces`: each state's entries. */
    var executionTraces: map<nat, Trace>
    /** `_path_info`: each forked state's parent and fork point. */
    var pathInfo: TR.PathInfo

    constructor(files: seq<TE.Bytes>)
      ensures traceFiles == files && executionTraces == map[] && pathInfo == map[]
    {
      traceFiles := files;
      executionTraces := map[];
      pathInfo := map[];
    }

    /**
     * `_parse_trace_file`: read (header, item) records until the file is
     * exhausted, counting each state's entries in this file to find fork
     * points.
     */
    method ParseTraceFile(data: TE.Bytes, pathIds: seq<nat>) returns (o: Outcome)
      modifies this
      ensures var (p, out) := TFP.ParseBytes(TFP.Parsed(old(executionTraces), old(pathInfo), map[]), data, TFP.MaxId(pathIds));
        executionTraces == p.traces && pathInfo == p.pathInfo && o == out
      ensures traceFiles == old(traceFiles)
    {
      var p;
      p, o := ReadAll(TFP.Parsed(executionTraces, pathInfo, map[]), data, TFP.MaxId(pathIds));
      executionTraces, pathInfo := p.traces, p.pathInfo;
    }

    /** `execution_trace.sort(key=timestamp)` for every state's trace. */
    method SortTraces()
      modifies this
      ensures executionTraces == SortAll(old(executionTraces))
      ensures pathInfo == old(pathInfo) && traceFiles == old(traceFiles)
    {
      executionTraces := SortEach(executionTraces);
    }

    /**
     * `_get_parent_states`: the parents of `stateId` up to state 0. A state
     * without path information raises TypeError; `seen` is only there to
     * notice the point where the source would go round a cycle forever.
     */
    method GetParentStates(stateId: nat) returns (r: TR.Found<seq<nat>>)
      ensures r == TR.ParentChain(pathInfo, stateId, {})
    {
      var cur := stateId;
      var parents: seq<nat> := [];
      var seen: set<nat> := {};
      PrefixedNone(TR.ParentChain(pathInfo, stateId, {}));
      while cur != 0
        invariant TR.ParentChain(pathInfo, stateId, {}) == Prefixed(parents, TR.ParentChain(pathInfo, cur, seen))
        decreases pathInfo.Keys - seen
      {
        if cur in seen {
          return TR.Loops;
        }
        if cur !in pathInfo {
          return TR.Raised(TypeError);
        }
        var next := pathInfo[cur].0;
        PrefixedCons(parents, next, TR.ParentChain(pathInfo, next, seen + {cur}));
        parents := parents + [next];
        seen := seen + {cur};
        cur := next;
      }
      assert parents + [] == parents;
      return TR.Found(parents);
    }

    /** `states_to_return`: the requested ids and their parents but state 0, or every state with path information. */
    method StatesToReturn(pathIds: seq<nat>) returns (r: TR.Found<set<nat>>)
      ensures r == TR.Targets(pathInfo, pathIds)
    {
      if pathIds == [] {
        return TR.Found(pathInfo.Keys);
      }
      var states := set x | x in pathIds;
      ghost var gathered: set<nat> := {};
      var i := 0;
      assert pathIds[..0] == [];
      while i < |pathIds|
        invariant i <= |pathIds|
        invariant TR.Gather(pathInfo, pathIds[..i]) == TR.Found(gathered)
        invariant states == (set x | x in pathIds) + gathered
      {
        var chain := GetParentStates(pathIds[i]);
        assert pathIds[..i + 1][..i] == pathIds[..i];
        if !chain.Found? {
          assert pathIds[..i + 1][i] == pathIds[i];
          GatherKeepsFailure(pathInfo, pathIds, i + 1);
          return if chain.Loops? then TR.Loops else TR.Raised(chain.error);
        }
        var added := set x | x in chain.value;
        states := states + added;
        gathered := gathered + added;
        i := i + 1;
      }
      assert pathIds[..i] == pathIds;
      return TR.Found(states - {0});
    }

    /** The reconstruction loop of `parse`, over the states in the given order. */
    method ReconstructTree(order: seq<nat>, pathIds: seq<nat>) returns (o: Outcome)
      modifies this
      ensures (executionTraces, o) == TR.Reconstruct(old(executionTraces), pathInfo, order, pathIds, map[])
      ensures pathInfo == old(pathInfo) && traceFiles == old(traceFiles)
    {
      executionTraces, o := Reassemble(executionTraces, pathInfo, order, pathIds);
    }

    /** The loop of `parse` over the trace files, stopping at the first that raises. */
    method ReadFiles(pathIds: seq<nat>) returns (o: Outcome)
      modifies this
      ensures (executionTraces, pathInfo, o) == ParseFiles(traceFiles, old(executionTraces), old(pathInfo), TFP.MaxId(pathIds))
      ensures traceFiles == old(traceFiles)
    {
      ghost var maxId := TFP.MaxId(pathIds);
      ghost var whole := ParseFiles(traceFiles, executionTraces, pathInfo, maxId);
      var i := 0;
      while i < |traceFiles|
        invariant i <= |traceFiles| && traceFiles == old(traceFiles)
        invariant ParseFiles(traceFiles[i..], executionTraces, pathInfo, maxId) == whole
      {
        assert traceFiles[i..][0] == traceFiles[i] && traceFiles[i..][1..] == traceFiles[i + 1..];
        o := ParseTraceFile(traceFiles[i], pathIds);
        if o.Raise? {
          return;
        }
        i := i + 1;
      }
      assert traceFiles[i..] == [];
      o := Pass;
    }

    /** `parse(path_ids)`: read every file, sort, reassemble, and return state 0's trace. */
    method Parse(pathIds: seq<nat>) returns (r: TR.Found<Trace>)
      modifies this
      ensures (executionTraces, pathInfo, r) == ParseRun(old(traceFiles), old(executionTraces), old(pathInfo), pathIds)
      ensures traceFiles == old(traceFiles)
    {
      var o := ReadFiles(pathIds);
      if o.Raise? {
        return TR.Raised(o.error);
      }
      SortTraces();
      var states := StatesToReturn(pathIds);
      if states.Raised? {
        return TR.Raised(states.error);
      } else if states.Loops? {
        return TR.Loops;
      }
      var order := DescendingOrder(states.value);
      o := ReconstructTree(order, pathIds);
      if o.Raise? {
        return TR.Raised(o.error);
      }
      if 0 !in executionTraces {
        return TR.Raised(KeyError);
      }
      return TR.Found(executionTraces[0]);
    }
  }

  /** The loop of `parse` over the traces, sorting each. */
  method SortEach(m: map<nat, Trace>) returns (sorted: map<nat, Trace>)
    ensures sorted == SortAll(m)
  {
    sorted := m;
    var todo := m.Keys;
    while todo != {}
      invariant todo <= m.Keys && sorted.Keys == m.Keys
      invariant forall s :: s in m ==> sorted[s] == if s in todo then m[s] else TS.SortByTime(m[s])
      decreases todo
    {
      var s :| s in todo;
      var t := SortedCopy(m[s]);
      sorted := sorted[s := t];
      todo := todo - {s};
    }
  }

  /**
   * The reconstruction loop of `parse`: attach each state in turn; with
   * requested ids, cut an unrequested parent, never before a fork point
   * already attached in it.
   */
  method Reassemble(start: map<nat, Trace>, info: TR.PathInfo, order: seq<nat>, pathIds: seq<nat>) returns (traces: map<nat, Trace>, o: Outcome)
    ensures (traces, o) == TR.Reconstruct(start, info, order, pathIds, map[])
  {
    traces := start;
    var kept: map<nat, nat> := map[];
    var i := 0;
    while i < |order|
      invariant i <= |order|
      invariant TR.Reconstruct(traces, info, order[i..], pathIds, kept) == TR.Reconstruct(start, info, order, pathIds, map[])
    {
      var s := order[i];
      assert order[i..][0] == s && order[i..][1..] == order[i + 1..];
      if s !in info {
        return traces, Raise(KeyError);
      }
      var (p, fp) := info[s];
      if p !in traces {
        return traces, Raise(KeyError);
      }
      if fp >= |traces[p]| {
        return traces, Raise(IndexError);
      }
      var e := traces[p][fp];
      if !e.item.ForkTree? {
        return traces, Raise(AttributeError);
      }
      var child := if s in traces then traces[s] else [];
      traces := traces[p := traces[p][fp := TE.Entry(e.header, TE.ForkTree(TR.SetBranch(e.item.branches, s, child)))]];
      if pathIds != [] && p !in pathIds {
        var keep := if p in kept then TR.Max(kept[p], fp + 1) else fp + 1;
        traces := traces[p := traces[p][..TR.Min(keep, |traces[p]|)]];
        kept := kept[p := keep];
      }
      i := i + 1;
    }
    o := Pass;
  }

  /** Sorting one trace in place: copied into an array, sorted there, and read back. */
  method SortedCopy(t: Trace) returns (r: Trace)
    ensures r == TS.SortByTime(t)
  {
    var a := new TE.Entry[|t|](k requires 0 <= k < |t| => t[k]);
    assert a[..] == t;
    TS.SortEntries(a);
    r := a[..];
  }

  /** The `while True` loop of `_parse_trace_file`: read entries until the file is exhausted or an entry fails to decode. */
  method ReadAll(start: TFP.Parsed, data: TE.Bytes, maxId: Option<nat>) returns (p: TFP.Parsed, o: Outcome)
    ensures (p, o) == TFP.ParseBytes(start, data, maxId)
  {
    p := start;
    var rest := data;
    o := Pass;
    while rest != []
      invariant TFP.ParseBytes(p, rest, maxId) == TFP.ParseBytes(start, data, maxId)
      decreases |rest|
    {
      var stop;
      p, rest, stop := ReadEntry(p, rest, maxId);
      if stop.Some? {
        return p, Raise(stop.value);
      }
    }
  }

  /**
   * One pass of `_parse_trace_file`'s loop: read a header and its item;
   * stop on one that does not decode, skip an unknown type or a state above
   * the largest requested, and record the rest.
   */
  method ReadEntry(p: TFP.Parsed, rest: TE.Bytes, maxId: Option<nat>) returns (q: TFP.Parsed, rest': TE.Bytes, stop: Option<ErrorKind>)
    requires rest != []
    ensures stop.Some? ==> TFP.ParseBytes(p, rest, maxId) == (q, Raise(stop.value))
    ensures stop.None? ==> |rest'| < |rest| && TFP.ParseBytes(p, rest, maxId) == TFP.ParseBytes(q, rest', maxId)
  {
    var (raw, r1) := TFP.Take(rest, TFP.HeaderSize);
    var header := TE.DeserializeHeader(raw);
    if header.Fail? {
      return p, rest, Some(header.error);
    }
    var h := header.value;
    var (rawItem, r2) := TFP.Take(r1, h.size);
    var cls := TFP.ClassOf(h.entryType);
    if cls.None? {
      return p, r2, None;
    }
    var decoded := TE.Deserialize(cls.value, rawItem, Some(h.size));
    if decoded.Fail? {
      return p, rest, Some(decoded.error);
    }
    if maxId.Some? && h.stateId > maxId.value {
      return p, r2, None;
    }
    q := RecordEntry(p, h, decoded.value);
    return q, r2, None;
  }

  /** A kept entry: a fork links its children first; then the entry joins its state's trace and is counted. */
  method RecordEntry(p: TFP.Parsed, h: TE.Header, item: TE.Item) returns (q: TFP.Parsed)
    ensures q == TFP.Record(p, h, item)
  {
    var cur := h.stateId;
    var info, entry := p.pathInfo, item;
    if h.entryType == TE.Fork && item.ForkItem? {
      var ids;
      info, ids := LinkChildren(info, cur, TFP.GetOr(p.lengths, cur), item.children);
      entry := TE.ForkTree(TFP.EmptyBranches(ids));
    }
    var traces := p.traces[cur := (if cur in p.traces then p.traces[cur] else []) + [TE.Entry(h, entry)]];
    q := TFP.Parsed(traces, info, p.lengths[cur := TFP.GetOr(p.lengths, cur) + 1]);
  }

  /** A chain result with `ps` put in front of the parents it lists. */
  function Prefixed(ps: seq<nat>, r: TR.Found<seq<nat>>): TR.Found<seq<nat>>
  {
    match r
    case Found(qs) => TR.Found(ps + qs)
    case Raised(e) => TR.Raised(e)
    case Loops => TR.Loops
  }

  lemma PrefixedCons(ps: seq<nat>, next: nat, r: TR.Found<seq<nat>>)
    ensures Prefixed(ps, match r case Found(qs) => TR.Found([next] + qs) case Raised(e) => TR.Raised(e) case Loops => TR.Loops) ==
      Prefixed(ps + [next], r)
  {
    if r.Found? {
      assert ps + ([next] + r.value) == (ps + [next]) + r.value;
    }
  }

  lemma PrefixedNone(r: TR.Found<seq<nat>>)
    ensures Prefixed([], r) == r
  {
    if r.Found? {
      assert [] + r.value == r.value;
    }
  }

  /** Once gathering the first `n` ids fails, the ids after them are never looked at. */
  lemma {:induction false} GatherKeepsFailure(info: TR.PathInfo, ids: seq<nat>, n: nat)
    requires n <= |ids| && !TR.Gather(info, ids[..n]).Found?
    ensures TR.Gather(info, ids) == TR.Gather(info, ids[..n])
    decreases |ids|
  {
    if n == |ids| {
      assert ids[..n] == ids;
    } else {
      var front := ids[..|ids| - 1];
      assert front[..n] == ids[..n];
      GatherKeepsFailure(info, front, n);
    }
  }

  /** `sorted(states, reverse=True)`, picking the largest state left each time. */
  method DescendingOrder(states: set<nat>) returns (r: seq<nat>)
    ensures r == TR.Descending(states)
  {
    var rest := states;
    r := [];
    while rest != {}
      invariant TR.Descending(states) == r + TR.Descending(rest)
      decreases rest
    {
      ghost var top := TR.SetMax(rest);
      var m :| m in rest && forall x :: x in rest ==> x <= m;
      assert m == top;
      assert TR.Descending(rest) == [m] + TR.Descending(rest - {m});
      r := r + [m];
      rest := rest - {m};
    }
    assert r + [] == r;
  }

  /**
   * The module function `parse`: with no ExecutionTracer.dat file the
   * result is an empty trace; otherwise a fresh parser parses them all.
   */
  method ParseResults(files: seq<TE.Bytes>, pathIds: seq<nat>) returns (r: TR.Found<Trace>)
    ensures files == [] ==> r == TR.Found([])
    ensures files != [] ==> r == ParseRun(files, map[], map[], pathIds).2
  {
    if files == [] {
      return TR.Found([]);
    }
    var parser := new ExecutionTraceParser(files);
    r := parser.Parse(pathIds);
  }
}
