// execution_trace/__init__.py, `ExecutionTraceParser._parse_trace_file`:
// read (header, item) records off one trace file, keep the entries of each
// state, and record where each state was forked from.
module TraceFileParse {
  import opened Wrappers
  import TE = TraceEntries

  type Trace = seq<TE.Entry>

  /** `TraceItemHeader.static_size()`: the header is '<IIQQQQI' (see `TraceEntries.HeaderLayout`). */
  const HeaderSize: nat := 44

  /** `_TRACE_ENTRY_MAP.get(type)`: the class that decodes an entry type; None for MODULE_DESC, OSINFO and MAX. */
  function ClassOf(t: TE.EntryType): (r: Option<TE.EntryClass>)
    ensures r.None? <==> t in {TE.ModuleDesc, TE.OsInfo, TE.Max}
    ensures t == TE.Fork ==> r == Some(TE.TraceFork)
  {
    if t == TE.ModLoad then Some(TE.TraceModuleLoad)
    else if t == TE.ModUnload then Some(TE.TraceModuleUnload)
    else if t == TE.ProcUnload then Some(TE.TraceProcessUnload)
    else if t == TE.Call then Some(TE.TraceCall)
    else if t == TE.Ret then Some(TE.TraceReturn)
    else if t == TE.TbStart || t == TE.TbEnd then Some(TE.TraceTranslationBlock)
    else if t == TE.Fork then Some(TE.TraceFork)
    else if t == TE.CacheSim then Some(TE.TraceCache)
    else if t == TE.TestCase then Some(TE.TraceTestCase)
    else if t == TE.BranchCov then Some(TE.TraceBranchCoverage)
    else if t == TE.Memory then Some(TE.TraceMemory)
    else if t == TE.PageFault then Some(TE.TracePageFault)
    else if t == TE.TlbMiss then Some(TE.TraceTLBMiss)
    else if t == TE.ICount then Some(TE.TraceInstructionCount)
    else if t == TE.MemChecker then Some(TE.TraceMemChecker)
    else if t == TE.Exception then Some(TE.TraceException)
    else if t == TE.StateSwitch then Some(TE.TraceStateSwitch)
    else if t == TE.TbStartX64 || t == TE.TbEndX64 then Some(TE.TraceTranslationBlock64)
    else if t == TE.Block then Some(TE.TraceBlock)
    else None
  }

  /** `file.read(n)` on the bytes not yet read: at most `n` of them, and what remains. */
  function Take(rest: TE.Bytes, n: nat): (r: (TE.Bytes, TE.Bytes))
    ensures r.0 + r.1 == rest && |r.0| == if n <= |rest| then n else |rest|
  {
    if n <= |rest| then (rest[..n], rest[n..]) else (rest, [])
  }

  /** `max(path_ids) if path_ids else None`. */
  function MaxId(pathIds: seq<nat>): (r: Option<nat>)
    ensures r.None? <==> pathIds == []
    ensures r.Some? ==> r.value in pathIds && forall k :: 0 <= k < |pathIds| ==> pathIds[k] <= r.value
  {
    if pathIds == [] then None
    else
      var m := MaxId(pathIds[..|pathIds| - 1]);
      var last := pathIds[|pathIds| - 1];
      if m.Some? && m.value >= last then m else Some(last)
  }

  /**
   * What a parser holds while reading a file: each state's entries so
   * far (`_execution_traces`), each forked state's parent and fork point
   * (`_path_info`), and each state's entry count in this file
   * (`path_lengths`).
   */
  datatype Parsed = Parsed(traces: map<nat, Trace>, pathInfo: map<nat, (nat, nat)>, lengths: map<nat, nat>)

  /** `d.get(k, 0)`. */
  function GetOr(m: map<nat, nat>, k: nat): nat
  {
    if k in m then m[k] else 0
  }

  /** The ids of a fork's children other than the forking state, once each, in first-seen order (`new_children`). */
  function NewChildren(cur: nat, children: seq<nat>): (r: seq<nat>)
    ensures forall c :: c in r <==> c in children && c != cur
    ensures forall j, k :: 0 <= j < k < |r| ==> r[j] != r[k]
  {
    if children == [] then []
    else
      var a := NewChildren(cur, children[..|children| - 1]);
      var c := children[|children| - 1];
      if c == cur || c in a then a else a + [c]
  }

  /** Every child other than the forking state gets the forking state as parent and its current count as fork point. */
  function Links(pathInfo: map<nat, (nat, nat)>, cur: nat, forkPoint: nat, children: seq<nat>): map<nat, (nat, nat)>
  {
    pathInfo + map c | c in children && c != cur :: (cur, forkPoint)
  }

  /** An attached fork with one empty trace per child, in `new_children` order. */
  function EmptyBranches(ids: seq<nat>): (r: seq<TE.Branch>)
    ensures |r| == |ids| && forall j :: 0 <= j < |ids| ==> r[j] == TE.Branch(ids[j], [])
  {
    if ids == [] then [] else EmptyBranches(ids[..|ids| - 1]) + [TE.Branch(ids[|ids| - 1], [])]
  }

  /** Append an entry to its state's trace and count it. */
  function Append(p: Parsed, e: TE.Entry): Parsed
  {
    var s := e.header.stateId;
    p.(traces := p.traces[s := (if s in p.traces then p.traces[s] else []) + [e]],
       lengths := p.lengths[s := GetOr(p.lengths, s) + 1])
  }

  /**
   * A kept entry: a fork records each child's parent and fork point and
   * becomes a fork holding an empty trace per child; then the entry is
   * appended to its state's trace.
   */
  function Record(p: Parsed, h: TE.Header, item: TE.Item): Parsed
  {
    var cur := h.stateId;
    if h.entryType == TE.Fork && item.ForkItem? then
      var q := p.(pathInfo := Links(p.pathInfo, cur, GetOr(p.lengths, cur), item.children));
      Append(q, TE.Entry(h, TE.ForkTree(EmptyBranches(NewChildren(cur, item.children)))))
    else Append(p, TE.Entry(h, item))
  }

  /**
   * The fork branch as written: the replacement fork is built as
   * `TraceFork(item.pc, new_children)`, but a fork has no `pc` attribute,
   * so it raises AttributeError once the children's path information has
   * been recorded and before the entry is appended.
   */
  function RecordForkAsWritten(p: Parsed, h: TE.Header, children: seq<nat>): (Parsed, Outcome)
  {
    var cur := h.stateId;
    (p.(pathInfo := Links(p.pathInfo, cur, GetOr(p.lengths, cur), children)), Raise(AttributeError))
  }

  /**
   * The parse of the unread bytes `rest`: an empty read ends the file; a
   * header or item that does not decode raises; an entry type without a
   * class is skipped by its size; a state above the largest requested one
   * is dropped; every other entry is recorded.
   */
  function ParseBytes(p: Parsed, rest: TE.Bytes, maxId: Option<nat>): (Parsed, Outcome)
    decreases |rest|
  {
    if rest == [] then (p, Pass)
    else
      var (raw, r1) := Take(rest, HeaderSize);
      match TE.DeserializeHeader(raw)
      case Fail(e) => (p, Raise(e))
      case Ok(h) =>
        var (rawItem, r2) := Take(r1, h.size);
        match ClassOf(h.entryType)
        case None => ParseBytes(p, r2, maxId)
        case Some(cls) =>
          match TE.Deserialize(cls, rawItem, Some(h.size))
          case Fail(e) => (p, Raise(e))
          case Ok(item) =>
            if maxId.Some? && h.stateId > maxId.value then ParseBytes(p, r2, maxId)
            else ParseBytes(Record(p, h, item), r2, maxId)
  }

  // ---------------------------------------------------------------------
  // Skipping

  /** The two reads of an entry: the header's bytes, then the item's. */
  lemma ReadsEntry(hd: TE.Bytes, payload: TE.Bytes, rest: TE.Bytes, size: nat)
    requires |hd| == HeaderSize && |payload| == size
    ensures hd + payload + rest != []
    ensures Take(hd + payload + rest, HeaderSize) == (hd, payload + rest)
    ensures Take(payload + rest, size) == (payload, rest)
  {
    var data := hd + payload + rest;
    assert data[..HeaderSize] == hd && data[HeaderSize..] == payload + rest;
    assert (payload + rest)[..|payload|] == payload && (payload + rest)[|payload|..] == rest;
  }

  /** An entry whose type has no class is skipped over by its size, whatever its payload. */
  lemma SkipUnknown(p: Parsed, hd: TE.Bytes, payload: TE.Bytes, rest: TE.Bytes, maxId: Option<nat>)
    requires TE.DeserializeHeader(hd).Ok?
    requires ClassOf(TE.DeserializeHeader(hd).value.entryType).None?
    requires |payload| == TE.DeserializeHeader(hd).value.size
    ensures ParseBytes(p, hd + payload + rest, maxId) == ParseBytes(p, rest, maxId)
  {
    assert |hd| == HeaderSize by { TE.DeserializeHeaderSpec(hd); }
    var h := TE.DeserializeHeader(hd).value;
    ReadsEntry(hd, payload, rest, h.size);
  }

  /** An entry of a state above the largest requested one is read and dropped. */
  lemma SkipDropped(p: Parsed, hd: TE.Bytes, payload: TE.Bytes, rest: TE.Bytes, maxId: Option<nat>)
    requires TE.DeserializeHeader(hd).Ok?
    requires var h := TE.DeserializeHeader(hd).value;
      |payload| == h.size && ClassOf(h.entryType).Some? &&
      TE.Deserialize(ClassOf(h.entryType).value, payload, Some(h.size)).Ok? &&
      maxId.Some? && h.stateId > maxId.value
    ensures ParseBytes(p, hd + payload + rest, maxId) == ParseBytes(p, rest, maxId)
  {
    assert |hd| == HeaderSize by { TE.DeserializeHeaderSpec(hd); }
    var h := TE.DeserializeHeader(hd).value;
    ReadsEntry(hd, payload, rest, h.size);
  }

  /** No state above the largest requested one ever gets a trace. */
  lemma {:induction false} KeepsBelowMax(p: Parsed, rest: TE.Bytes, maxId: Option<nat>)
    requires maxId.Some? && forall s :: s in p.traces ==> s <= maxId.value
    ensures forall s :: s in ParseBytes(p, rest, maxId).0.traces ==> s <= maxId.value
    decreases |rest|
  {
    if rest != [] {
      var (raw, r1) := Take(rest, HeaderSize);
      if TE.DeserializeHeader(raw).Ok? {
        var h := TE.DeserializeHeader(raw).value;
        var (rawItem, r2) := Take(r1, h.size);
        var cls := ClassOf(h.entryType);
        if cls.Some? && TE.Deserialize(cls.value, rawItem, Some(h.size)).Ok? {
          var item := TE.Deserialize(cls.value, rawItem, Some(h.size)).value;
          if h.stateId > maxId.value {
            KeepsBelowMax(p, r2, maxId);
          } else {
            KeepsBelowMax(Record(p, h, item), r2, maxId);
          }
        } else if cls.None? {
          KeepsBelowMax(p, r2, maxId);
        }
      }
    }
  }

  // ---------------------------------------------------------------------
  // Fork points

  /** A fork entry whose attached children include `c`. */
  predicate ForkOf(e: TE.Entry, c: nat)
  {
    e.header.entryType == TE.Fork && e.item.ForkTree? && exists b :: b in e.item.branches && b.id == c
  }

  /** The fork point recorded for `c` indexes, in its parent's trace, a fork entry listing `c`. */
  predicate LinkValid(p: Parsed, c: nat)
    requires c in p.pathInfo
  {
    var (parent, k) := p.pathInfo[c];
    parent in p.traces && k < |p.traces[parent]| && ForkOf(p.traces[parent][k], c)
  }

  /** Every recorded fork point is valid. */
  predicate ForkPointsValid(p: Parsed)
  {
    forall c :: c in p.pathInfo ==> LinkValid(p, c)
  }

  /** The per-file counts are the trace lengths: the case of a file read by a fresh parser. */
  predicate CountsAgree(p: Parsed)
  {
    p.lengths.Keys == p.traces.Keys &&
    forall s :: s in p.lengths ==> p.lengths[s] == |p.traces[s]|
  }

  predicate Consistent(p: Parsed)
  {
    ForkPointsValid(p) && CountsAgree(p)
  }

  lemma AppendCounts(p: Parsed, e: TE.Entry)
    requires CountsAgree(p)
    ensures CountsAgree(Append(p, e))
  {
  }

  lemma AppendKeepsLink(p: Parsed, e: TE.Entry, c: nat)
    requires c in p.pathInfo && LinkValid(p, c)
    ensures LinkValid(Append(p, e), c)
  {
    var (parent, k) := p.pathInfo[c];
    if parent == e.header.stateId {
      assert Append(p, e).traces[parent][k] == p.traces[parent][k];
    }
  }

  lemma AppendMakesLink(p: Parsed, e: TE.Entry, c: nat)
    requires CountsAgree(p) && c in p.pathInfo && ForkOf(e, c)
    requires p.pathInfo[c] == (e.header.stateId, GetOr(p.lengths, e.header.stateId))
    ensures LinkValid(Append(p, e), c)
  {
    var s := e.header.stateId;
    var before := if s in p.traces then p.traces[s] else [];
    assert GetOr(p.lengths, s) == |before|;
    assert Append(p, e).traces[s][|before|] == e;
  }

  /** The fork entry a kept fork becomes lists each of its new children. */
  lemma ForkEntryLists(h: TE.Header, cur: nat, children: seq<nat>, c: nat)
    requires h.entryType == TE.Fork && c in children && c != cur
    ensures ForkOf(TE.Entry(h, TE.ForkTree(EmptyBranches(NewChildren(cur, children)))), c)
  {
    var ids := NewChildren(cur, children);
    var j :| 0 <= j < |ids| && ids[j] == c;
    assert EmptyBranches(ids)[j] == TE.Branch(c, []);
  }

  /** A fork keeps the fork points recorded before it, and its children's point at it. */
  lemma RecordForkKeeps(p: Parsed, h: TE.Header, children: seq<nat>)
    requires Consistent(p) && h.entryType == TE.Fork
    ensures Consistent(Record(p, h, TE.ForkItem(children)))
  {
    var cur := h.stateId;
    var fp := GetOr(p.lengths, cur);
    var e := TE.Entry(h, TE.ForkTree(EmptyBranches(NewChildren(cur, children))));
    var q := p.(pathInfo := Links(p.pathInfo, cur, fp, children));
    var r := Append(q, e);
    assert r == Record(p, h, TE.ForkItem(children));
    AppendCounts(q, e);
    forall c | c in r.pathInfo
      ensures LinkValid(r, c)
    {
      if c in children && c != cur {
        ForkEntryLists(h, cur, children, c);
        AppendMakesLink(q, e, c);
      } else {
        assert LinkValid(p, c);
        assert q.pathInfo[c] == p.pathInfo[c];
        AppendKeepsLink(q, e, c);
      }
    }
  }

  /** Recording an entry keeps every fork point valid and the counts equal to the lengths. */
  lemma RecordKeeps(p: Parsed, h: TE.Header, item: TE.Item)
    requires Consistent(p)
    ensures Consistent(Record(p, h, item))
  {
    if h.entryType == TE.Fork && item.ForkItem? {
      RecordForkKeeps(p, h, item.children);
    } else {
      var e := TE.Entry(h, item);
      AppendCounts(p, e);
      forall c | c in p.pathInfo ensures LinkValid(Append(p, e), c)
      {
        AppendKeepsLink(p, e, c);
      }
    }
  }

  /**
   * Within one file read by a fresh parser, every fork point the parser
   * records indexes the fork entry that forked the child, whether or not
   * the file parses to its end.
   */
  lemma {:induction false} ParseKeepsForkPoints(p: Parsed, rest: TE.Bytes, maxId: Option<nat>)
    requires Consistent(p)
    ensures Consistent(ParseBytes(p, rest, maxId).0)
    decreases |rest|
  {
    if rest != [] {
      var (raw, r1) := Take(rest, HeaderSize);
      if TE.DeserializeHeader(raw).Ok? {
        var h := TE.DeserializeHeader(raw).value;
        var (rawItem, r2) := Take(r1, h.size);
        var cls := ClassOf(h.entryType);
        if cls.Some? && TE.Deserialize(cls.value, rawItem, Some(h.size)).Ok? {
          var item := TE.Deserialize(cls.value, rawItem, Some(h.size)).value;
          if maxId.Some? && h.stateId > maxId.value {
            ParseKeepsForkPoints(p, r2, maxId);
          } else {
            RecordKeeps(p, h, item);
            ParseKeepsForkPoints(Record(p, h, item), r2, maxId);
          }
        } else if cls.None? {
          ParseKeepsForkPoints(p, r2, maxId);
        }
      }
    }
  }

  /** A fresh parser's state is consistent. */
  lemma FreshConsistent()
    ensures Consistent(Parsed(map[], map[], map[]))
  {
  }

  /**
   * As written, a kept fork that names a child other than the forking
   * state raises AttributeError and leaves that child's fork point
   * pointing past the end of the forking state's trace.
   */
  lemma ForkRecordRaisesAsWritten(p: Parsed, h: TE.Header, children: seq<nat>, c: nat)
    requires Consistent(p) && c in children && c != h.stateId
    ensures var (q, o) := RecordForkAsWritten(p, h, children);
      o == Raise(AttributeError) && !ForkPointsValid(q) && q.traces == p.traces
  {
    var (q, o) := RecordForkAsWritten(p, h, children);
    var cur := h.stateId;
    assert q.pathInfo[c] == (cur, GetOr(p.lengths, cur));
    assert !LinkValid(q, c);
  }
}
