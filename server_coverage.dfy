// server/coverage.py: the coverage collector of the analysis server. It keeps
// the (start_pc, end_pc) pairs covered per module, separately for basic
// block (BB) and translation block (TB) data, and a summary of the totals.
module ServerCoverage {
  /** A covered block, identified by its start and end program counters. */
  type Pair = (int, int)

  /** An item of a coverage file; it begins with start_pc and end_pc (the rest is not used). */
  datatype Item = Item(startPc: int, endPc: int)

  /**
   * One module's entry of a coverage file: the covered blocks (a BB file's
   * "covered_blocks", a TB file's list itself) and a BB file's "static_bbs".
   */
  datatype ModuleData = ModuleData(blocks: seq<Item>, staticBbs: int)

  /** `BB_COVERAGE` and `TB_COVERAGE`. */
  const BbCoverage: int := 0
  const TbCoverage: int := 1

  /** The summary `update_summary` builds. */
  datatype Summary = Summary(breakdown: map<string, nat>, coveredTbsTotal: int, coveredBbsTotal: int, availableBbsTotal: int)

  /** The pairs an entry lists. */
  function Pairs(items: seq<Item>): set<Pair>
  {
    set i | 0 <= i < |items| :: (items[i].startPc, items[i].endPc)
  }

  /** `d.get(module, set())`. */
  function GetSet(m: map<string, set<Pair>>, name: string): set<Pair>
  {
    if name in m then m[name] else {}
  }

  /** The module names of a coverage file are distinct, as in a JSON object. */
  predicate Distinct(data: seq<(string, ModuleData)>)
  {
    forall i, j :: 0 <= i < j < |data| ==> data[i].0 != data[j].0
  }

  /** Whether `name` is one of the modules of `data`. */
  predicate Listed(data: seq<(string, ModuleData)>, name: string)
  {
    exists i :: 0 <= i < |data| && data[i].0 == name
  }

  // ---------------------------------------------------------------------
  // compute_bb_diff

  /** The coverage after `compute_bb_diff` registered each unseen module with an empty set. */
  function Registered(cov: map<string, set<Pair>>, data: seq<(string, ModuleData)>): map<string, set<Pair>>
  {
    if data == [] then cov
    else
      var c := Registered(cov, data[..|data| - 1]);
      var name := data[|data| - 1].0;
      if name !in c then c[name := {}] else c
  }

  /** The diff: for each module of `data`, its pairs not already recorded. */
  function DiffOf(cov: map<string, set<Pair>>, data: seq<(string, ModuleData)>): map<string, set<Pair>>
  {
    if data == [] then map[]
    else
      var (name, entry) := data[|data| - 1];
      DiffOf(cov, data[..|data| - 1])[name := Pairs(entry.blocks) - GetSet(cov, name)]
  }

  /** Registering adds the listed modules, each unseen one with no pairs, and changes no recorded pairs. */
  lemma {:induction false} RegisteredSpec(cov: map<string, set<Pair>>, data: seq<(string, ModuleData)>, name: string)
    ensures var r := Registered(cov, data);
      (name in r <==> name in cov || Listed(data, name)) && GetSet(r, name) == GetSet(cov, name)
  {
    if data != [] {
      var n := |data| - 1;
      RegisteredSpec(cov, data[..n], name);
      ListedStep(data, name);
    }
  }

  lemma ListedStep(data: seq<(string, ModuleData)>, name: string)
    requires data != []
    ensures Listed(data, name) <==> Listed(data[..|data| - 1], name) || data[|data| - 1].0 == name
  {
    var n := |data| - 1;
    if Listed(data, name) && data[n].0 != name {
      var i :| 0 <= i < |data| && data[i].0 == name;
      assert data[..n][i] == data[i];
    }
    if Listed(data[..n], name) {
      var i :| 0 <= i < n && data[..n][i].0 == name;
      assert data[i] == data[..n][i];
    }
  }

  /**
   * The diff has one entry per listed module, holding exactly the pairs its
   * entry lists that are not already recorded for it (for distinct modules).
   */
  lemma {:induction false} DiffSpec(cov: map<string, set<Pair>>, data: seq<(string, ModuleData)>, i: nat, p: Pair)
    requires Distinct(data) && i < |data|
    ensures var d := DiffOf(cov, data);
      data[i].0 in d && (p in d[data[i].0] <==> p in Pairs(data[i].1.blocks) && p !in GetSet(cov, data[i].0))
  {
    var n := |data| - 1;
    if i < n {
      assert Distinct(data[..n]);
      DiffSpec(cov, data[..n], i, p);
      assert data[..n][i] == data[i];
    }
  }

  lemma {:induction false} DiffKeys(cov: map<string, set<Pair>>, data: seq<(string, ModuleData)>, name: string)
    ensures name in DiffOf(cov, data) <==> Listed(data, name)
  {
    if data != [] {
      DiffKeys(cov, data[..|data| - 1], name);
      ListedStep(data, name);
    }
  }

  // ---------------------------------------------------------------------
  // The state after process_coverage

  /** The coverage after each module's new pairs are united into it. */
  function Merge(cov: map<string, set<Pair>>, data: seq<(string, ModuleData)>): map<string, set<Pair>>
  {
    if data == [] then cov
    else
      var c := Merge(cov, data[..|data| - 1]);
      var (name, entry) := data[|data| - 1];
      c[name := GetSet(c, name) + Pairs(entry.blocks)]
  }

  /** The pairs `data` lists for `name`. */
  function ListedPairs(data: seq<(string, ModuleData)>, name: string): set<Pair>
  {
    if data == [] then {}
    else
      ListedPairs(data[..|data| - 1], name) + if data[|data| - 1].0 == name then Pairs(data[|data| - 1].1.blocks) else {}
  }

  /** Processing unions every listed pair into the module's recorded pairs, and keeps all other modules. */
  lemma {:induction false} MergeSpec(cov: map<string, set<Pair>>, data: seq<(string, ModuleData)>, name: string)
    ensures var r := Merge(cov, data);
      (name in r <==> name in cov || Listed(data, name)) &&
      GetSet(r, name) == GetSet(cov, name) + ListedPairs(data, name)
  {
    if data != [] {
      MergeSpec(cov, data[..|data| - 1], name);
      ListedStep(data, name);
    }
  }

  /** Processing the same coverage file twice records nothing more than processing it once. */
  lemma MergeIdempotent(cov: map<string, set<Pair>>, data: seq<(string, ModuleData)>)
    ensures Merge(Merge(cov, data), data) == Merge(cov, data)
  {
    var once := Merge(cov, data);
    var twice := Merge(once, data);
    forall name
      ensures (name in twice <==> name in once) && GetSet(twice, name) == GetSet(once, name)
    {
      MergeSpec(cov, data, name);
      MergeSpec(once, data, name);
    }
    assert forall name | name in twice :: twice[name] == GetSet(twice, name);
    assert forall name | name in once :: once[name] == GetSet(once, name);
  }

  /** The static block counts after a BB file: each listed module's "static_bbs". */
  function StaticOf(statics: map<string, int>, data: seq<(string, ModuleData)>): map<string, int>
  {
    if data == [] then statics
    else StaticOf(statics, data[..|data| - 1])[data[|data| - 1].0 := data[|data| - 1].1.staticBbs]
  }

  lemma {:induction false} StaticOfKeys(statics: map<string, int>, data: seq<(string, ModuleData)>, name: string)
    ensures name in StaticOf(statics, data) <==> name in statics || Listed(data, name)
  {
    if data != [] {
      StaticOfKeys(statics, data[..|data| - 1], name);
      ListedStep(data, name);
    }
  }

  /**
   * Whether the check of `process_coverage` meets a new pair: a listed pair
   * not yet recorded for its module in `same` (the coverage of the file's
   * kind) nor in `other`. As written, only such a pair marks the summary stale.
   */
  predicate FindsNew(same: map<string, set<Pair>>, other: map<string, set<Pair>>, data: seq<(string, ModuleData)>)
  {
    exists i, p :: 0 <= i < |data| && p in Pairs(data[i].1.blocks) && p !in GetSet(same, data[i].0) && p !in GetSet(other, data[i].0)
  }

  /**
   * As written, a BB file whose pair is already covered as a TB finds nothing
   * new, so a summary marked up to date is kept, yet the BB coverage it
   * counts has grown; likewise a new module listed with no blocks adds a
   * breakdown entry and its static blocks without a new pair.
   */
  lemma KnownPairLeavesSummaryStale()
    ensures var bb: map<string, set<Pair>>, tb: map<string, set<Pair>>, statics: map<string, int> := map[], map["m" := {(1, 2)}], map[];
      var data := [("m", ModuleData([Item(1, 2)], 5))];
      !FindsNew(bb, tb, data) &&
      SummaryOf(Merge(bb, data), tb, StaticOf(statics, data)).breakdown != SummaryOf(bb, tb, statics).breakdown
    ensures var bb: map<string, set<Pair>>, tb: map<string, set<Pair>>, statics: map<string, int> := map[], map[], map[];
      var data := [("m", ModuleData([], 5))];
      !FindsNew(bb, tb, data) &&
      SummaryOf(Merge(bb, data), tb, StaticOf(statics, data)).breakdown != SummaryOf(bb, tb, statics).breakdown
  {
    var data := [("m", ModuleData([Item(1, 2)], 5))];
    var items := [Item(1, 2)];
    assert (items[0].startPc, items[0].endPc) in Pairs(items);
    assert Pairs(items) == {(1, 2)};
    var m := Merge(map[], data);
    assert m["m"] == {(1, 2)};
    var data2 := [("m", ModuleData([], 5))];
    assert Pairs(data2[0].1.blocks) == {};
  }

  // ---------------------------------------------------------------------
  // update_summary

  /** The number of pairs recorded per module. */
  function Sizes(m: map<string, set<Pair>>): (r: map<string, int>)
    ensures r.Keys == m.Keys
  {
    map name | name in m :: |m[name]|
  }

  /** The sum of `w` over `keys`, whatever order the keys are taken in (see `TotalRemove`). */
  ghost function Total(w: map<string, int>, keys: set<string>): int
    requires keys <= w.Keys
    decreases |keys|
  {
    if keys == {} then 0
    else
      var k :| k in keys;
      w[k] + Total(w, keys - {k})
  }

  /** Taking any key out first gives the same total. */
  lemma {:induction false} TotalRemove(w: map<string, int>, keys: set<string>, k: string)
    requires keys <= w.Keys && k in keys
    ensures Total(w, keys) == w[k] + Total(w, keys - {k})
    decreases |keys|
  {
    var j :| j in keys && Total(w, keys) == w[j] + Total(w, keys - {j});
    if j != k {
      TotalRemove(w, keys - {j}, k);
      TotalRemove(w, keys - {k}, j);
      assert keys - {j} - {k} == keys - {k} - {j};
    }
  }

  /**
   * The summary of the current coverage: the per-module BB counts, the sums
   * of the BB and TB set sizes, and the sum of the BB modules' static block
   * counts.
   */
  ghost function SummaryOf(bb: map<string, set<Pair>>, tb: map<string, set<Pair>>, statics: map<string, int>): Summary
    requires bb.Keys <= statics.Keys
  {
    Summary(map name | name in bb :: |bb[name]|, Total(Sizes(tb), tb.Keys), Total(Sizes(bb), bb.Keys), Total(statics, bb.Keys))
  }

  class Coverage {
    var bbCoverage: map<string, set<Pair>>
    var tbCoverage: map<string, set<Pair>>
    var staticInfo: map<string, int>
    var summaryUpdated: bool
    var summary: Summary

    /**
     * Every module with BB coverage has its static block count, so the
     * summary can be built, and a summary marked up to date describes the
     * current coverage.
     */
    ghost predicate Valid()
      reads this
    {
      bbCoverage.Keys <= staticInfo.Keys &&
      (summaryUpdated ==> summary == SummaryOf(bbCoverage, tbCoverage, staticInfo))
    }

    constructor ()
      ensures Valid()
      ensures bbCoverage == map[] && tbCoverage == map[] && staticInfo == map[]
      ensures !summaryUpdated && summary == Summary(map[], 0, 0, 0)
    {
      bbCoverage := map[];
      tbCoverage := map[];
      staticInfo := map[];
      summaryUpdated := false;
      summary := Summary(map[], 0, 0, 0);
    }

    /** `is_covered`: the pair is recorded for the module as a BB or as a TB. */
    predicate IsCovered(name: string, bb: Pair)
      reads this
    {
      bb in GetSet(bbCoverage, name) || bb in GetSet(tbCoverage, name)
    }

    /** The `for bb in coverage` loop of `process_coverage`: whether some pair of the diff is covered by neither kind. */
    method AnyUncovered(name: string, coverage: set<Pair>) returns (found: bool)
      ensures found <==> exists p :: p in coverage && !IsCovered(name, p)
    {
      found := false;
      var rest := coverage;
      while rest != {}
        invariant rest <= coverage
        invariant found <==> exists p :: p in coverage - rest && !IsCovered(name, p)
        decreases |rest|
      {
        var bb :| bb in rest;
        if !IsCovered(name, bb) {
          found := true;
        }
        rest := rest - {bb};
      }
    }

    /** `update_summary`: the loops over the BB and the TB coverage. */
    method UpdateSummary()
      requires bbCoverage.Keys <= staticInfo.Keys
      modifies this
      ensures Valid() && summaryUpdated
      ensures summary == SummaryOf(bbCoverage, tbCoverage, staticInfo)
      ensures bbCoverage == old(bbCoverage) && tbCoverage == old(tbCoverage) && staticInfo == old(staticInfo)
    {
      var bbSummary, bbAggregate, bbStaticAggregate := SumBbs(bbCoverage, staticInfo);
      var tbAggregate := SumSizes(tbCoverage);
      summary := Summary(bbSummary, tbAggregate, bbAggregate, bbStaticAggregate);
      summaryUpdated := true;
    }

    /** `compute_bb_diff`: registers unseen modules in the coverage of the file's kind and returns the new pairs. */
    method ComputeBbDiff(data: seq<(string, ModuleData)>, isTb: bool) returns (result: map<string, set<Pair>>)
      modifies this
      ensures result == DiffOf(if isTb then old(tbCoverage) else old(bbCoverage), data)
      ensures isTb ==> tbCoverage == Registered(old(tbCoverage), data) && bbCoverage == old(bbCoverage)
      ensures !isTb ==> bbCoverage == Registered(old(bbCoverage), data) && tbCoverage == old(tbCoverage)
      ensures staticInfo == old(staticInfo) && summaryUpdated == old(summaryUpdated) && summary == old(summary)
    {
      var actualCov := if isTb then tbCoverage else bbCoverage;
      var registered;
      result, registered := DiffLoop(actualCov, data);
      if isTb {
        tbCoverage := registered;
      } else {
        bbCoverage := registered;
      }
    }

    /**
     * `process_coverage` on the parsed file: the diff, then for each module a
     * check for pairs covered by neither kind (which marks the summary stale),
     * the union into the coverage and, for a BB file, the static block count;
     * finally the summary is rebuilt if stale. The summary is also marked
     * stale when the file changed the coverage or the static counts in
     * another way (see `KnownPairLeavesSummaryStale`), so it always describes
     * the new coverage.
     */
    method ProcessCoverage(data: seq<(string, ModuleData)>, coverageType: int)
      requires Valid() && Distinct(data)
      modifies this
      ensures Valid() && summaryUpdated
      ensures summary == SummaryOf(bbCoverage, tbCoverage, staticInfo)
      ensures coverageType == TbCoverage ==>
        tbCoverage == Merge(old(tbCoverage), data) && bbCoverage == old(bbCoverage) && staticInfo == old(staticInfo)
      ensures coverageType != TbCoverage ==>
        bbCoverage == Merge(old(bbCoverage), data) && tbCoverage == old(tbCoverage) && staticInfo == StaticOf(old(staticInfo), data)
    {
      var isTb := coverageType == TbCoverage;
      var bb0, tb0, statics0 := bbCoverage, tbCoverage, staticInfo;
      ghost var same := if isTb then tbCoverage else bbCoverage;
      var diff := ComputeBbDiff(data, isTb);
      ghost var registered := if isTb then tbCoverage else bbCoverage;
      for i := 0 to |data|
        invariant isTb ==> tbCoverage == Merge(registered, data[..i]) && bbCoverage == bb0 && staticInfo == statics0
        invariant !isTb ==> bbCoverage == Merge(registered, data[..i]) && tbCoverage == tb0 && staticInfo == StaticOf(statics0, data[..i])
        invariant summary == old(summary) && (summaryUpdated ==> old(summaryUpdated))
      {
        var name := data[i].0;
        DiffKeys(same, data, name);
        assert Listed(data, name);
        DiffEntry(same, data, i);
        ProcessStep(same, data, i);
        var coverage := diff[name];
        var found := AnyUncovered(name, coverage);
        if found {
          summaryUpdated := false;
        }
        MergeStep(same, data, i, coverage);
        if isTb {
          tbCoverage := tbCoverage[name := GetSet(tbCoverage, name) + coverage];
        } else {
          bbCoverage := bbCoverage[name := GetSet(bbCoverage, name) + coverage];
          staticInfo := staticInfo[name := data[i].1.staticBbs];
        }
      }
      assert data[..|data|] == data;
      MergeRegistered(same, data);
      if !isTb {
        ValidAfterBbFile(same, statics0, data);
      }
      if bbCoverage != bb0 || tbCoverage != tb0 || staticInfo != statics0 {
        summaryUpdated := false;
      }
      if !summaryUpdated {
        UpdateSummary();
      }
    }
  }

  /** The diff loop of `compute_bb_diff` on the coverage of the file's kind. */
  method DiffLoop(cov: map<string, set<Pair>>, data: seq<(string, ModuleData)>)
    returns (result: map<string, set<Pair>>, actualCov: map<string, set<Pair>>)
    ensures result == DiffOf(cov, data) && actualCov == Registered(cov, data)
  {
    result := map[];
    actualCov := cov;
    for i := 0 to |data|
      invariant result == DiffOf(cov, data[..i]) && actualCov == Registered(cov, data[..i])
    {
      assert data[..i + 1][..i] == data[..i];
      var (name, coverage) := data[i];
      RegisteredSpec(cov, data[..i], name);
      if name !in actualCov {
        result := result[name := Pairs(coverage.blocks)];
        actualCov := actualCov[name := {}];
      }
      var dataSet := PairsOf(coverage.blocks);
      result := result[name := dataSet - actualCov[name]];
    }
    assert data[..|data|] == data;
  }

  /** The loop that builds `data_set` from the items' first two fields. */
  method PairsOf(items: seq<Item>) returns (dataSet: set<Pair>)
    ensures dataSet == Pairs(items)
  {
    dataSet := {};
    for k := 0 to |items|
      invariant dataSet == Pairs(items[..k])
    {
      assert forall j :: 0 <= j < k ==> items[..k + 1][j] == items[..k][j];
      assert Pairs(items[..k + 1]) == Pairs(items[..k]) + {(items[k].startPc, items[k].endPc)} by {
        PairsStep(items, k);
      }
      dataSet := dataSet + {(items[k].startPc, items[k].endPc)};
    }
    assert items[..|items|] == items;
  }

  lemma PairsStep(items: seq<Item>, k: nat)
    requires k < |items|
    ensures Pairs(items[..k + 1]) == Pairs(items[..k]) + {(items[k].startPc, items[k].endPc)}
  {
    var a, b := items[..k + 1], items[..k];
    forall p | p in Pairs(a)
      ensures p in Pairs(b) + {(items[k].startPc, items[k].endPc)}
    {
      var j :| 0 <= j < |a| && p == (a[j].startPc, a[j].endPc);
      if j < k {
        assert b[j] == a[j];
      }
    }
    forall p | p in Pairs(b)
      ensures p in Pairs(a)
    {
      var j :| 0 <= j < |b| && p == (b[j].startPc, b[j].endPc);
      assert a[j] == b[j];
    }
    assert a[k] == items[k];
  }

  /** The BB summary loop: per-module sizes, their sum and the sum of the static block counts. */
  method SumBbs(bb: map<string, set<Pair>>, statics: map<string, int>)
    returns (bbSummary: map<string, nat>, bbAggregate: int, bbStaticAggregate: int)
    requires bb.Keys <= statics.Keys
    ensures bbSummary == (map name | name in bb :: |bb[name]|)
    ensures bbAggregate == Total(Sizes(bb), bb.Keys) && bbStaticAggregate == Total(statics, bb.Keys)
  {
    bbSummary := map[];
    bbAggregate := 0;
    bbStaticAggregate := 0;
    var rest := bb.Keys;
    while rest != {}
      invariant rest <= bb.Keys
      invariant bbSummary == (map name | name in bb.Keys - rest :: |bb[name]|)
      invariant bbAggregate + Total(Sizes(bb), rest) == Total(Sizes(bb), bb.Keys)
      invariant bbStaticAggregate + Total(statics, rest) == Total(statics, bb.Keys)
      decreases |rest|
    {
      var name :| name in rest;
      TotalRemove(Sizes(bb), rest, name);
      TotalRemove(statics, rest, name);
      var l := |bb[name]|;
      bbSummary := bbSummary[name := l];
      bbAggregate := bbAggregate + l;
      bbStaticAggregate := bbStaticAggregate + statics[name];
      rest := rest - {name};
    }
  }

  /** The TB summary loop: the sum of the set sizes. */
  method SumSizes(tb: map<string, set<Pair>>) returns (tbAggregate: int)
    ensures tbAggregate == Total(Sizes(tb), tb.Keys)
  {
    tbAggregate := 0;
    var rest := tb.Keys;
    while rest != {}
      invariant rest <= tb.Keys
      invariant tbAggregate + Total(Sizes(tb), rest) == Total(Sizes(tb), tb.Keys)
      decreases |rest|
    {
      var name :| name in rest;
      TotalRemove(Sizes(tb), rest, name);
      tbAggregate := tbAggregate + |tb[name]|;
      rest := rest - {name};
    }
  }

  // ---------------------------------------------------------------------
  // Proof steps of process_coverage

  /** Merging a prefix leaves the modules listed later as registered. */
  lemma {:induction false} MergeUntouched(cov: map<string, set<Pair>>, data: seq<(string, ModuleData)>, i: nat, name: string)
    requires i <= |data| && !Listed(data[..i], name)
    ensures GetSet(Merge(cov, data[..i]), name) == GetSet(cov, name)
  {
    MergeSpec(cov, data[..i], name);
    ListedPairsUnlisted(data[..i], name);
  }

  lemma {:induction false} ListedPairsUnlisted(data: seq<(string, ModuleData)>, name: string)
    requires !Listed(data, name)
    ensures ListedPairs(data, name) == {}
  {
    if data != [] {
      ListedStep(data, name);
      ListedPairsUnlisted(data[..|data| - 1], name);
    }
  }

  /** The diff entry of the `i`-th module holds its listed pairs not yet recorded. */
  lemma DiffEntry(same: map<string, set<Pair>>, data: seq<(string, ModuleData)>, i: nat)
    requires Distinct(data) && i < |data|
    ensures data[i].0 in DiffOf(same, data)
    ensures DiffOf(same, data)[data[i].0] == Pairs(data[i].1.blocks) - GetSet(same, data[i].0)
  {
    var name := data[i].0;
    DiffSpec(same, data, i, (0, 0));
    forall p
      ensures p in DiffOf(same, data)[name] <==> p in Pairs(data[i].1.blocks) - GetSet(same, name)
    {
      DiffSpec(same, data, i, p);
    }
  }

  /** Before step `i`, the `i`-th module still holds exactly the pairs recorded before the file. */
  lemma ProcessStep(same: map<string, set<Pair>>, data: seq<(string, ModuleData)>, i: nat)
    requires Distinct(data) && i < |data|
    ensures GetSet(Merge(Registered(same, data), data[..i]), data[i].0) == GetSet(same, data[i].0)
  {
    var name := data[i].0;
    NotListedBefore(data, i);
    MergeUntouched(Registered(same, data), data, i, name);
    RegisteredSpec(same, data, name);
  }

  lemma NotListedBefore(data: seq<(string, ModuleData)>, i: nat)
    requires Distinct(data) && i < |data|
    ensures !Listed(data[..i], data[i].0)
  {
    forall j | 0 <= j < i
      ensures data[..i][j].0 != data[i].0
    {
      assert data[..i][j] == data[j];
    }
  }

  /** The union of step `i` gives the coverage after the longer prefix. */
  lemma MergeStep(same: map<string, set<Pair>>, data: seq<(string, ModuleData)>, i: nat, coverage: set<Pair>)
    requires i < |data|
    requires GetSet(Merge(Registered(same, data), data[..i]), data[i].0) == GetSet(same, data[i].0)
    requires coverage == Pairs(data[i].1.blocks) - GetSet(same, data[i].0)
    ensures var c := Merge(Registered(same, data), data[..i]);
      Merge(Registered(same, data), data[..i + 1]) == c[data[i].0 := GetSet(c, data[i].0) + coverage]
    ensures forall s: map<string, int> :: StaticOf(s, data[..i + 1]) == StaticOf(s, data[..i])[data[i].0 := data[i].1.staticBbs]
  {
    assert data[..i + 1][..i] == data[..i];
    var g := GetSet(same, data[i].0);
    assert g + (Pairs(data[i].1.blocks) - g) == g + Pairs(data[i].1.blocks);
  }

  /** Merging after registering is merging: registering adds only empty sets for modules the merge adds anyway. */
  lemma MergeRegistered(cov: map<string, set<Pair>>, data: seq<(string, ModuleData)>)
    ensures Merge(Registered(cov, data), data[..|data|]) == Merge(cov, data)
  {
    assert data[..|data|] == data;
    var a, b := Merge(Registered(cov, data), data), Merge(cov, data);
    forall name
      ensures (name in a <==> name in b) && GetSet(a, name) == GetSet(b, name)
    {
      MergeSpec(Registered(cov, data), data, name);
      MergeSpec(cov, data, name);
      RegisteredSpec(cov, data, name);
    }
    assert forall name | name in a :: a[name] == GetSet(a, name);
    assert forall name | name in b :: b[name] == GetSet(b, name);
  }

  /** After a BB file every module with BB coverage still has its static block count. */
  lemma ValidAfterBbFile(bb: map<string, set<Pair>>, statics: map<string, int>, data: seq<(string, ModuleData)>)
    requires bb.Keys <= statics.Keys
    ensures Merge(bb, data).Keys <= StaticOf(statics, data).Keys
  {
    forall name | name in Merge(bb, data)
      ensures name in StaticOf(statics, data)
    {
      MergeSpec(bb, data, name);
      StaticOfKeys(statics, data, name);
    }
  }
}
