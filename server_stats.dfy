// server/stats.py: `CGCStats.process_stats`, which merges the statistics
// one analysis reports into the per-module and global statistics.
module ServerStats {
  /** What one module reports; a missing key reads as its default (False, []). */
  datatype ModuleReport = ModuleReport(calledRandom: bool, randomBranchesPc: seq<int>)

  /** What the server keeps per module. */
  datatype ModuleStats = ModuleStats(calledRandom: bool, randomBranchesPc: set<int>)

  /** `d.get(k, 0)` on the global statistics. */
  function Get(m: map<string, int>, k: string): int
  {
    if k in m then m[k] else 0
  }

  /** The keys merged by taking the larger value. */
  const MaxStats: seq<string> := [
    "state_highest_id", "state_max_completed_depth", "state_max_depth", "seeds_used",
    "recipe_count", "invalid_recipe_count", "cfg_bb_count", "model_count",
    "instance_max_count", "instance_current_count"]

  /** The keys merged by adding. */
  const AggregatedStats: seq<string> := [
    "state_completed_count", "seeds_completed", "recipe_invalid_count", "recipe_failed_tries",
    "recipe_successful_tries", "recipe_count", "segfault_count"]

  function Max(a: int, b: int): int
  {
    if a >= b then a else b
  }

  /** One module's stats after a report: the flag is or-ed and the branch addresses are united. */
  function MergeModule(stats: map<string, ModuleStats>, moduleName: string, report: ModuleReport): ModuleStats
  {
    var upd := if moduleName in stats then stats[moduleName] else ModuleStats(false, {});
    ModuleStats(upd.calledRandom || report.calledRandom, upd.randomBranchesPc + set pc | pc in report.randomBranchesPc)
  }

  /** The per-module stats after the reports `items`, in order. */
  function MergeModules(stats: map<string, ModuleStats>, items: seq<(string, ModuleReport)>): map<string, ModuleStats>
  {
    if items == [] then stats
    else
      var s := MergeModules(stats, items[..|items| - 1]);
      var (moduleName, report) := items[|items| - 1];
      s[moduleName := MergeModule(s, moduleName, report)]
  }

  /** Whether one of `items` reports `moduleName` as having called a random function. */
  predicate ReportsRandom(items: seq<(string, ModuleReport)>, moduleName: string)
  {
    exists i :: 0 <= i < |items| && items[i].0 == moduleName && items[i].1.calledRandom
  }

  /** The branch addresses `items` report for `moduleName`. */
  function ReportedPcs(items: seq<(string, ModuleReport)>, moduleName: string): set<int>
  {
    set i, pc | 0 <= i < |items| && items[i].0 == moduleName && pc in items[i].1.randomBranchesPc :: pc
  }

  /**
   * After the reports, a module has stats iff it had them or was reported;
   * `called_random` is the or of the old flag and every report's, and
   * `random_branches_pc` the union of the old addresses and every report's.
   */
  lemma {:induction false} MergeModulesSpec(stats: map<string, ModuleStats>, items: seq<(string, ModuleReport)>, moduleName: string)
    ensures var r := MergeModules(stats, items);
      (moduleName in r <==> moduleName in stats || exists i :: 0 <= i < |items| && items[i].0 == moduleName)
    ensures var r := MergeModules(stats, items);
      moduleName in r ==>
        r[moduleName].calledRandom == ((moduleName in stats && stats[moduleName].calledRandom) || ReportsRandom(items, moduleName)) &&
        r[moduleName].randomBranchesPc == (if moduleName in stats then stats[moduleName].randomBranchesPc else {}) + ReportedPcs(items, moduleName)
  {
    if items != [] {
      var n := |items| - 1;
      var init := items[..n];
      MergeModulesSpec(stats, init, moduleName);
      assert forall i :: 0 <= i < n ==> init[i] == items[i];
      ReportedPcsStep(items, moduleName);
    }
  }

  lemma ReportedPcsStep(items: seq<(string, ModuleReport)>, moduleName: string)
    requires items != []
    ensures var n := |items| - 1;
      ReportedPcs(items, moduleName) ==
        ReportedPcs(items[..n], moduleName) + if items[n].0 == moduleName then set pc | pc in items[n].1.randomBranchesPc else {}
  {
    var n := |items| - 1;
    var init := items[..n];
    var last := if items[n].0 == moduleName then set pc | pc in items[n].1.randomBranchesPc else {};
    forall pc | pc in ReportedPcs(items, moduleName)
      ensures pc in ReportedPcs(init, moduleName) + last
    {
      var i :| 0 <= i < |items| && items[i].0 == moduleName && pc in items[i].1.randomBranchesPc;
      if i < n {
        assert init[i] == items[i];
      }
    }
    forall pc | pc in ReportedPcs(init, moduleName) + last
      ensures pc in ReportedPcs(items, moduleName)
    {
      if pc in ReportedPcs(init, moduleName) {
        var i :| 0 <= i < n && init[i].0 == moduleName && pc in init[i].1.randomBranchesPc;
        assert items[i] == init[i];
      }
    }
  }

  /** The global stats after applying the max merge to `keys`. */
  function ApplyMax(g: map<string, int>, gs: map<string, int>, keys: seq<string>): map<string, int>
  {
    if keys == [] then g
    else
      var k := keys[|keys| - 1];
      var r := ApplyMax(g, gs, keys[..|keys| - 1]);
      r[k := Max(Get(r, k), Get(gs, k))]
  }

  /** The global stats after applying the sum merge to `keys`. */
  function ApplySum(g: map<string, int>, gs: map<string, int>, keys: seq<string>): map<string, int>
  {
    if keys == [] then g
    else
      var k := keys[|keys| - 1];
      var r := ApplySum(g, gs, keys[..|keys| - 1]);
      r[k := Get(r, k) + Get(gs, k)]
  }

  /** Taking the larger value is idempotent, so a key listed once or more becomes the larger of the two. */
  lemma {:induction false} ApplyMaxSpec(g: map<string, int>, gs: map<string, int>, keys: seq<string>, k: string)
    ensures var r := ApplyMax(g, gs, keys);
      (k in r <==> k in g || k in keys) &&
      Get(r, k) == if k in keys then Max(Get(g, k), Get(gs, k)) else Get(g, k)
  {
    if keys != [] {
      var n := |keys| - 1;
      ApplyMaxSpec(g, gs, keys[..n], k);
      assert k in keys <==> k in keys[..n] || k == keys[n];
    }
  }

  predicate Distinct(keys: seq<string>)
  {
    forall i, j :: 0 <= i < j < |keys| ==> keys[i] != keys[j]
  }

  /** A key listed once gains the reported value. */
  lemma {:induction false} ApplySumSpec(g: map<string, int>, gs: map<string, int>, keys: seq<string>, k: string)
    requires Distinct(keys)
    ensures var r := ApplySum(g, gs, keys);
      (k in r <==> k in g || k in keys) &&
      Get(r, k) == if k in keys then Get(g, k) + Get(gs, k) else Get(g, k)
  {
    if keys != [] {
      var n := |keys| - 1;
      ApplySumSpec(g, gs, keys[..n], k);
      assert k in keys <==> k in keys[..n] || k == keys[n];
      assert keys[n] !in keys[..n];
    }
  }

  /** The global stats after one report: states, then the max keys, then the summed keys. */
  function MergeGlobal(g: map<string, int>, gs: map<string, int>): map<string, int>
  {
    var withStates := g["states" := Get(g, "states") + Get(gs, "states_delta")];
    ApplySum(ApplyMax(withStates, gs, MaxStats), gs, AggregatedStats)
  }

  /** The facts about the two key lists that the merge relies on. */
  lemma KeyListFacts()
    ensures "states" !in MaxStats && "states" !in AggregatedStats
    ensures "recipe_count" in MaxStats && "recipe_count" in AggregatedStats
    ensures Distinct(AggregatedStats)
  {
  }

  /**
   * `states` grows by `states_delta`; a max key becomes the larger of the old
   * and reported values; a summed key grows by the reported value;
   * `recipe_count`, listed in both, ends as the larger value plus the
   * reported one; every other key keeps its value.
   */
  lemma MergeGlobalSpec(g: map<string, int>, gs: map<string, int>, k: string)
    ensures var r := MergeGlobal(g, gs);
      (k == "states" || k in MaxStats || k in AggregatedStats ==> k in r) &&
      (k == "states" ==> Get(r, k) == Get(g, k) + Get(gs, "states_delta")) &&
      (k in MaxStats && k !in AggregatedStats ==> Get(r, k) == Max(Get(g, k), Get(gs, k))) &&
      (k in AggregatedStats && k !in MaxStats ==> Get(r, k) == Get(g, k) + Get(gs, k)) &&
      (k == "recipe_count" ==> Get(r, k) == Max(Get(g, k), Get(gs, k)) + Get(gs, k)) &&
      (k != "states" && k !in MaxStats && k !in AggregatedStats ==> (k in r <==> k in g) && Get(r, k) == Get(g, k))
  {
    KeyListFacts();
    MergeWithSpec(g, gs, MaxStats, AggregatedStats, k);
  }

  /** `MergeGlobal` over any two key lists, the summed one without repeats. */
  lemma MergeWithSpec(g: map<string, int>, gs: map<string, int>, maxKeys: seq<string>, sumKeys: seq<string>, k: string)
    requires "states" !in maxKeys && "states" !in sumKeys && Distinct(sumKeys)
    ensures var r := ApplySum(ApplyMax(g["states" := Get(g, "states") + Get(gs, "states_delta")], gs, maxKeys), gs, sumKeys);
      (k == "states" || k in maxKeys || k in sumKeys ==> k in r) &&
      (k == "states" ==> Get(r, k) == Get(g, k) + Get(gs, "states_delta")) &&
      (k in maxKeys && k !in sumKeys ==> Get(r, k) == Max(Get(g, k), Get(gs, k))) &&
      (k in sumKeys && k !in maxKeys ==> Get(r, k) == Get(g, k) + Get(gs, k)) &&
      (k in maxKeys && k in sumKeys ==> Get(r, k) == Max(Get(g, k), Get(gs, k)) + Get(gs, k)) &&
      (k != "states" && k !in maxKeys && k !in sumKeys ==> (k in r <==> k in g) && Get(r, k) == Get(g, k))
  {
    var withStates := g["states" := Get(g, "states") + Get(gs, "states_delta")];
    ApplyMaxSpec(withStates, gs, maxKeys, k);
    ApplySumSpec(ApplyMax(withStates, gs, maxKeys), gs, sumKeys, k);
  }

  /** One statistics message: the per-module reports and the global figures (missing parts read as empty). */
  datatype StatsData = StatsData(stats: seq<(string, ModuleReport)>, globalStats: map<string, int>)

  class CgcStats {
    var stats: map<string, ModuleStats>
    var globalStats: map<string, int>

    constructor ()
      ensures stats == map[] && globalStats == map[]
    {
      stats := map[];
      globalStats := map[];
    }

    /** `process_stats`: the module loop, then the global merge. */
    method ProcessStats(data: StatsData)
      modifies this
      ensures stats == MergeModules(old(stats), data.stats)
      ensures globalStats == MergeGlobal(old(globalStats), data.globalStats)
    {
      var merged := MergeReports(stats, data.stats);
      stats := merged;
      var g := MergeGlobalStats(globalStats, data.globalStats);
      globalStats := g;
    }
  }

  /** The loop over the reported modules. */
  method MergeReports(st: map<string, ModuleStats>, items: seq<(string, ModuleReport)>) returns (r: map<string, ModuleStats>)
    ensures r == MergeModules(st, items)
  {
    r := st;
    for i := 0 to |items|
      invariant r == MergeModules(st, items[..i])
    {
      assert items[..i + 1][..i] == items[..i];
      var (moduleName, mdata) := items[i];
      var upd := if moduleName in r then r[moduleName] else ModuleStats(false, {});
      upd := ModuleStats(upd.calledRandom || mdata.calledRandom, upd.randomBranchesPc + set pc | pc in mdata.randomBranchesPc);
      r := r[moduleName := upd];
    }
    assert items[..|items|] == items;
  }

  /** The global part: `states`, then the loops over the max and the summed keys. */
  method MergeGlobalStats(g: map<string, int>, gs: map<string, int>) returns (r: map<string, int>)
    ensures r == MergeGlobal(g, gs)
  {
    r := g["states" := Get(g, "states") + Get(gs, "states_delta")];
    r := MaxLoop(r, gs, MaxStats);
    r := SumLoop(r, gs, AggregatedStats);
  }

  /** `for s in max_stats: ...`. */
  method MaxLoop(g: map<string, int>, gs: map<string, int>, keys: seq<string>) returns (r: map<string, int>)
    ensures r == ApplyMax(g, gs, keys)
  {
    r := g;
    for i := 0 to |keys|
      invariant r == ApplyMax(g, gs, keys[..i])
    {
      assert keys[..i + 1][..i] == keys[..i];
      var s := keys[i];
      r := r[s := Max(Get(r, s), Get(gs, s))];
    }
    assert keys[..|keys|] == keys;
  }

  /** `for s in aggregated_stats: ...`. */
  method SumLoop(g: map<string, int>, gs: map<string, int>, keys: seq<string>) returns (r: map<string, int>)
    ensures r == ApplySum(g, gs, keys)
  {
    r := g;
    for i := 0 to |keys|
      invariant r == ApplySum(g, gs, keys[..i])
    {
      assert keys[..i + 1][..i] == keys[..i];
      var s := keys[i];
      r := r[s := Get(r, s) + Get(gs, s)];
    }
    assert keys[..|keys|] == keys;
  }
}
