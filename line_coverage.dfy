// Line coverage: address counts from the translation blocks
// (commands/code_coverage/lcov.py `_get_addr_coverage`), per-line counts
// from a .lines file (commands/code_coverage/line_info/jsoninfo.py
// `_parse_info`) and the lcov records written from them
// (commands/code_coverage/lcov.py `_save_coverage_info`).
module LineCoverage {
  import opened Wrappers
  import opened BasicBlocks

  /** `d.get(k, 0)` on a count dictionary. */
  function Get<K>(m: map<K, nat>, k: K): nat
  {
    if k in m then m[k] else 0
  }

  // ---------------------------------------------------------------------
  // Address counts.

  /** `addr_counts[addr] = addr_counts.get(addr, 0) + 1` for every addr in `xrange(lo, hi)`. */
  function AddRange(m: map<int, nat>, lo: int, hi: int): (r: map<int, nat>)
    ensures forall a :: a in r <==> a in m || lo <= a < hi
    ensures forall a :: Get(r, a) == Get(m, a) + if lo <= a < hi then 1 else 0
    decreases hi - lo
  {
    if hi <= lo then m
    else
      var m' := AddRange(m, lo, hi - 1);
      m'[hi - 1 := Get(m', hi - 1) + 1]
  }

  /** The counts after adding every TB of `tbs`, in order. */
  function AddTbs(m: map<int, nat>, tbs: seq<TranslationBlock>): map<int, nat>
  {
    if tbs == [] then m
    else
      var tb := tbs[|tbs| - 1];
      AddRange(AddTbs(m, tbs[..|tbs| - 1]), tb.startAddr, tb.endAddr)
  }

  /** The number of TBs of `tbs` whose [start, end) range holds `a`. */
  function Occurrences(tbs: seq<TranslationBlock>, a: int): nat
  {
    if tbs == [] then 0
    else
      var tb := tbs[|tbs| - 1];
      Occurrences(tbs[..|tbs| - 1], a) + if tb.startAddr <= a < tb.endAddr then 1 else 0
  }

  /** Adding TBs adds, to each address, one per TB that holds it; an address is a key once a TB holds it. */
  lemma {:induction false} AddTbsSpec(m: map<int, nat>, tbs: seq<TranslationBlock>, a: int)
    ensures Get(AddTbs(m, tbs), a) == Get(m, a) + Occurrences(tbs, a)
    ensures a in AddTbs(m, tbs) <==> a in m || Occurrences(tbs, a) > 0
  {
    if tbs != [] {
      AddTbsSpec(m, tbs[..|tbs| - 1], a);
    }
  }

  /** The counts after the first `n` TB files. */
  function AddrCountsOf(files: seq<TbFile>): map<int, nat>
  {
    if files == [] then map[]
    else AddTbs(AddrCountsOf(files[..|files| - 1]), files[|files| - 1].tbs)
  }

  /** Every TB of every file, in order. */
  function AllTbs(files: seq<TbFile>): seq<TranslationBlock>
  {
    if files == [] then [] else AllTbs(files[..|files| - 1]) + files[|files| - 1].tbs
  }

  lemma {:induction false} OccurrencesAppend(x: seq<TranslationBlock>, y: seq<TranslationBlock>, a: int)
    ensures Occurrences(x + y, a) == Occurrences(x, a) + Occurrences(y, a)
  {
    if y != [] {
      assert (x + y)[..|x + y| - 1] == x + y[..|y| - 1];
      OccurrencesAppend(x, y[..|y| - 1], a);
    } else {
      assert x + y == x;
    }
  }

  /**
   * `_get_addr_coverage`: each address counts the TBs, over all files, whose
   * range [start, end) holds it (the end is exclusive), and only such
   * addresses are keys.
   */
  lemma {:induction false} AddrCountsSpec(files: seq<TbFile>, a: int)
    ensures Get(AddrCountsOf(files), a) == Occurrences(AllTbs(files), a)
    ensures a in AddrCountsOf(files) <==> Occurrences(AllTbs(files), a) > 0
  {
    if files != [] {
      var n := |files| - 1;
      AddrCountsSpec(files[..n], a);
      AddTbsSpec(AddrCountsOf(files[..n]), files[n].tbs, a);
      OccurrencesAppend(AllTbs(files[..n]), files[n].tbs, a);
    }
  }

  /** A TB that ends where it starts (or before) counts no address. */
  lemma EmptyTbCountsNothing(m: map<int, nat>, tb: TranslationBlock)
    requires tb.endAddr <= tb.startAddr
    ensures AddTbs(m, [tb]) == m
  {
    assert [tb][..0] == [];
  }

  /** `_get_addr_coverage`: the loops over the files, their TBs and the addresses of each TB. */
  method GetAddrCoverage(files: seq<TbFile>) returns (addrCounts: map<int, nat>)
    ensures addrCounts == AddrCountsOf(files)
  {
    addrCounts := map[];
    for f := 0 to |files|
      invariant addrCounts == AddrCountsOf(files[..f])
    {
      assert files[..f + 1][..f] == files[..f];
      var data := files[f].tbs;
      if data == [] {
        continue;
      }
      var base := addrCounts;
      for t := 0 to |data|
        invariant addrCounts == AddTbs(base, data[..t])
      {
        assert data[..t + 1][..t] == data[..t];
        addrCounts := CountRange(addrCounts, data[t].startAddr, data[t].endAddr);
      }
      assert data[..|data|] == data;
    }
    assert files[..|files|] == files;
  }

  /** The innermost loop, over `xrange(lo, hi)`. */
  method CountRange(m: map<int, nat>, lo: int, hi: int) returns (counts: map<int, nat>)
    ensures counts == AddRange(m, lo, hi)
  {
    counts := m;
    if hi <= lo {
      return;
    }
    for addr := lo to hi
      invariant counts == AddRange(m, lo, addr)
    {
      counts := counts[addr := Get(counts, addr) + 1];
    }
  }

  // ---------------------------------------------------------------------
  // Line counts from a .lines file.

  /** One `[line, address]` pair of a .lines file. */
  datatype LineAddr = LineAddr(line: int, address: int)

  /**
   * One file's counts after `entries`: every listed line is a key (starting
   * at 0), and an address found in the address counts adds its count to its
   * line.
   */
  function AddLines(current: map<int, nat>, entries: seq<LineAddr>, addrCounts: map<int, nat>): map<int, nat>
  {
    if entries == [] then current
    else
      var e := entries[|entries| - 1];
      var c := AddLines(current, entries[..|entries| - 1], addrCounts);
      var c' := if e.line !in c then c[e.line := 0] else c;
      if e.address in addrCounts then c'[e.line := c'[e.line] + addrCounts[e.address]] else c'
  }

  /** The sum of the address counts of the entries for `line`; missing addresses add nothing. */
  function LineCount(entries: seq<LineAddr>, addrCounts: map<int, nat>, line: int): nat
  {
    if entries == [] then 0
    else
      var e := entries[|entries| - 1];
      LineCount(entries[..|entries| - 1], addrCounts, line) +
      if e.line == line then Get(addrCounts, e.address) else 0
  }

  /**
   * The keys are the lines already there plus every listed line, and each
   * line's count grows by the sum of its addresses' counts.
   */
  lemma {:induction false} AddLinesSpec(current: map<int, nat>, entries: seq<LineAddr>, addrCounts: map<int, nat>, line: int)
    ensures var r := AddLines(current, entries, addrCounts);
      (line in r <==> line in current || exists i :: 0 <= i < |entries| && entries[i].line == line) &&
      Get(r, line) == Get(current, line) + LineCount(entries, addrCounts, line)
  {
    if entries != [] {
      var n := |entries| - 1;
      AddLinesSpec(current, entries[..n], addrCounts, line);
      if exists i :: 0 <= i < n && entries[..n][i].line == line {
        var i :| 0 <= i < n && entries[..n][i].line == line;
        assert entries[i].line == line;
      }
      if exists i :: 0 <= i < |entries| && entries[i].line == line {
        var i :| 0 <= i < |entries| && entries[i].line == line;
        if i < n {
          assert entries[..n][i].line == line;
        }
      }
    }
  }

  /** A listed line whose addresses were never executed is reported with count 0. */
  lemma UnexecutedLineIsZero(entries: seq<LineAddr>, addrCounts: map<int, nat>, line: int, i: nat)
    requires i < |entries| && entries[i].line == line
    requires forall j :: 0 <= j < |entries| && entries[j].line == line ==> entries[j].address !in addrCounts
    ensures var r := AddLines(map[], entries, addrCounts);
      line in r && r[line] == 0
  {
    AddLinesSpec(map[], entries, addrCounts, line);
    LineCountUnexecuted(entries, addrCounts, line);
  }

  lemma {:induction false} LineCountUnexecuted(entries: seq<LineAddr>, addrCounts: map<int, nat>, line: int)
    requires forall j :: 0 <= j < |entries| && entries[j].line == line ==> entries[j].address !in addrCounts
    ensures LineCount(entries, addrCounts, line) == 0
  {
    if entries != [] {
      LineCountUnexecuted(entries[..|entries| - 1], addrCounts, line);
    }
  }

  /** One file of a .lines file: its path and its `[line, address]` pairs. */
  datatype FileLines = FileLines(path: string, entries: seq<LineAddr>)

  /** `_parse_info`: one count map per file path; a repeated path keeps adding to the same map. */
  function ParseInfoOf(files: seq<FileLines>, addrCounts: map<int, nat>): map<string, map<int, nat>>
  {
    if files == [] then map[]
    else
      var m := ParseInfoOf(files[..|files| - 1], addrCounts);
      var f := files[|files| - 1];
      var current := if f.path in m then m[f.path] else map[];
      m[f.path := AddLines(current, f.entries, addrCounts)]
  }

  /** There is one count map per listed file path. */
  lemma {:induction false} ParseInfoKeys(files: seq<FileLines>, addrCounts: map<int, nat>)
    ensures ParseInfoOf(files, addrCounts).Keys == set i | 0 <= i < |files| :: files[i].path
  {
    if files != [] {
      var n := |files| - 1;
      ParseInfoKeys(files[..n], addrCounts);
      assert (set i | 0 <= i < |files| :: files[i].path) ==
        (set i | 0 <= i < n :: files[..n][i].path) + {files[n].path};
    }
  }

  /**
   * With each path listed once (as in a JSON object), a file's map holds
   * exactly its listed lines, each with the sum of its addresses' counts.
   */
  lemma ParseInfoSpec(files: seq<FileLines>, addrCounts: map<int, nat>, i: nat, line: int)
    requires i < |files|
    requires forall j :: 0 <= j < |files| && j != i ==> files[j].path != files[i].path
    ensures var m := ParseInfoOf(files, addrCounts);
      files[i].path in m &&
      (line in m[files[i].path] <==> exists k :: 0 <= k < |files[i].entries| && files[i].entries[k].line == line) &&
      Get(m[files[i].path], line) == LineCount(files[i].entries, addrCounts, line)
  {
    ParseInfoUnique(files, addrCounts, i, |files|);
    assert files[..|files|] == files;
    AddLinesSpec(map[], files[i].entries, addrCounts, line);
  }

  lemma {:induction false} ParseInfoUnique(files: seq<FileLines>, addrCounts: map<int, nat>, i: nat, n: nat)
    requires i < n <= |files|
    requires forall j :: 0 <= j < |files| && j != i ==> files[j].path != files[i].path
    ensures var m := ParseInfoOf(files[..n], addrCounts);
      files[i].path in m && m[files[i].path] == AddLines(map[], files[i].entries, addrCounts)
  {
    var p := files[i].path;
    assert files[..n][..n - 1] == files[..n - 1];
    if n - 1 == i {
      ParseInfoKeys(files[..i], addrCounts);
      assert forall j :: 0 <= j < i ==> files[..i][j].path != p;
    } else {
      ParseInfoUnique(files, addrCounts, i, n - 1);
    }
  }

  /** `_parse_info`: the loops over the files and their `[line, address]` pairs. */
  method ParseInfo(files: seq<FileLines>, addrCounts: map<int, nat>) returns (fileLineInfo: map<string, map<int, nat>>)
    ensures fileLineInfo == ParseInfoOf(files, addrCounts)
  {
    fileLineInfo := map[];
    for f := 0 to |files|
      invariant fileLineInfo == ParseInfoOf(files[..f], addrCounts)
    {
      assert files[..f + 1][..f] == files[..f];
      var filepath := files[f].path;
      var currentFile: map<int, nat> := map[];
      if filepath in fileLineInfo {
        currentFile := fileLineInfo[filepath];
      }
      currentFile := CountLines(currentFile, files[f].entries, addrCounts);
      fileLineInfo := fileLineInfo[filepath := currentFile];
    }
    assert files[..|files|] == files;
  }

  /** The inner loop of `_parse_info` over one file's pairs. */
  method CountLines(current: map<int, nat>, entries: seq<LineAddr>, addrCounts: map<int, nat>)
    returns (currentFile: map<int, nat>)
    ensures currentFile == AddLines(current, entries, addrCounts)
  {
    currentFile := current;
    for k := 0 to |entries|
      invariant currentFile == AddLines(current, entries[..k], addrCounts)
    {
      assert entries[..k + 1][..k] == entries[..k];
      var lineNumber := entries[k].line;
      var address := entries[k].address;
      if lineNumber !in currentFile {
        currentFile := currentFile[lineNumber := 0];
      }
      if address in addrCounts {
        currentFile := currentFile[lineNumber := currentFile[lineNumber] + addrCounts[address]];
      }
    }
    assert entries[..|entries|] == entries;
  }

  // ---------------------------------------------------------------------
  // lcov records.

  /** One source file's line counts, in the order the dictionary yields them. */
  datatype FileCounts = FileCounts(path: string, counts: seq<(int, nat)>)

  /** One lcov record: SF, the DA lines, LH (lines hit) and LF (lines found). */
  datatype Record = Record(path: string, lines: seq<(int, nat)>, linesHit: nat, linesFound: nat)

  /** The number of lines with a non-zero count. */
  function NonZero(counts: seq<(int, nat)>): nat
  {
    if counts == [] then 0
    else NonZero(counts[..|counts| - 1]) + if counts[|counts| - 1].1 != 0 then 1 else 0
  }

  /** LH counts the positions with a non-zero count, so it is at most LF, with equality iff every line was hit. */
  lemma {:induction false} NonZeroSpec(counts: seq<(int, nat)>)
    ensures NonZero(counts) == |set i | 0 <= i < |counts| && counts[i].1 != 0|
    ensures NonZero(counts) <= |counts|
    ensures NonZero(counts) == |counts| <==> forall i :: 0 <= i < |counts| ==> counts[i].1 != 0
  {
    if counts != [] {
      var n := |counts| - 1;
      NonZeroSpec(counts[..n]);
      var before := set i | 0 <= i < n && counts[..n][i].1 != 0;
      var after := set i | 0 <= i < |counts| && counts[i].1 != 0;
      if counts[n].1 != 0 {
        assert after == before + {n};
      } else {
        assert after == before;
      }
      if NonZero(counts) == |counts| {
        forall i | 0 <= i < |counts|
          ensures counts[i].1 != 0
        {
          if i < n {
            assert counts[..n][i] == counts[i];
          }
        }
      }
    }
  }

  /** `_save_coverage_info`'s counters for one file: LH and LF. */
  method CountFile(counts: seq<(int, nat)>) returns (numNonZeroLines: nat, numInstrumentedLines: nat)
    ensures numNonZeroLines == NonZero(counts) && numInstrumentedLines == |counts|
  {
    numNonZeroLines := 0;
    numInstrumentedLines := 0;
    for k := 0 to |counts|
      invariant numNonZeroLines == NonZero(counts[..k]) && numInstrumentedLines == k
    {
      assert counts[..k + 1][..k] == counts[..k];
      if counts[k].1 != 0 {
        numNonZeroLines := numNonZeroLines + 1;
      }
      numInstrumentedLines := numInstrumentedLines + 1;
    }
    assert counts[..|counts|] == counts;
  }

  /** The records written for the files, skipping those whose source file is missing. */
  function RecordsOf(info: seq<FileCounts>, exists_: string -> bool): seq<Record>
  {
    if info == [] then []
    else
      var rs := RecordsOf(info[..|info| - 1], exists_);
      var f := info[|info| - 1];
      if exists_(f.path) then rs + [Record(f.path, f.counts, NonZero(f.counts), |f.counts|)] else rs
  }

  /** The record written for a file: its lines, LH and LF. */
  predicate WrittenFor(f: FileCounts, r: Record)
  {
    r == Record(f.path, f.counts, NonZero(f.counts), |f.counts|)
  }

  /**
   * There is one record per file whose source exists, in order, each with
   * its lines as given, LH the non-zero lines and LF all of them.
   */
  lemma {:induction false} RecordsSpec(info: seq<FileCounts>, exists_: string -> bool, r: Record)
    ensures r in RecordsOf(info, exists_) <==> exists i :: 0 <= i < |info| && exists_(info[i].path) && WrittenFor(info[i], r)
    ensures |RecordsOf(info, exists_)| <= |info|
  {
    if info != [] {
      var n := |info| - 1;
      RecordsSpec(info[..n], exists_, r);
      if exists i :: 0 <= i < |info| && exists_(info[i].path) && WrittenFor(info[i], r) {
        var i :| 0 <= i < |info| && exists_(info[i].path) && WrittenFor(info[i], r);
        if i < n {
          assert info[..n][i] == info[i];
        }
      }
    }
  }

  /**
   * `_save_coverage_info`: the records written after the "TN:" header; a
   * file whose source is missing is skipped. `exists_` is the
   * `os.path.isfile` test on the resolved path.
   */
  method SaveCoverageInfo(info: seq<FileCounts>, exists_: string -> bool) returns (records: seq<Record>)
    ensures records == RecordsOf(info, exists_)
  {
    records := [];
    for k := 0 to |info|
      invariant records == RecordsOf(info[..k], exists_)
    {
      assert info[..k + 1][..k] == info[..k];
      var srcFile := info[k];
      if !exists_(srcFile.path) {
        continue;
      }
      var numNonZeroLines, numInstrumentedLines := CountFile(srcFile.counts);
      records := records + [Record(srcFile.path, srcFile.counts, numNonZeroLines, numInstrumentedLines)];
    }
    assert info[..|info|] == info;
  }

  /** `handle`: no address was executed is a CommandError; otherwise the address counts go on to the line step. */
  function LineCoverageCounts(files: seq<TbFile>): (r: Result<map<int, nat>>)
    ensures r.Fail? ==> forall a :: Occurrences(AllTbs(files), a) == 0
    ensures (forall a :: Occurrences(AllTbs(files), a) == 0) ==> r.Fail?
    ensures r.Ok? ==> r.value == AddrCountsOf(files)
  {
    var counts := AddrCountsOf(files);
    NoCounts(files);
    if counts == map[] then Fail(CommandError) else Ok(counts)
  }

  /** The address counts are empty exactly when no TB holds any address. */
  lemma NoCounts(files: seq<TbFile>)
    ensures AddrCountsOf(files) == map[] ==> forall a :: Occurrences(AllTbs(files), a) == 0
    ensures (forall a :: Occurrences(AllTbs(files), a) == 0) ==> AddrCountsOf(files) == map[]
  {
    var counts := AddrCountsOf(files);
    if counts == map[] {
      forall a
        ensures Occurrences(AllTbs(files), a) == 0
      {
        AddrCountsSpec(files, a);
      }
    }
    if forall a :: Occurrences(AllTbs(files), a) == 0 {
      forall a
        ensures a !in counts
      {
        AddrCountsSpec(files, a);
      }
      assert counts.Keys == {};
      assert counts == map[];
    }
  }
}
