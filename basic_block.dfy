// commands/code_coverage/basic_block.py: static basic blocks, their JSON
// form in a .bblist file, and basic block coverage derived from the
// translation blocks (TBs) that S2E recorded for each state.
module BasicBlocks {
  import opened Wrappers

  /** `BasicBlock(start_addr, end_addr, function)`; both ends are inclusive. */
  datatype BasicBlock = BasicBlock(startAddr: int, endAddr: int, functionName: string)

  /** The JSON values a .bblist object holds. */
  datatype Json = JInt(i: int) | JStr(s: string) | JNull

  /** What the decoder's object hook returns: a block, or the object unchanged. */
  datatype Decoded = Block(bb: BasicBlock) | Object(fields: map<string, Json>)

  /** `BasicBlockEncoder.default`: the block as a JSON object of its three fields. */
  function Encode(bb: BasicBlock): (r: map<string, Json>)
    ensures r.Keys == {"start_addr", "end_addr", "function"}
    ensures Decode(r) == Ok(Block(bb))
  {
    map["start_addr" := JInt(bb.startAddr), "end_addr" := JInt(bb.endAddr), "function" := JStr(bb.functionName)]
  }

  /**
   * `BasicBlockDecoder.object_hook`: an object with a "start_addr" key becomes
   * a block built from its three fields (a missing one is a KeyError); any
   * other object is returned as it is.
   */
  function Decode(d: map<string, Json>): (r: Result<Decoded>)
    ensures r == Ok(Object(d)) <==> "start_addr" !in d
    ensures r.Ok? && r.value.Block? ==>
      "start_addr" in d && d["start_addr"] == JInt(r.value.bb.startAddr) &&
      "end_addr" in d && d["end_addr"] == JInt(r.value.bb.endAddr) &&
      "function" in d && d["function"] == JStr(r.value.bb.functionName)
    ensures r.Fail? ==> r.error in {KeyError, TypeError}
  {
    if "start_addr" !in d then Ok(Object(d))
    else if "end_addr" !in d || "function" !in d then Fail(KeyError)
    else if !d["start_addr"].JInt? || !d["end_addr"].JInt? || !d["function"].JStr? then Fail(TypeError)
    else Ok(Block(BasicBlock(d["start_addr"].i, d["end_addr"].i, d["function"].s)))
  }

  /** `json.dump(bbs, cls=BasicBlockEncoder)`: the list of encoded blocks. */
  function EncodeAll(bbs: seq<BasicBlock>): (r: seq<map<string, Json>>)
    ensures |r| == |bbs|
  {
    seq(|bbs|, i requires 0 <= i < |bbs| => Encode(bbs[i]))
  }

  /** `json.load(f, cls=BasicBlockDecoder)` on a list of objects: each one decoded in order. */
  function DecodeAll(ds: seq<map<string, Json>>): (r: Result<seq<Decoded>>)
    ensures r.Ok? ==> |r.value| == |ds| && forall i :: 0 <= i < |ds| ==> Decode(ds[i]) == Ok(r.value[i])
    ensures r.Fail? ==> exists i :: 0 <= i < |ds| && Decode(ds[i]) == Fail(r.error)
  {
    if ds == [] then Ok([])
    else
      var init :- DecodeAll(ds[..|ds| - 1]);
      var last :- Decode(ds[|ds| - 1]);
      Ok(init + [last])
  }

  /** The blocks as the decoder gives them back. */
  function Blocks(bbs: seq<BasicBlock>): (r: seq<Decoded>)
    ensures |r| == |bbs| && forall i :: 0 <= i < |bbs| ==> r[i] == Block(bbs[i])
  {
    seq(|bbs|, i requires 0 <= i < |bbs| => Block(bbs[i]))
  }

  /** Loading a saved .bblist gives back the saved blocks, in order. */
  lemma {:induction false} DecodeEncodeAll(bbs: seq<BasicBlock>)
    ensures DecodeAll(EncodeAll(bbs)) == Ok(Blocks(bbs))
  {
    if bbs != [] {
      var n := |bbs| - 1;
      assert EncodeAll(bbs)[..n] == EncodeAll(bbs[..n]);
      DecodeEncodeAll(bbs[..n]);
      assert Blocks(bbs[..n]) + [Block(bbs[n])] == Blocks(bbs);
    }
  }

  /**
   * `_get_cached_basic_blocks`: no .bblist file gives None, and so does one
   * whose modification time is older than the target's; otherwise the
   * decoded contents of the file.
   */
  function CachedBasicBlocks(isFile: bool, bblistMtime: int, targetMtime: int, stored: seq<map<string, Json>>)
    : (r: Result<Option<seq<Decoded>>>)
    ensures !isFile || bblistMtime < targetMtime ==> r == Ok(None)
    ensures isFile && bblistMtime >= targetMtime ==> r.Ok? ==> r.value.Some?
  {
    if !isFile then Ok(None)
    else if bblistMtime < targetMtime then Ok(None)
    else
      var blocks :- DecodeAll(stored);
      Ok(Some(blocks))
  }

  /** A .bblist saved no earlier than the target was built is reused as it is. */
  lemma CachedSaved(bbs: seq<BasicBlock>, bblistMtime: int, targetMtime: int)
    requires bblistMtime >= targetMtime
    ensures CachedBasicBlocks(true, bblistMtime, targetMtime, EncodeAll(bbs)) == Ok(Some(Blocks(bbs)))
  {
    DecodeEncodeAll(bbs);
  }

  /** One `(tb_start_addr, tb_end_addr, _)` triple of a TB coverage file. */
  datatype TranslationBlock = TranslationBlock(startAddr: int, endAddr: int)

  /** A TB coverage file: the state it belongs to and its TBs for the module. */
  datatype TbFile = TbFile(state: int, tbs: seq<TranslationBlock>)

  /**
   * The test `_get_basic_block_coverage` applies, as written: the TB's start
   * or its end lies within the block.
   */
  predicate EndpointInBlock(bb: BasicBlock, tb: TranslationBlock)
  {
    bb.endAddr >= tb.startAddr >= bb.startAddr || bb.startAddr <= tb.endAddr <= bb.endAddr
  }

  /**
   * The test the comment above it describes: the TB falls within the block
   * or the block falls within the TB.
   */
  predicate Overlaps(bb: BasicBlock, tb: TranslationBlock)
  {
    EndpointInBlock(bb, tb) || (tb.startAddr <= bb.startAddr && bb.endAddr <= tb.endAddr)
  }

  /** A block that lies strictly inside a TB fails the test as written. */
  lemma InnerBlockMissed()
    ensures var bb := BasicBlock(4, 6, "f");
      var tb := TranslationBlock(0, 10);
      !EndpointInBlock(bb, tb) && Overlaps(bb, tb)
  {
  }

  /**
   * The corrected test is exactly the intersection of the two closed address
   * ranges; the test as written accepts only part of it.
   */
  lemma OverlapsIsIntersection(bb: BasicBlock, tb: TranslationBlock)
    requires bb.startAddr <= bb.endAddr && tb.startAddr <= tb.endAddr
    ensures Overlaps(bb, tb) <==> tb.startAddr <= bb.endAddr && bb.startAddr <= tb.endAddr
    ensures EndpointInBlock(bb, tb) ==> Overlaps(bb, tb)
  {
  }

  /** The blocks of `bbs` that `tb` overlaps. */
  function Hit(tb: TranslationBlock, bbs: seq<BasicBlock>): (r: set<BasicBlock>)
    ensures forall bb :: bb in r <==> bb in bbs && Overlaps(bb, tb)
  {
    if bbs == [] then {}
    else
      var n := |bbs| - 1;
      assert forall bb :: bb in bbs <==> bb in bbs[..n] || bb == bbs[n];
      Hit(tb, bbs[..n]) + if Overlaps(bbs[n], tb) then {bbs[n]} else {}
  }

  /** The blocks of `bbs` that some TB of `tbs` overlaps. */
  function CoveredIn(tbs: seq<TranslationBlock>, bbs: seq<BasicBlock>): set<BasicBlock>
  {
    if tbs == [] then {}
    else CoveredIn(tbs[..|tbs| - 1], bbs) + Hit(tbs[|tbs| - 1], bbs)
  }

  lemma {:induction false} CoveredInSpec(tbs: seq<TranslationBlock>, bbs: seq<BasicBlock>, bb: BasicBlock)
    ensures bb in CoveredIn(tbs, bbs) <==> bb in bbs && exists tb :: tb in tbs && Overlaps(bb, tb)
  {
    if tbs != [] {
      var n := |tbs| - 1;
      CoveredInSpec(tbs[..n], bbs, bb);
      assert forall tb :: tb in tbs <==> tb in tbs[..n] || tb == tbs[n];
    }
  }

  /** A TB that is already in the list adds no block. */
  lemma DuplicateTbAddsNothing(tbs: seq<TranslationBlock>, tb: TranslationBlock, bbs: seq<BasicBlock>)
    requires tb in tbs
    ensures CoveredIn(tbs + [tb], bbs) == CoveredIn(tbs, bbs)
  {
    assert (tbs + [tb])[..|tbs|] == tbs;
    forall bb | bb in Hit(tb, bbs)
      ensures bb in CoveredIn(tbs, bbs)
    {
      CoveredInSpec(tbs, bbs, bb);
    }
  }

  /** `covered_bbs[state] |= c` on a `defaultdict(set)`: the key appears only once a block is added. */
  function AddTo(m: map<int, set<BasicBlock>>, state: int, c: set<BasicBlock>): (r: map<int, set<BasicBlock>>)
    ensures r.Keys == if c == {} then m.Keys else m.Keys + {state}
    ensures state in r ==> r[state] == (if state in m then m[state] else {}) + c
    ensures forall s :: s in m && s != state ==> r[s] == m[s]
  {
    if c == {} then m
    else m[state := (if state in m then m[state] else {}) + c]
  }

  lemma AddToTwice(m: map<int, set<BasicBlock>>, state: int, a: set<BasicBlock>, b: set<BasicBlock>)
    ensures AddTo(AddTo(m, state, a), state, b) == AddTo(m, state, a + b)
  {
    if a == {} {
      assert a + b == b;
    } else if b == {} {
      assert a + b == a;
    } else {
      var g := if state in m then m[state] else {};
      assert a <= a + b;
      assert (g + a) + b == g + (a + b);
      assert m[state := g + a][state := (g + a) + b] == m[state := g + (a + b)];
    }
  }

  /**
   * The per-state covered blocks after the TB files `files` have been
   * processed: every file adds the blocks its TBs overlap to its state.
   */
  function CoverageOf(files: seq<TbFile>, bbs: seq<BasicBlock>): map<int, set<BasicBlock>>
  {
    if files == [] then map[]
    else
      var n := |files| - 1;
      AddTo(CoverageOf(files[..n], bbs), files[n].state, CoveredIn(files[n].tbs, bbs))
  }

  /**
   * A state has an entry exactly when a block is covered in it, and a block is
   * covered in a state exactly when some TB of one of that state's files
   * overlaps it.
   */
  lemma {:induction false} CoverageSpec(files: seq<TbFile>, bbs: seq<BasicBlock>, state: int, bb: BasicBlock)
    ensures var cov := CoverageOf(files, bbs);
      (state in cov && bb in cov[state]) <==>
      bb in bbs && exists i, tb :: 0 <= i < |files| && files[i].state == state && tb in files[i].tbs && Overlaps(bb, tb)
    ensures var cov := CoverageOf(files, bbs);
      state in cov ==> cov[state] != {}
  {
    if files != [] {
      var n := |files| - 1;
      CoverageSpec(files[..n], bbs, state, bb);
      CoveredInSpec(files[n].tbs, bbs, bb);
      if bb in bbs && exists i, tb :: 0 <= i < |files| && files[i].state == state && tb in files[i].tbs && Overlaps(bb, tb) {
        var i, tb :| 0 <= i < |files| && files[i].state == state && tb in files[i].tbs && Overlaps(bb, tb);
        if i < n {
          assert files[..n][i] == files[i];
        }
      }
    }
  }

  /**
   * `_get_basic_block_coverage`: for each TB file with data for the module,
   * each of its TBs and each block, the block is added to the state's set
   * when the TB overlaps it.
   */
  method BasicBlockCoverage(files: seq<TbFile>, bbs: seq<BasicBlock>) returns (covered: map<int, set<BasicBlock>>)
    ensures covered == CoverageOf(files, bbs)
  {
    covered := map[];
    for f := 0 to |files|
      invariant covered == CoverageOf(files[..f], bbs)
    {
      assert files[..f + 1][..f] == files[..f];
      var file := files[f];
      if file.tbs == [] {
        continue;
      }
      var base := covered;
      for t := 0 to |file.tbs|
        invariant covered == AddTo(base, file.state, CoveredIn(file.tbs[..t], bbs))
      {
        assert file.tbs[..t + 1][..t] == file.tbs[..t];
        var tb := file.tbs[t];
        covered := AddBlocks(covered, file.state, tb, bbs);
        AddToTwice(base, file.state, CoveredIn(file.tbs[..t], bbs), Hit(tb, bbs));
      }
      assert file.tbs[..|file.tbs|] == file.tbs;
    }
    assert files[..|files|] == files;
  }

  /** The innermost loop: every block `tb` overlaps is added to `state`'s set. */
  method AddBlocks(m: map<int, set<BasicBlock>>, state: int, tb: TranslationBlock, bbs: seq<BasicBlock>)
    returns (covered: map<int, set<BasicBlock>>)
    ensures covered == AddTo(m, state, Hit(tb, bbs))
  {
    covered := m;
    for b := 0 to |bbs|
      invariant covered == AddTo(m, state, Hit(tb, bbs[..b]))
    {
      assert bbs[..b + 1][..b] == bbs[..b];
      assert Hit(tb, bbs[..b + 1]) == Hit(tb, bbs[..b]) + if Overlaps(bbs[b], tb) then {bbs[b]} else {};
      if Overlaps(bbs[b], tb) {
        ghost var before := covered;
        covered := covered[state := (if state in covered then covered[state] else {}) + {bbs[b]}];
        assert covered == AddTo(before, state, {bbs[b]});
        AddToTwice(m, state, Hit(tb, bbs[..b]), {bbs[b]});
        assert Hit(tb, bbs[..b + 1]) == Hit(tb, bbs[..b]) + {bbs[b]};
      } else {
        assert Hit(tb, bbs[..b + 1]) == Hit(tb, bbs[..b]);
      }
    }
    assert bbs[..|bbs|] == bbs;
  }

  /** `set(itertools.chain(*bb_coverage.values()))`: the blocks covered in any state. */
  function AllCovered(cov: map<int, set<BasicBlock>>): set<BasicBlock>
  {
    set s, bb | s in cov && bb in cov[s] :: bb
  }

  /** The distinct blocks of a list are no more than its length. */
  lemma {:induction false} DistinctBound(bbs: seq<BasicBlock>)
    ensures |set bb | bb in bbs| <= |bbs|
  {
    if bbs != [] {
      var n := |bbs| - 1;
      DistinctBound(bbs[..n]);
      assert (set bb | bb in bbs) == (set bb | bb in bbs[..n]) + {bbs[n]};
    }
  }

  /** Every covered block is one of the module's blocks, so the covered count is at most the total. */
  lemma CoveredBound(files: seq<TbFile>, bbs: seq<BasicBlock>)
    ensures AllCovered(CoverageOf(files, bbs)) <= set bb | bb in bbs
    ensures |AllCovered(CoverageOf(files, bbs))| <= |bbs|
  {
    var cov := CoverageOf(files, bbs);
    forall bb | bb in AllCovered(cov)
      ensures bb in bbs
    {
      var s :| s in cov && bb in cov[s];
      CoverageSpec(files, bbs, s, bb);
    }
    DistinctBound(bbs);
    CardinalitySubset(AllCovered(cov), set bb | bb in bbs);
  }

  lemma CardinalitySubset<T>(a: set<T>, b: set<T>)
    requires a <= b
    ensures |a| <= |b|
  {
    assert b == a + (b - a);
  }

  /** The "stats" object of the coverage file. */
  datatype Stats = Stats(totalBasicBlocks: int, coveredBasicBlocks: int)

  /**
   * The statistics `handle` computes for one module: the cached blocks are
   * used unless missing or empty, then the disassembled ones; no blocks, or
   * no coverage in any state, is a CommandError. The total is the number of
   * blocks and the covered count the number of distinct covered blocks.
   */
  function ModuleStats(cached: Option<seq<BasicBlock>>, disassembled: seq<BasicBlock>, files: seq<TbFile>)
    : (r: Result<Stats>)
  {
    var bbs := if cached.Some? && cached.value != [] then cached.value else disassembled;
    if bbs == [] then Fail(CommandError)
    else
      var cov := CoverageOf(files, bbs);
      if cov == map[] then Fail(CommandError)
      else Ok(Stats(|bbs|, |AllCovered(cov)|))
  }

  /**
   * When a module gets statistics, at least one and at most all of its
   * blocks are covered; it fails exactly when there are no blocks or no TB
   * overlaps any of them.
   */
  lemma ModuleStatsSpec(cached: Option<seq<BasicBlock>>, disassembled: seq<BasicBlock>, files: seq<TbFile>)
    ensures var bbs := if cached.Some? && cached.value != [] then cached.value else disassembled;
      var r := ModuleStats(cached, disassembled, files);
      (r.Fail? <==> bbs == [] || forall i, tb, bb :: 0 <= i < |files| && tb in files[i].tbs && bb in bbs ==> !Overlaps(bb, tb)) &&
      (r.Ok? ==> r.value.totalBasicBlocks == |bbs| && 1 <= r.value.coveredBasicBlocks <= r.value.totalBasicBlocks)
  {
    var bbs := if cached.Some? && cached.value != [] then cached.value else disassembled;
    var cov := CoverageOf(files, bbs);
    CoveredBound(files, bbs);
    if cov != map[] {
      var s :| s in cov;
      CoverageSpec(files, bbs, s, BasicBlock(0, 0, ""));
      var bb :| bb in cov[s];
      CoverageSpec(files, bbs, s, bb);
      assert bb in AllCovered(cov);
    }
    if bbs != [] && exists i, tb, bb :: 0 <= i < |files| && tb in files[i].tbs && bb in bbs && Overlaps(bb, tb) {
      var i, tb, bb :| 0 <= i < |files| && tb in files[i].tbs && bb in bbs && Overlaps(bb, tb);
      CoverageSpec(files, bbs, files[i].state, bb);
    }
  }
}
