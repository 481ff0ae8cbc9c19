// commands/code_coverage/r2_basic_block.py: splitting a Radare2 basic block
// at its calls, so that a call ends a block and its return address starts
// the next one. Blocks here are [start, end) address ranges.
module RadareBlocks {
  import opened BasicBlocks

  /** One entry of a Radare block's "ops": its "type", "offset" and "size". */
  datatype Inst = Inst(kind: string, offset: int, size: int)

  /** A Radare basic block: "offset", "size" and its instructions "ops". */
  datatype RadareBlock = RadareBlock(offset: int, size: int, ops: seq<Inst>)

  /** The loop splits after instruction `i` when it is a call that is not the last instruction. */
  predicate SplitsAfter(ops: seq<Inst>, i: int)
    requires 0 <= i < |ops|
  {
    ops[i].kind == "call" && i < |ops| - 1
  }

  /** The loop's variables: the blocks emitted so far, `bb_start_addr` and `bb_end_addr`. */
  datatype SplitState = SplitState(blocks: seq<BasicBlock>, start: int, end: int)

  /** The loop's variables after the first `n` instructions. */
  function Scan(name: string, b: RadareBlock, n: nat): SplitState
    requires n <= |b.ops|
  {
    if n == 0 then SplitState([], b.offset, b.offset + b.size)
    else
      var s := Scan(name, b, n - 1);
      var i := n - 1;
      if SplitsAfter(b.ops, i) then
        var e := b.ops[i].offset + b.ops[i].size;
        SplitState(s.blocks + [BasicBlock(s.start, e, name)], b.ops[i + 1].offset, e)
      else s
  }

  /** `_split_basic_block`, as written: the last block is emitted only when `bb_start_addr < bb_end_addr`. */
  function SplitAsWritten(name: string, b: RadareBlock): seq<BasicBlock>
  {
    var s := Scan(name, b, |b.ops|);
    if s.start < s.end then s.blocks + [BasicBlock(s.start, s.end, name)] else s.blocks
  }

  /** `_split_basic_block` with the last block running to the end of the Radare block. */
  function SplitFixed(name: string, b: RadareBlock): seq<BasicBlock>
  {
    var s := Scan(name, b, |b.ops|);
    var e := b.offset + b.size;
    if s.start < e then s.blocks + [BasicBlock(s.start, e, name)] else s.blocks
  }

  /** The indices among the first `n` instructions after which the block is split, in order. */
  function Splits(ops: seq<Inst>, n: nat): (r: seq<nat>)
    requires n <= |ops|
    ensures forall k :: 0 <= k < |r| ==> r[k] < n && SplitsAfter(ops, r[k])
    ensures forall k, l :: 0 <= k < l < |r| ==> r[k] < r[l]
  {
    if n == 0 then []
    else if SplitsAfter(ops, n - 1) then Splits(ops, n - 1) + [n - 1]
    else Splits(ops, n - 1)
  }

  /**
   * Block `k` of the split, stated directly: it starts at the Radare block's
   * offset or just after the previous splitting call, and ends after the
   * `k`-th splitting call.
   */
  function SplitBlock(name: string, b: RadareBlock, sp: seq<nat>, k: nat): BasicBlock
    requires k < |sp| && forall j :: 0 <= j < |sp| ==> sp[j] < |b.ops| - 1
  {
    var start := if k == 0 then b.offset else b.ops[sp[k - 1] + 1].offset;
    BasicBlock(start, b.ops[sp[k]].offset + b.ops[sp[k]].size, name)
  }

  /**
   * The loop's variables as the splitting calls `sp` determine them: one
   * block per splitting call, each as `SplitBlock` states it; the open block
   * starts after the last splitting call (or at the offset) and ends at that
   * call's end (or at the end of the Radare block).
   */
  predicate Describes(name: string, b: RadareBlock, s: SplitState, sp: seq<nat>)
    requires forall j :: 0 <= j < |sp| ==> sp[j] < |b.ops| - 1
  {
    |s.blocks| == |sp| &&
    (forall k :: 0 <= k < |sp| ==> s.blocks[k] == SplitBlock(name, b, sp, k)) &&
    s.start == (if sp == [] then b.offset else b.ops[sp[|sp| - 1] + 1].offset) &&
    s.end == (if sp == [] then b.offset + b.size else b.ops[sp[|sp| - 1]].offset + b.ops[sp[|sp| - 1]].size)
  }

  /** A splitting call emits the open block and opens the next one. */
  lemma DescribesStep(name: string, b: RadareBlock, s: SplitState, sp: seq<nat>, i: nat)
    requires i < |b.ops| && SplitsAfter(b.ops, i)
    requires forall j :: 0 <= j < |sp| ==> sp[j] < |b.ops| - 1
    requires Describes(name, b, s, sp)
    ensures var e := b.ops[i].offset + b.ops[i].size;
      Describes(name, b, SplitState(s.blocks + [BasicBlock(s.start, e, name)], b.ops[i + 1].offset, e), sp + [i])
  {
    var sp' := sp + [i];
    forall k | 0 <= k < |sp|
      ensures SplitBlock(name, b, sp', k) == SplitBlock(name, b, sp, k)
    {
      if k > 0 {
        assert sp'[k - 1] == sp[k - 1];
      }
    }
  }

  /** After `n` instructions the loop's variables are those the splitting calls among them determine. */
  lemma {:induction false} ScanSpec(name: string, b: RadareBlock, n: nat)
    requires n <= |b.ops|
    ensures Describes(name, b, Scan(name, b, n), Splits(b.ops, n))
  {
    if n > 0 {
      ScanSpec(name, b, n - 1);
      if SplitsAfter(b.ops, n - 1) {
        DescribesStep(name, b, Scan(name, b, n - 1), Splits(b.ops, n - 1), n - 1);
      }
    }
  }

  /** No instruction splits the block: no splitting calls. */
  lemma {:induction false} NoSplits(ops: seq<Inst>, n: nat)
    requires n <= |ops|
    requires forall i :: 0 <= i < |ops| ==> !SplitsAfter(ops, i)
    ensures Splits(ops, n) == []
  {
    if n > 0 {
      NoSplits(ops, n - 1);
    }
  }

  /** With no splitting call, the result is the one block [offset, offset + size), if it is not empty. */
  lemma NoCallSingleBlock(name: string, b: RadareBlock)
    requires forall i :: 0 <= i < |b.ops| ==> !SplitsAfter(b.ops, i)
    ensures SplitAsWritten(name, b) == SplitFixed(name, b)
    ensures SplitAsWritten(name, b) == if b.size > 0 then [BasicBlock(b.offset, b.offset + b.size, name)] else []
  {
    ScanSpec(name, b, |b.ops|);
    NoSplits(b.ops, |b.ops|);
  }

  /**
   * Every block carries the function's name, and the blocks before the last
   * one are exactly one per call that is not the last instruction.
   */
  lemma SplitAsWrittenSpec(name: string, b: RadareBlock)
    ensures var r, sp := SplitAsWritten(name, b), Splits(b.ops, |b.ops|);
      (forall k :: 0 <= k < |r| ==> r[k].functionName == name) &&
      |sp| <= |r| <= |sp| + 1 &&
      (forall k :: 0 <= k < |sp| ==> r[k] == SplitBlock(name, b, sp, k))
  {
    ScanSpec(name, b, |b.ops|);
  }

  /** `_split_basic_block`: the loop over the instructions, then the last block. */
  method SplitBasicBlock(name: string, b: RadareBlock) returns (split: seq<BasicBlock>)
    ensures split == SplitAsWritten(name, b)
  {
    split := [];
    var insts := b.ops;
    var numInsts := |insts|;
    var start := b.offset;
    var end := start + b.size;
    for i := 0 to numInsts
      invariant Scan(name, b, i) == SplitState(split, start, end)
    {
      if insts[i].kind == "call" && i < numInsts - 1 {
        end := insts[i].offset + insts[i].size;
        split := split + [BasicBlock(start, end, name)];
        start := insts[i + 1].offset;
      }
    }
    if start < end {
      split := split + [BasicBlock(start, end, name)];
    }
  }

  /**
   * A block with a call followed by one more instruction: as written, the
   * code after the call is lost, since the open block's end was moved to the
   * call's end; the corrected split keeps it.
   */
  lemma TailAfterCallDropped()
    ensures var b := RadareBlock(0x10, 8, [Inst("call", 0x10, 5), Inst("ret", 0x15, 3)]);
      SplitAsWritten("f", b) == [BasicBlock(0x10, 0x15, "f")] &&
      SplitFixed("f", b) == [BasicBlock(0x10, 0x15, "f"), BasicBlock(0x15, 0x18, "f")]
  {
    var b := RadareBlock(0x10, 8, [Inst("call", 0x10, 5), Inst("ret", 0x15, 3)]);
    assert Scan("f", b, 1) == SplitState([BasicBlock(0x10, 0x15, "f")], 0x15, 0x15);
    assert !SplitsAfter(b.ops, 1);
  }

  /**
   * Instructions laid out back to back, from the block's offset to its end,
   * each of positive size.
   */
  predicate Contiguous(b: RadareBlock)
  {
    |b.ops| > 0 && b.ops[0].offset == b.offset &&
    (forall i :: 0 <= i < |b.ops| ==> b.ops[i].size > 0) &&
    (forall i :: 0 <= i < |b.ops| - 1 ==> b.ops[i + 1].offset == b.ops[i].offset + b.ops[i].size) &&
    b.ops[|b.ops| - 1].offset + b.ops[|b.ops| - 1].size == b.offset + b.size
  }

  /** In a contiguous block every instruction ends no later than the block. */
  lemma {:induction false} InstWithinBlock(b: RadareBlock, i: nat)
    requires Contiguous(b) && i < |b.ops|
    ensures b.ops[i].offset + b.ops[i].size <= b.offset + b.size
    decreases |b.ops| - i
  {
    if i < |b.ops| - 1 {
      InstWithinBlock(b, i + 1);
    }
  }

  /**
   * The corrected split tiles a contiguous Radare block: the blocks start at
   * its offset, each ends where the next starts, the last ends at the end of
   * the Radare block, and each is non-empty.
   */
  lemma SplitFixedTiles(name: string, b: RadareBlock)
    requires Contiguous(b)
    ensures var r := SplitFixed(name, b);
      |r| > 0 && r[0].startAddr == b.offset && r[|r| - 1].endAddr == b.offset + b.size &&
      (forall k :: 0 <= k < |r| - 1 ==> r[k].endAddr == r[k + 1].startAddr) &&
      (forall k :: 0 <= k < |r| ==> r[k].startAddr < r[k].endAddr)
  {
    var sp := Splits(b.ops, |b.ops|);
    var s := Scan(name, b, |b.ops|);
    ScanSpec(name, b, |b.ops|);
    OpenBlockNonEmpty(b, s, sp, name);
    var r := SplitFixed(name, b);
    assert r == s.blocks + [BasicBlock(s.start, b.offset + b.size, name)];
    forall k | 0 <= k < |r| - 1
      ensures r[k].endAddr == r[k + 1].startAddr
    {
      BlockEndsWhereNextStarts(name, b, s, sp, k);
    }
    forall k | 0 <= k < |r| - 1
      ensures r[k].startAddr < r[k].endAddr
    {
      ClosedBlockNonEmpty(name, b, sp, k);
    }
  }

  /** The open block left after the loop is not empty. */
  lemma OpenBlockNonEmpty(b: RadareBlock, s: SplitState, sp: seq<nat>, name: string)
    requires Contiguous(b)
    requires forall j :: 0 <= j < |sp| ==> sp[j] < |b.ops| - 1
    requires Describes(name, b, s, sp)
    ensures s.start < b.offset + b.size
  {
    if sp == [] {
      OffsetsIncrease(b, 0, |b.ops| - 1);
    } else {
      OffsetsIncrease(b, sp[|sp| - 1] + 1, |b.ops| - 1);
    }
  }

  /** A closed block ends where the next block (closed or open) starts. */
  lemma BlockEndsWhereNextStarts(name: string, b: RadareBlock, s: SplitState, sp: seq<nat>, k: nat)
    requires Contiguous(b)
    requires forall j :: 0 <= j < |sp| ==> sp[j] < |b.ops| - 1
    requires Describes(name, b, s, sp)
    requires k < |sp|
    ensures var r := s.blocks + [BasicBlock(s.start, b.offset + b.size, name)];
      r[k].endAddr == r[k + 1].startAddr
  {
    assert b.ops[sp[k] + 1].offset == b.ops[sp[k]].offset + b.ops[sp[k]].size;
  }

  /** A closed block is not empty. */
  lemma ClosedBlockNonEmpty(name: string, b: RadareBlock, sp: seq<nat>, k: nat)
    requires Contiguous(b)
    requires forall j :: 0 <= j < |sp| ==> sp[j] < |b.ops| - 1
    requires forall j, l :: 0 <= j < l < |sp| ==> sp[j] < sp[l]
    requires k < |sp|
    ensures SplitBlock(name, b, sp, k).startAddr < SplitBlock(name, b, sp, k).endAddr
  {
    if k > 0 {
      OffsetsIncrease(b, sp[k - 1] + 1, sp[k]);
    } else {
      OffsetsIncrease(b, 0, sp[k]);
    }
  }

  /** In a contiguous block an instruction starts before the end of any later one. */
  lemma {:induction false} OffsetsIncrease(b: RadareBlock, i: nat, j: nat)
    requires Contiguous(b) && i <= j < |b.ops|
    ensures b.ops[i].offset < b.ops[j].offset + b.ops[j].size
    decreases j - i
  {
    if i < j {
      OffsetsIncrease(b, i + 1, j);
    }
  }
}
