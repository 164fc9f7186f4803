/** The kernel heap: kmalloc and kfree over one tiled region.

The specification functions AfterMalloc and AfterFree say what a call does to the block list; the
class methods walk and rewrite the list in memory exactly as the program does and are proved to
refine them. */
module KernelHeap {
  import opened Bits
  import opened BlockList


  /** What every heap operation keeps: the blocks tile [lo, hi), no two free blocks are neighbours,
      and the last block is not empty. */
  ghost predicate HeapInv(bs: seq<Block>, lo: nat, hi: nat) {
    && KERNEL_BASE <= lo < hi <= WORD
    && Tiled(bs, lo, hi) && Clean(bs)
    && bs[|bs| - 1].size > 0
  }

  /** heap_end as heap_init computes it: one header short of the end of the region. */
  function HeapEnd(hi: nat): int { hi - HEADER }

  function AfterMalloc(bs: seq<Block>, n: nat): seq<Block> {
    var i := FirstFit(bs, 0, n);
    if i == |bs| then bs else TakeAt(bs, i, n)
  }

  function MallocResult(bs: seq<Block>, n: nat): nat {
    var i := FirstFit(bs, 0, n);
    if i == |bs| then 0 else bs[i].addr + HEADER
  }

  /** The index of the block that starts at a, or |bs|. */
  function IndexAt(bs: seq<Block>, a: int, i: nat): (r: nat)
    requires i <= |bs|
    ensures i <= r <= |bs|
    ensures r < |bs| ==> bs[r].addr == a
    ensures forall j :: i <= j < r ==> bs[j].addr != a
    decreases |bs| - i
  {
    if i == |bs| || bs[i].addr == a then i else IndexAt(bs, a, i + 1)
  }

  predicate InBounds(lo: nat, hi: nat, ptr: nat) { lo <= ptr < HeapEnd(hi) }

  /** kfree may be given null, an address outside the checked bounds, or the payload address of a
      block on the list. */
  predicate LegalFree(bs: seq<Block>, lo: nat, hi: nat, ptr: nat) {
    ptr == 0 || !InBounds(lo, hi, ptr) || IndexAt(bs, ptr - HEADER, 0) < |bs|
  }

  function AfterFree(bs: seq<Block>, lo: nat, hi: nat, ptr: nat): seq<Block> {
    if ptr == 0 || !InBounds(lo, hi, ptr) then bs
    else
      var i := IndexAt(bs, ptr - HEADER, 0);
      if i == |bs| || bs[i].free then bs else Coalesce(MarkAt(bs, i))
  }

  // ----- invariant and liveness over whole runs -----

  datatype Op = Malloc(bytes: nat) | Free(ptr: nat)

  function Apply(bs: seq<Block>, lo: nat, hi: nat, op: Op): seq<Block> {
    match op
    case Malloc(bytes) => AfterMalloc(bs, Round(bytes))
    case Free(ptr) => AfterFree(bs, lo, hi, ptr)
  }

  function Run(bs: seq<Block>, lo: nat, hi: nat, ops: seq<Op>): seq<Block>
    decreases |ops|
  {
    if ops == [] then bs else Run(Apply(bs, lo, hi, ops[0]), lo, hi, ops[1..])
  }

  /** A request is a 32-bit word; a pointer freed is one that kfree may be given. */
  predicate LegalOp(bs: seq<Block>, lo: nat, hi: nat, op: Op) {
    match op
    case Malloc(bytes) => bytes < WORD
    case Free(ptr) => LegalFree(bs, lo, hi, ptr)
  }

  /** Every call is legal in the state it meets. */
  predicate LegalRun(bs: seq<Block>, lo: nat, hi: nat, ops: seq<Op>)
    decreases |ops|
  {
    ops == [] || (LegalOp(bs, lo, hi, ops[0]) && LegalRun(Apply(bs, lo, hi, ops[0]), lo, hi, ops[1..]))
  }

  lemma MallocKeepsInv(bs: seq<Block>, lo: nat, hi: nat, n: nat)
    requires HeapInv(bs, lo, hi)
    ensures HeapInv(AfterMalloc(bs, n), lo, hi)
  {
    var i := FirstFit(bs, 0, n);
    if i < |bs| {
      TakeKeepsClean(bs, i, n);
      TakeKeepsTiling(bs, i, n, lo, hi);
      var t := TakeAt(bs, i, n);
      SpliceAt(bs, i, i + 1, Parts(bs[i], n), |t| - 1);
    }
  }

  lemma MarkKeepsShape(bs: seq<Block>, i: nat, lo: nat, hi: nat)
    requires Tiled(bs, lo, hi) && i < |bs|
    ensures Tiled(MarkAt(bs, i), lo, hi)
  {
    var t := MarkAt(bs, i);
    forall j | 0 <= j < |t| - 1 ensures Touch(t, j) { assert Touch(bs, j); }
  }

  lemma FreeKeepsInv(bs: seq<Block>, lo: nat, hi: nat, ptr: nat)
    requires HeapInv(bs, lo, hi)
    ensures HeapInv(AfterFree(bs, lo, hi, ptr), lo, hi)
  {
    if ptr != 0 && InBounds(lo, hi, ptr) {
      var i := IndexAt(bs, ptr - HEADER, 0);
      if i < |bs| && !bs[i].free {
        var f := MarkAt(bs, i);
        MarkKeepsShape(bs, i, lo, hi);
        CoalesceClean(f);
        CoalesceKeepsTiling(f, lo, hi);
      }
    }
  }

  /** Every run of kmalloc and kfree keeps the tiling and leaves no two adjacent free blocks. */
  lemma {:induction false} RunKeepsInv(bs: seq<Block>, lo: nat, hi: nat, ops: seq<Op>)
    requires HeapInv(bs, lo, hi) && LegalRun(bs, lo, hi, ops)
    ensures HeapInv(Run(bs, lo, hi, ops), lo, hi)
    decreases |ops|
  {
    if ops != [] {
      match ops[0] {
        case Malloc(bytes) => MallocKeepsInv(bs, lo, hi, Round(bytes));
        case Free(ptr) => FreeKeepsInv(bs, lo, hi, ptr);
      }
      RunKeepsInv(Apply(bs, lo, hi, ops[0]), lo, hi, ops[1..]);
    }
  }

  lemma MarkLive(bs: seq<Block>, i: nat, b: Block)
    requires i < |bs| && b in bs && !b.free && b != bs[i]
    ensures b in Live(MarkAt(bs, i))
  {
    var f := MarkAt(bs, i);
    var k :| 0 <= k < |bs| && bs[k] == b;
    assert f[k] == b;
    LiveMembers(f, b);
  }

  /** An allocated block is neither moved, resized nor released by a call that does not free it. */
  lemma StaysLive(bs: seq<Block>, lo: nat, hi: nat, op: Op, b: Block)
    requires b in Live(bs) && op != Free(b.addr + HEADER)
    ensures b in Live(Apply(bs, lo, hi, op))
  {
    LiveMembers(bs, b);
    match op {
      case Malloc(bytes) =>
        var n := Round(bytes);
        var i := FirstFit(bs, 0, n);
        if i < |bs| {
          TakeAddsOne(bs, i, n);
        }
      case Free(ptr) =>
        if ptr != 0 && InBounds(lo, hi, ptr) {
          var i := IndexAt(bs, ptr - HEADER, 0);
          if i < |bs| && !bs[i].free {
            MarkLive(bs, i, b);
            CoalesceKeepsLive(MarkAt(bs, i));
          }
        }
    }
  }

  /** Over a whole run an allocation stays in place until it is freed, and never overlaps another. */
  lemma {:induction false} RunKeepsAllocation(bs: seq<Block>, lo: nat, hi: nat, ops: seq<Op>, b: Block)
    requires HeapInv(bs, lo, hi) && LegalRun(bs, lo, hi, ops) && b in Live(bs) && Free(b.addr + HEADER) !in ops
    ensures b in Live(Run(bs, lo, hi, ops))
    ensures forall c :: c in Live(Run(bs, lo, hi, ops)) && c != b ==> b.End() <= c.addr || c.End() <= b.addr
    decreases |ops|
  {
    if ops == [] {
      TiledIsOrdered(bs, lo, hi);
      forall c | c in Live(bs) && c != b ensures b.End() <= c.addr || c.End() <= b.addr {
        LiveMembers(bs, b);
        LiveMembers(bs, c);
        var i :| 0 <= i < |bs| && bs[i] == b;
        var j :| 0 <= j < |bs| && bs[j] == c;
        assert if i < j then Before(bs, i, j) else Before(bs, j, i);
      }
    } else {
      assert ops[0] in ops;
      StaysLive(bs, lo, hi, ops[0], b);
      RunKeepsInv(bs, lo, hi, [ops[0]]);
      assert [ops[0]][1..] == [];
      assert Run(bs, lo, hi, [ops[0]]) == Apply(bs, lo, hi, ops[0]);
      RunKeepsAllocation(Apply(bs, lo, hi, ops[0]), lo, hi, ops[1..], b);
    }
  }

  lemma LivePayload(m: Mem, m': Mem, bs: seq<Block>, b: Block)
    requires |m| == |m'| && PayloadsKept(m, m', bs) && b in Live(bs)
    ensures PayloadKept(m, m', b)
  {
    LiveMembers(bs, b);
    var i :| 0 <= i < |bs| && bs[i] == b;
    assert KeptAt(m, m', bs, i);
  }

  lemma MarkKeepsAlignment(bs: seq<Block>, i: nat)
    requires Aligned(bs) && i < |bs|
    ensures Aligned(MarkAt(bs, i))
  {
  }

  /** Every run keeps all headers and payloads word aligned. */
  lemma {:induction false} RunKeepsAlignment(bs: seq<Block>, lo: nat, hi: nat, ops: seq<Op>)
    requires Aligned(bs) && LegalRun(bs, lo, hi, ops)
    ensures Aligned(Run(bs, lo, hi, ops))
    decreases |ops|
  {
    if ops != [] {
      match ops[0] {
        case Malloc(bytes) =>
          var n := Round(bytes);
          assert Word(n);
          var i := FirstFit(bs, 0, n);
          if i < |bs| { TakeKeepsAlignment(bs, i, n); }
        case Free(ptr) =>
          if ptr != 0 && InBounds(lo, hi, ptr) {
            var i := IndexAt(bs, ptr - HEADER, 0);
            if i < |bs| && !bs[i].free {
              MarkKeepsAlignment(bs, i);
              CoalesceKeepsAlignment(MarkAt(bs, i));
            }
          }
      }
      RunKeepsAlignment(Apply(bs, lo, hi, ops[0]), lo, hi, ops[1..]);
    }
  }

  /** kmalloc fails exactly when no contiguous free extent has room for the rounded request. */
  lemma MallocFailsIffNoRoom(bs: seq<Block>, lo: nat, hi: nat, n: nat)
    requires HeapInv(bs, lo, hi)
    ensures MallocResult(bs, n) == 0 <==> !HasRoom(bs, lo, hi, n)
  {
    FitIffRoom(bs, lo, hi, n);
  }

  lemma {:induction false} IndexAtUnique(bs: seq<Block>, i: nat, from: nat)
    requires Ordered(bs) && from <= i < |bs|
    ensures IndexAt(bs, bs[i].addr, from) == i
    decreases i - from
  {
    if from < i {
      assert Before(bs, from, i);
      IndexAtUnique(bs, i, from + 1);
    }
  }

  /** kfree right after kmalloc restores the list exactly when the returned address passes the bounds
      check of kfree. */
  lemma MallocThenFree(bs: seq<Block>, lo: nat, hi: nat, n: nat)
    requires HeapInv(bs, lo, hi) && MallocResult(bs, n) != 0
    ensures AfterFree(AfterMalloc(bs, n), lo, hi, MallocResult(bs, n)) == bs <==> InBounds(lo, hi, MallocResult(bs, n))
  {
    var i := FirstFit(bs, 0, n);
    var t := TakeAt(bs, i, n);
    TakeKeepsTiling(bs, i, n, lo, hi);
    TiledIsOrdered(t, lo, hi);
    TakenBlock(bs, i, n);
    IndexAtUnique(t, i, 0);
    TakeThenFree(bs, i, n);
  }

  lemma TakenBlock(bs: seq<Block>, i: nat, n: nat)
    requires i < |bs| && bs[i].free && bs[i].size >= n
    ensures i < |TakeAt(bs, i, n)| && TakeAt(bs, i, n)[i] == Parts(bs[i], n)[0]
    ensures TakeAt(bs, i, n) != bs
  {
    SpliceAt(bs, i, i + 1, Parts(bs[i], n), i);
  }

  /** The check fails exactly for a last block of 12 bytes or fewer that is taken whole: heap_end is
      one header too small. */
  lemma RefusedIffSmallLast(bs: seq<Block>, lo: nat, hi: nat, n: nat)
    requires HeapInv(bs, lo, hi) && MallocResult(bs, n) != 0
    ensures var i := FirstFit(bs, 0, n);
            InBounds(lo, hi, MallocResult(bs, n)) <==> !(i == |bs| - 1 && !Splits(bs[i], n) && bs[i].size <= HEADER)
  {
    var i := FirstFit(bs, 0, n);
    TiledIsOrdered(bs, lo, hi);
    if i < |bs| - 1 {
      assert Before(bs, i, |bs| - 1);
    }
  }

  /** A heap of one frame: 4060 bytes leave a last block of 12 bytes; taken whole, it is never released. */
  lemma LastSmallBlockIsNotReleased(lo: nat)
    requires KERNEL_BASE <= lo && lo + PAGE <= WORD
    ensures var hi := lo + PAGE;
            var bs := [Block(lo, PAGE - HEADER, true)];
            var ops := [Malloc(4060), Malloc(12), Free(lo + 4084)];
            && HeapInv(bs, lo, hi) && LegalRun(bs, lo, hi, ops)
            && MallocResult(Run(bs, lo, hi, ops[..1]), 12) == lo + 4084
            && Run(bs, lo, hi, ops) == [Block(lo, 4060, false), Block(lo + 4072, 12, false)]
  {
    var hi := lo + PAGE;
    var b0 := [Block(lo, PAGE - HEADER, true)];
    var b1 := [Block(lo, 4060, false), Block(lo + 4072, 12, true)];
    var b2 := [Block(lo, 4060, false), Block(lo + 4072, 12, false)];
    var ops := [Malloc(4060), Malloc(12), Free(lo + 4084)];
    RunOfThree(b0, lo, hi, ops);
    assert FirstFit(b0, 0, 4060) == 0 && TakeAt(b0, 0, 4060) == b1;
    assert FirstFit(b1, 0, 12) == FirstFit(b1, 1, 12) == 1 && TakeAt(b1, 1, 12) == b2;
    assert Apply(b0, lo, hi, ops[0]) == b1 && Apply(b1, lo, hi, ops[1]) == b2 && Apply(b2, lo, hi, ops[2]) == b2;
  }

  lemma RunOfThree(bs: seq<Block>, lo: nat, hi: nat, ops: seq<Op>)
    requires |ops| == 3
    ensures Run(bs, lo, hi, ops[..1]) == Apply(bs, lo, hi, ops[0])
    ensures Run(bs, lo, hi, ops) == Apply(Apply(Apply(bs, lo, hi, ops[0]), lo, hi, ops[1]), lo, hi, ops[2])
    ensures LegalRun(bs, lo, hi, ops)
      <==> (LegalOp(bs, lo, hi, ops[0]) && LegalOp(Apply(bs, lo, hi, ops[0]), lo, hi, ops[1])
            && LegalOp(Apply(Apply(bs, lo, hi, ops[0]), lo, hi, ops[1]), lo, hi, ops[2]))
  {
    hide Apply, LegalOp;
    var b1 := Apply(bs, lo, hi, ops[0]);
    var b2 := Apply(b1, lo, hi, ops[1]);
    assert ops[1..][1..][1..] == [];
    assert ops[1..][1..][0] == ops[2] && ops[1..][0] == ops[1];
    assert ops[..1][1..] == [] && ops[..1][0] == ops[0];
    assert Run(b2, lo, hi, ops[1..][1..]) == Apply(b2, lo, hi, ops[2]);
    assert Run(b1, lo, hi, ops[1..]) == Run(b2, lo, hi, ops[1..][1..]);
    assert LegalRun(b2, lo, hi, ops[1..][1..]) <==> LegalOp(b2, lo, hi, ops[2]);
    assert LegalRun(b1, lo, hi, ops[1..]) <==> LegalOp(b1, lo, hi, ops[1]) && LegalRun(b2, lo, hi, ops[1..][1..]);
  }

  // ----- the program -----

  class Heap {
    var mem: Mem
    var freeList: int
    var heapStartVirt: nat
    var heapEnd: int
    ghost var blocks: seq<Block>
    ghost const hi: nat

    ghost predicate Valid()
      reads this
    {
      && HeapInv(blocks, heapStartVirt, hi)
      && freeList == heapStartVirt
      && heapEnd == HeapEnd(hi)
      && |mem| == WORD && Linked(mem, blocks)
    }

    /** heap_init, given the physical address of the frames it was handed. */
    constructor (start: nat, numFrames: nat, memory: Mem)
      requires numFrames > 0 && start % PAGE == 0 && |memory| == WORD
      requires KERNEL_BASE + start + numFrames * PAGE <= WORD
      ensures Valid()
      ensures blocks == [Block(KERNEL_BASE + start, numFrames * PAGE - HEADER, true)]
      ensures SameOutside(memory, mem, KERNEL_BASE + start, KERNEL_BASE + start + numFrames * PAGE)
    {
      var a := KERNEL_BASE + start;
      freeList := a;
      heapStartVirt := a;
      mem := memory[a := numFrames * PAGE - HEADER][a + 4 := 0][a + 8 := 1];
      heapEnd := a + numFrames * PAGE - HEADER;
      blocks := [Block(a, numFrames * PAGE - HEADER, true)];
      hi := a + numFrames * PAGE;
    }

    method Kmalloc(bytes: nat) returns (ptr: int)
      requires Valid() && bytes < WORD
      modifies this`mem, this`blocks
      ensures Valid()
      ensures blocks == AfterMalloc(old(blocks), Round(bytes))
      ensures ptr == MallocResult(old(blocks), Round(bytes))
      ensures SameOutside(old(mem), mem, heapStartVirt, hi) && PayloadsKept(old(mem), mem, blocks)
    {
      ptr := KmallocRounded(Round(bytes));
    }

    /** A whole run on the memory itself: an allocation that is not freed keeps every payload byte. */
    method Perform(ops: seq<Op>)
      requires Valid() && LegalRun(blocks, heapStartVirt, hi, ops)
      modifies this`mem, this`blocks
      ensures Valid() && blocks == Run(old(blocks), heapStartVirt, hi, ops)
      ensures SameOutside(old(mem), mem, heapStartVirt, hi)
      ensures forall b :: b in Live(old(blocks)) && Free(b.addr + HEADER) !in ops ==> b in Live(blocks) && PayloadKept(old(mem), mem, b)
      decreases |ops|
    {
      if ops == [] {
        return;
      }
      ghost var m0, bs0 := mem, blocks;
      match ops[0] {
        case Malloc(bytes) => var _ := Kmalloc(bytes);
        case Free(ptr) => Kfree(ptr);
      }
      ghost var m1, bs1 := mem, blocks;
      forall b | b in Live(bs0) && Free(b.addr + HEADER) !in ops ensures b in Live(bs1) && PayloadKept(m0, m1, b) {
        assert ops[0] in ops;
        StaysLive(bs0, heapStartVirt, hi, ops[0], b);
        LivePayload(m0, m1, bs1, b);
      }
      Perform(ops[1..]);
    }

    method KmallocRounded(n: nat) returns (ptr: int)
      requires Valid()
      modifies this`mem, this`blocks
      ensures Valid()
      ensures blocks == AfterMalloc(old(blocks), n) && ptr == MallocResult(old(blocks), n)
      ensures SameOutside(old(mem), mem, heapStartVirt, hi) && PayloadsKept(old(mem), mem, blocks)
    {
      TiledIsOrdered(blocks, heapStartVirt, hi);
      MallocKeepsInv(blocks, heapStartVirt, hi, n);
      mem, ptr, blocks := Allocate(mem, freeList, n, blocks, heapStartVirt, hi);
    }

    method Kfree(ptr: nat)
      requires Valid() && LegalFree(blocks, heapStartVirt, hi, ptr)
      modifies this`mem, this`blocks
      ensures Valid()
      ensures blocks == AfterFree(old(blocks), heapStartVirt, hi, ptr)
      ensures SameOutside(old(mem), mem, heapStartVirt, hi) && PayloadsKept(old(mem), mem, blocks)
    {
      if ptr == 0 || ptr < heapStartVirt || ptr >= heapEnd {
        KeptRefl(mem, blocks);
        return;
      }
      ghost var at := IndexAt(blocks, ptr - HEADER, 0);
      var block := ptr - HEADER;
      LinkedAt(mem, blocks, at);
      if mem[block + 8] != 0 {
        KeptRefl(mem, blocks);
        return;
      }
      FreeKeepsInv(blocks, heapStartVirt, hi, ptr);
      TiledIsOrdered(blocks, heapStartVirt, hi);
      mem, blocks := Release(mem, freeList, block, blocks, at, heapStartVirt, hi);
    }
  }
}
