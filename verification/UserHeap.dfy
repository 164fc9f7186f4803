/** The allocator of the user C library: the block list of the kernel heap, grown through sbrk.

The region is not tiled: other callers of sbrk may leave gaps between two growths, so what is kept
is an address-ordered list of disjoint blocks below the break. */
module UserHeap {
  import opened Bits
  import opened BlockList

  const MIN_GROWTH: nat := 4096

  /** The bytes grow_heap asks sbrk for. */
  function GrowAmount(need: nat): nat { if need > MIN_GROWTH then need else MIN_GROWTH }

  /** The request as the signed 32-bit argument of sbrk. */
  function AsSigned(x: nat): int { if x < 0x8000_0000 then x else x - WORD }

  /** The break of the calling process, as SYS_SBRK keeps it; page mapping is not its concern. */
  datatype Break = Break(start: nat, cur: nat, max: nat) {
    predicate Valid() { 8 <= start <= cur <= max < KERNEL_BASE }

    /** SYS_SBRK on the break: the addition wraps, the result must stay within the two limits. */
    function Sbrk(delta: int): (Break, int)
      requires Valid() && -0x8000_0000 <= delta < 0x8000_0000
    {
      var moved := (cur + delta) % WORD;
      if moved < start || moved > max then (this, 0) else (Break(start, moved, max), cur)
    }
  }

  /** sbrk raises the break by what grow_heap asked for exactly when the sum neither wraps nor passes
      the limit; without a wrap a refusal changes nothing. The sign of the argument does not matter. A sum
      that wraps lowers the break, unless it then falls below the start. */
  lemma GrowthExact(b: Break, amount: nat)
    requires b.Valid() && 0 < amount < WORD
    ensures var (b', base) := b.Sbrk(AsSigned(amount));
            && ((base != 0 && b'.cur == b.cur + amount) <==> (b.cur + amount < WORD && b.cur + amount <= b.max))
            && (base == 0 <==> if b.cur + amount < WORD then b.cur + amount > b.max else b.cur + amount - WORD < b.start)
            && (if base == 0 then b' == b else base == b.cur && b' == b.(cur := (b.cur + amount) % WORD))
  {
  }

  /** With a wrap, a successful sbrk lowers the break: asked for almost 4 GiB with a 1 MiB heap, it gives
      the whole heap back and reports success. */
  lemma HugeGrowthLowersBreak()
    ensures var b := Break(0x50_0000, 0x60_0000, 0xBFFF_A000);
            b.Sbrk(AsSigned(0xFFF0_0000)) == (Break(0x50_0000, 0x50_0000, 0xBFFF_A000), 0x60_0000)
  {
  }

  /** What malloc asks grow_heap for; the sum wraps for the largest requests. */
  function Need(n: nat): nat { (n + HEADER) % WORD }

  /** The block a growth appends. */
  function Grown(b: Break, amount: nat): Block
    requires amount >= HEADER
  {
    Block(b.cur, amount - HEADER, true)
  }

  /** The new block always fits the request that caused it, and nothing before it did. */
  lemma GrownFits(bs: seq<Block>, b: Break, n: nat)
    requires FirstFit(bs, 0, n) == |bs|
    ensures FirstFit(bs + [Grown(b, GrowAmount(n + HEADER))], 0, n) == |bs|
  {
    GrownFitsFrom(bs, Grown(b, GrowAmount(n + HEADER)), 0, n);
  }

  lemma {:induction false} GrownFitsFrom(bs: seq<Block>, nb: Block, i: nat, n: nat)
    requires i <= |bs| && FirstFit(bs, i, n) == |bs| && nb.free && nb.size >= n
    ensures FirstFit(bs + [nb], i, n) == |bs|
    decreases |bs| - i
  {
    if i < |bs| {
      GrownFitsFrom(bs, nb, i + 1, n);
    }
  }

  lemma AppendOrdered(bs: seq<Block>, nb: Block, lo: nat)
    requires Ordered(bs) && Within(bs, lo, nb.addr) && lo <= nb.addr
    ensures Ordered(bs + [nb]) && Within(bs + [nb], lo, nb.End())
  {
    var t := bs + [nb];
    forall i, j | 0 <= i < j < |t| ensures Before(t, i, j) {
      if j < |bs| { assert Before(bs, i, j); }
    }
  }

  /** The header writes of grow_heap: the new block, and the link from the old tail. */
  function AppendMem(m: Mem, bs: seq<Block>, nb: Block): Mem
    requires nb.addr + HEADER <= |m| && (|bs| > 0 ==> bs[|bs| - 1].addr + HEADER <= |m|)
  {
    var m1 := m[nb.addr := nb.size][nb.addr + 8 := 1][nb.addr + 4 := 0];
    if |bs| == 0 then m1 else m1[bs[|bs| - 1].addr + 4 := nb.addr]
  }

  lemma AppendLinked(m: Mem, bs: seq<Block>, nb: Block, lo: nat)
    requires Linked(m, bs) && Ordered(bs) && Within(bs, lo, nb.addr) && nb.free && nb.End() <= |m|
    ensures Linked(AppendMem(m, bs, nb), bs + [nb])
    ensures PayloadsKept(m, AppendMem(m, bs, nb), bs + [nb])
  {
    var m' := AppendMem(m, bs, nb);
    var t := bs + [nb];
    var last := |bs| - 1;
    forall i | 0 <= i < |t| ensures LinkAt(m', t, i) {
      if i < |bs| {
        LinkedAt(m, bs, i);
        if i < last { assert Before(bs, i, last); }
      }
    }
    forall i | 0 <= i < |t| ensures KeptAt(m, m', t, i) {
      if i < last { assert Before(bs, i, last); }
    }
  }

  /** malloc comes to an end, with a pointer or with 0; or sbrk takes a growth for a reduction and grants
      it, and the header of the new block goes to memory the process has just given back. */
  datatype Result = Done(blocks: seq<Block>, brk: Break, ptr: int) | Astray(brk: Break)

  /** What malloc does to the list and the break. */
  function MallocOutcome(bs: seq<Block>, b: Break, n: nat): Result
    requires b.Valid()
    decreases b.max - b.cur
  {
    var i := FirstFit(bs, 0, n);
    var amount := GrowAmount(Need(n));
    if i < |bs| then Done(TakeAt(bs, i, n), b, bs[i].addr + HEADER)
    else if b.cur + amount >= WORD then
      if b.cur + amount - WORD < b.start then Done(bs, b, 0) else Astray(b.(cur := b.cur + amount - WORD))
    else if b.cur + amount > b.max then Done(bs, b, 0)
    else MallocOutcome(bs + [Grown(b, amount)], b.(cur := b.cur + amount), n)
  }

  lemma Outcome(bs: seq<Block>, b: Break, n: nat)
    requires b.Valid()
    ensures var i := FirstFit(bs, 0, n);
            var amount := GrowAmount(Need(n));
            MallocOutcome(bs, b, n)
            == if i < |bs| then Done(TakeAt(bs, i, n), b, bs[i].addr + HEADER)
               else if b.cur + amount >= WORD then
                 if b.cur + amount - WORD < b.start then Done(bs, b, 0) else Astray(b.(cur := b.cur + amount - WORD))
               else if b.cur + amount > b.max then Done(bs, b, 0)
               else MallocOutcome(bs + [Grown(b, amount)], b.(cur := b.cur + amount), n)
  {
  }

  /** A request whose header still fits 32 bits grows the heap at most once. */
  lemma GrowsOnce(bs: seq<Block>, b: Break, n: nat)
    requires b.Valid() && n + HEADER < WORD
    requires FirstFit(bs, 0, n) == |bs| && b.cur + GrowAmount(n + HEADER) <= b.max
    ensures var amount := GrowAmount(n + HEADER);
            MallocOutcome(bs, b, n) == Done(TakeAt(bs + [Grown(b, amount)], |bs|, n), b.(cur := b.cur + amount), b.cur + HEADER)
  {
    hide MallocOutcome, TakeAt, FirstFit;
    var amount := GrowAmount(n + HEADER);
    GrownFits(bs, b, n);
    Outcome(bs, b, n);
    Outcome(bs + [Grown(b, amount)], b.(cur := b.cur + amount), n);
  }

  /** The first malloc of a program grows the heap by 4096 bytes, unless it asks for more. */
  lemma FirstMalloc(b: Break, n: nat)
    requires b.Valid() && n <= 4084 && b.cur + 4096 <= b.max
    ensures MallocOutcome([], b, n)
            == Done(if n + 16 <= 4084 then [Block(b.cur, n, false), Block(b.cur + 12 + n, 4072 - n, true)] else [Block(b.cur, 4084, false)],
                    Break(b.start, b.cur + 4096, b.max), b.cur + 12)
  {
    hide MallocOutcome;
    GrowsOnce([], b, n);
    assert [] + [Grown(b, 4096)] == [Block(b.cur, 4084, true)];
  }

  /** A larger one takes all the memory the limit allows in steps of 4096 bytes, none of which helps, and
      then fails. */
  lemma {:induction false} Exhausts(bs: seq<Block>, b: Break, n: nat)
    requires b.Valid() && WORD - HEADER <= n < WORD && FirstFit(bs, 0, n) == |bs|
    ensures var k := (b.max - b.cur) / MIN_GROWTH;
            var r := MallocOutcome(bs, b, n);
            && r.Done? && r.ptr == 0 && r.brk == b.(cur := b.cur + k * MIN_GROWTH)
            && bs <= r.blocks && |r.blocks| == |bs| + k
            && forall i :: |bs| <= i < |r.blocks| ==> r.blocks[i].free && r.blocks[i].size == MIN_GROWTH - HEADER
    decreases b.max - b.cur
  {
    hide FirstFit;
    if b.cur + MIN_GROWTH <= b.max {
      NoFitAppended(bs, Grown(b, MIN_GROWTH), 0, n);
      Exhausts(bs + [Grown(b, MIN_GROWTH)], b.(cur := b.cur + MIN_GROWTH), n);
    }
  }

  lemma {:induction false} NoFitAppended(bs: seq<Block>, nb: Block, i: nat, n: nat)
    requires i <= |bs| && FirstFit(bs, i, n) == |bs| && nb.size < n
    ensures FirstFit(bs + [nb], i, n) == |bs| + 1
    decreases |bs| - i
  {
    if i < |bs| {
      NoFitAppended(bs, nb, i + 1, n);
    }
  }

  /** malloc goes astray exactly when no free block fits and the sum of break and growth wraps to an
      address that is not below the start of the heap. */
  lemma AstrayIff(bs: seq<Block>, b: Break, n: nat)
    requires b.Valid() && n < WORD
    ensures MallocOutcome(bs, b, n).Astray? <==>
              FirstFit(bs, 0, n) == |bs| && n + HEADER < WORD && b.cur + n + HEADER >= WORD + b.start
  {
    hide MallocOutcome, FirstFit, TakeAt;
    Outcome(bs, b, n);
    if FirstFit(bs, 0, n) == |bs| {
      if n + HEADER >= WORD {
        Exhausts(bs, b, n);
      } else if b.cur + GrowAmount(n + HEADER) <= b.max {
        GrowsOnce(bs, b, n);
      }
    }
  }

  /** The same request made through malloc, on a heap without free blocks. */
  lemma HugeMallocGoesAstray()
    ensures MallocOutcome([], Break(0x50_0000, 0x60_0000, 0xBFFF_A000), 0xFFF0_0000 - HEADER) == Astray(Break(0x50_0000, 0x50_0000, 0xBFFF_A000))
  {
    hide MallocOutcome;
    Outcome([], Break(0x50_0000, 0x60_0000, 0xBFFF_A000), 0xFFF0_0000 - HEADER);
  }

  /** malloc returns 0 exactly when no free block fits and the break cannot be raised far enough, or the
      request is too large for its header to be counted. */
  lemma MallocFailsIff(bs: seq<Block>, b: Break, n: nat)
    requires b.Valid() && n < WORD
    ensures var r := MallocOutcome(bs, b, n);
            (r.Done? && r.ptr == 0) <==>
              && (forall i :: 0 <= i < |bs| && bs[i].free ==> bs[i].size < n)
              && (n + HEADER < WORD ==> b.max < b.cur + GrowAmount(n + HEADER) < WORD + b.start)
  {
    hide MallocOutcome, TakeAt;
    var k := FirstFit(bs, 0, n);
    AstrayIff(bs, b, n);
    Outcome(bs, b, n);
    if k == |bs| {
      if n + HEADER >= WORD {
        Exhausts(bs, b, n);
      } else if b.cur + GrowAmount(n + HEADER) <= b.max {
        GrowsOnce(bs, b, n);
      }
    }
  }

  /** A successful malloc hands out the payload of a live block of at least the size asked for, unless the
      rounding wraps; the other blocks stay as they were. */
  lemma MallocGives(bs: seq<Block>, b: Break, size: nat)
    requires b.Valid() && size < WORD
    ensures var r := MallocOutcome(bs, b, Round(size));
            r.Done? && r.ptr != 0 ==>
              && (exists i :: 0 <= i < |r.blocks| && !r.blocks[i].free && r.blocks[i].addr + HEADER == r.ptr && (size <= WORD - 4 ==> r.blocks[i].size >= size))
              && (forall c :: c in bs && !c.free ==> c in r.blocks)
  {
    hide MallocOutcome, TakeAt, Round;
    var n := Round(size);
    RoundCovers(size);
    var i := FirstFit(bs, 0, n);
    var amount := GrowAmount(n + HEADER);
    Outcome(bs, b, n);
    if i < |bs| {
      TakenAt(bs, i, n);
    } else if n + HEADER >= WORD {
      Exhausts(bs, b, n);
    } else if b.cur + amount <= b.max {
      GrowsOnce(bs, b, n);
      TakenAt(bs + [Grown(b, amount)], |bs|, n);
    }
  }

  lemma TakenAt(bs: seq<Block>, i: nat, n: nat)
    requires i < |bs| && bs[i].free && bs[i].size >= n
    ensures var t := TakeAt(bs, i, n); i < |t| && !t[i].free && t[i].addr == bs[i].addr && t[i].size >= n
    ensures forall c :: c in bs && !c.free ==> c in TakeAt(bs, i, n)
  {
    var p := Parts(bs[i], n);
    SpliceAt(bs, i, i + 1, p, i);
    forall c | c in bs && !c.free ensures c in TakeAt(bs, i, n) {
      var k :| 0 <= k < |bs| && bs[k] == c;
      SpliceAt(bs, i, i + 1, p, if k < i then k else k + |p| - 1);
    }
  }

  lemma KeptPrefix(m: Mem, m': Mem, bs: seq<Block>, bs': seq<Block>)
    requires |m| == |m'| && PayloadsKept(m, m', bs') && bs <= bs'
    ensures PayloadsKept(m, m', bs)
  {
    forall k | 0 <= k < |bs| ensures KeptAt(m, m', bs, k) { assert KeptAt(m, m', bs', k); }
  }

  lemma KeptBeforeTake(m: Mem, m': Mem, bs: seq<Block>, i: nat, n: nat)
    requires i < |bs| && bs[i].free && bs[i].size >= n
    requires |m| == |m'| && PayloadsKept(m, m', TakeAt(bs, i, n))
    ensures PayloadsKept(m, m', bs)
  {
    var p := Parts(bs[i], n);
    forall k | 0 <= k < |bs| ensures KeptAt(m, m', bs, k) {
      if k != i {
        var k' := if k < i then k else k + |p| - 1;
        SpliceAt(bs, i, i + 1, p, k');
        assert KeptAt(m, m', TakeAt(bs, i, n), k');
      }
    }
  }

  class Allocator {
    var mem: Mem
    var freeList: int
    var brk: Break
    ghost var blocks: seq<Block>

    ghost predicate Valid()
      reads this
    {
      brk.Valid() && InMemory(mem, freeList, blocks, brk.start, brk.cur)
    }

    constructor (memory: Mem, b: Break)
      requires |memory| == WORD && b.Valid()
      ensures Valid() && blocks == [] && brk == b
    {
      mem, freeList, brk, blocks := memory, 0, b, [];
    }

    /** grow_heap: returns false when sbrk refuses. When sbrk lowers the break instead, the program is
        astray, and nothing more is promised. */
    method GrowHeap(need: nat) returns (ok: bool, astray: bool)
      requires Valid() && need < WORD
      modifies this
      ensures !astray ==> Valid()
      ensures astray <==> old(brk.cur) + GrowAmount(need) >= WORD + old(brk.start)
      ensures astray ==> !ok && brk == old(brk).(cur := old(brk.cur) + GrowAmount(need) - WORD)
      ensures ok <==> old(brk.cur) + GrowAmount(need) <= old(brk.max)
      ensures !ok && !astray ==> blocks == old(blocks) && brk == old(brk) && mem == old(mem)
      ensures ok ==> blocks == old(blocks) + [Grown(old(brk), GrowAmount(need))]
      ensures ok ==> brk == old(brk).(cur := old(brk.cur) + GrowAmount(need))
      ensures !astray ==> PayloadsKept(old(mem), mem, blocks)
    {
      hide Ordered, Linked;
      var amount := if need > MIN_GROWTH then need else MIN_GROWTH;
      GrowthExact(brk, amount);
      var (b', base) := brk.Sbrk(AsSigned(amount));
      KeptRefl(mem, blocks);
      if base == 0 {
        return false, false;
      }
      if b'.cur < base {
        brk := b';
        return false, true;
      }
      ghost var nb := Grown(brk, amount);
      AppendLinked(mem, blocks, nb, brk.start);
      AppendOrdered(blocks, nb, brk.start);
      var tail := LastBlock();
      mem := mem[base := amount - HEADER][base + 8 := 1][base + 4 := 0];
      if freeList == 0 {
        freeList := base;
      } else {
        mem := mem[tail + 4 := base];
      }
      brk := b';
      blocks := blocks + [nb];
      return true, false;
    }

    /** The walk to the end of the list. */
    method LastBlock() returns (curr: int)
      requires Valid()
      ensures |blocks| > 0 ==> curr == blocks[|blocks| - 1].addr
    {
      curr := freeList;
      if curr == 0 { return; }
      ghost var i := 0;
      LinkedAt(mem, blocks, 0);
      while mem[curr + 4] != 0
        invariant i < |blocks| && curr == blocks[i].addr && curr + HEADER <= WORD
        decreases |blocks| - i
      {
        LinkedAt(mem, blocks, i);
        curr := mem[curr + 4];
        i := i + 1;
        LinkedAt(mem, blocks, i);
      }
      LinkedAt(mem, blocks, i);
    }

    /** malloc, recursion included. */
    method Malloc(size: nat) returns (ptr: int, astray: bool)
      requires Valid() && size < WORD
      modifies this
      ensures !astray ==> Valid() && Done(blocks, brk, ptr) == MallocOutcome(old(blocks), old(brk), Round(size))
      ensures !astray ==> PayloadsKept(old(mem), mem, old(blocks))
      ensures astray ==> Astray(brk) == MallocOutcome(old(blocks), old(brk), Round(size))
      decreases brk.max - brk.cur
    {
      hide Round, MallocOutcome, PayloadsKept, TakeAt;
      var n := Round(size);
      RoundCovers(size);
      Outcome(blocks, brk, n);
      ptr := TryFit(n);
      if ptr != 0 {
        return ptr, false;
      }
      ghost var m0, bs0 := mem, blocks;
      var ok;
      ok, astray := GrowHeap((n + HEADER) % WORD);
      if astray {
        return 0, true;
      }
      KeptPrefix(m0, mem, bs0, blocks);
      if !ok {
        return 0, false;
      }
      ghost var m1, bs1 := mem, blocks;
      ptr, astray := Malloc(n);
      if !astray {
        KeptPrefix(m1, mem, bs0, bs1);
        KeptTrans(m0, m1, mem, bs0, bs0);
      }
    }

    /** The walk of malloc. */
    method TryFit(n: nat) returns (ptr: int)
      requires Valid()
      modifies this`mem, this`blocks
      ensures Valid()
      ensures var i := FirstFit(old(blocks), 0, n);
              if i == |old(blocks)| then ptr == 0 && blocks == old(blocks) && mem == old(mem)
              else ptr == old(blocks)[i].addr + HEADER && blocks == TakeAt(old(blocks), i, n)
      ensures PayloadsKept(old(mem), mem, old(blocks))
    {
      ghost var m0, bs0, i := mem, blocks, FirstFit(blocks, 0, n);
      mem, ptr, blocks := Allocate(mem, freeList, n, blocks, brk.start, brk.cur);
      if i < |bs0| {
        KeptBeforeTake(m0, mem, bs0, i, n);
      }
    }

    method Free(ptr: nat, ghost at: nat)
      requires Valid() && (ptr == 0 || (at < |blocks| && ptr == blocks[at].addr + HEADER))
      modifies this
      ensures Valid() && brk == old(brk)
      ensures blocks == if ptr == 0 then old(blocks) else Coalesce(MarkAt(old(blocks), at))
      ensures ptr != 0 ==> Clean(blocks)
      ensures PayloadsKept(old(mem), mem, blocks)
    {
      if ptr == 0 {
        KeptRefl(mem, blocks);
        return;
      }
      var block := ptr - HEADER;
      CoalesceClean(MarkAt(blocks, at));
      mem, blocks := Release(mem, freeList, block, blocks, at, brk.start, brk.cur);
    }
  }
}
