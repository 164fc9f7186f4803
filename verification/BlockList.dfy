/** The block list shared by the kernel heap and the user allocator.

Both allocators keep a singly linked list of blocks inside the memory they hand out. A block is
a 12-byte header (size, next, free flag) followed by its payload. This module defines the list as
a mathematical sequence, says how it is laid out in memory, and proves what splitting a block and
the one-pass merge of neighbours do to it. */
module BlockList {
  import opened Bits

  const HEADER: nat := 12

  /** Addresses and sizes are multiples of the word size. */
  predicate Word(a: int) { a % 4 == 0 }

  datatype Block = Block(addr: nat, size: nat, free: bool) {
    function End(): nat { addr + HEADER + size }
  }

  // ----- shape of a list -----

  /** Address ordered, and no two blocks (headers included) overlap. */
  ghost predicate Ordered(bs: seq<Block>) {
    forall i, j {:trigger Before(bs, i, j)} :: 0 <= i < j < |bs| ==> Before(bs, i, j)
  }

  ghost predicate Before(bs: seq<Block>, i: int, j: int)
    requires 0 <= i < j < |bs|
  {
    bs[i].End() <= bs[j].addr
  }

  /** Block i ends where block i + 1 begins. */
  ghost predicate Touch(bs: seq<Block>, i: int)
    requires 0 <= i < |bs| - 1
  {
    bs[i].End() == bs[i + 1].addr
  }

  /** The blocks cover [lo, hi) without gap or overlap. */
  ghost predicate Tiled(bs: seq<Block>, lo: nat, hi: nat) {
    && |bs| > 0
    && bs[0].addr == lo
    && bs[|bs| - 1].End() == hi
    && forall i {:trigger Touch(bs, i)} :: 0 <= i < |bs| - 1 ==> Touch(bs, i)
  }

  ghost predicate Aligned(bs: seq<Block>) {
    forall i :: 0 <= i < |bs| ==> 0 < bs[i].addr && Word(bs[i].addr) && Word(bs[i].size)
  }

  predicate Mergeable(a: Block, b: Block) {
    a.free && b.free && a.End() == b.addr
  }

  ghost predicate Apart(bs: seq<Block>, i: int)
    requires 0 <= i < |bs| - 1
  {
    !Mergeable(bs[i], bs[i + 1])
  }

  /** No two neighbours that a merge pass would join. */
  ghost predicate Clean(bs: seq<Block>) {
    forall i {:trigger Apart(bs, i)} :: 0 <= i < |bs| - 1 ==> Apart(bs, i)
  }

  /** Address a belongs to some block of the list. */
  ghost predicate Covered(bs: seq<Block>, a: nat) {
    exists i :: 0 <= i < |bs| && bs[i].addr <= a < bs[i].End()
  }

  /** The allocated blocks, in address order. */
  ghost function Live(bs: seq<Block>): seq<Block> {
    if bs == [] then [] else (if bs[0].free then [] else [bs[0]]) + Live(bs[1..])
  }

  ghost predicate Within(mid: seq<Block>, lo: nat, hi: nat) {
    forall k :: 0 <= k < |mid| ==> lo <= mid[k].addr && mid[k].End() <= hi
  }

  lemma TiledIsOrdered(bs: seq<Block>, lo: nat, hi: nat)
    requires Tiled(bs, lo, hi)
    ensures Ordered(bs)
    ensures Within(bs, lo, hi)
  {
    forall i, j | 0 <= i < j < |bs| ensures Before(bs, i, j) {
      TiledApart(bs, lo, hi, i, j);
    }
    forall i | 0 <= i < |bs| ensures lo <= bs[i].addr && bs[i].End() <= hi {
      if i > 0 { TiledApart(bs, lo, hi, 0, i); }
      if i < |bs| - 1 { TiledApart(bs, lo, hi, i, |bs| - 1); }
    }
  }

  lemma {:induction false} TiledApart(bs: seq<Block>, lo: nat, hi: nat, i: nat, j: nat)
    requires Tiled(bs, lo, hi) && i < j < |bs|
    ensures bs[i].End() <= bs[j].addr
    decreases j
  {
    assert Touch(bs, j - 1);
    if i + 1 < j { TiledApart(bs, lo, hi, i, j - 1); }
  }

  lemma {:induction false} LiveMembers(bs: seq<Block>, b: Block)
    ensures b in Live(bs) <==> b in bs && !b.free
  {
    if bs != [] {
      LiveMembers(bs[1..], b);
      assert bs == [bs[0]] + bs[1..];
    }
  }

  lemma Associate<T>(a: seq<T>, b: seq<T>, c: seq<T>)
    ensures (a + b) + c == a + (b + c)
  {
  }

  lemma {:induction false} LiveConcat(a: seq<Block>, b: seq<Block>)
    ensures Live(a + b) == Live(a) + Live(b)
  {
    if a == [] {
      assert a + b == b;
    } else {
      assert (a + b)[0] == a[0] && (a + b)[1..] == a[1..] + b;
      LiveConcat(a[1..], b);
      Associate(if a[0].free then [] else [a[0]], Live(a[1..]), Live(b));
    }
  }

  // ----- replacing a stretch of blocks -----

  /** Blocks i..j of the list give way to mid. */
  function Splice(bs: seq<Block>, i: nat, j: nat, mid: seq<Block>): seq<Block>
    requires i <= j <= |bs|
  {
    bs[..i] + mid + bs[j..]
  }

  lemma SpliceAt(bs: seq<Block>, i: nat, j: nat, mid: seq<Block>, k: nat)
    requires i <= j <= |bs| && k < |Splice(bs, i, j, mid)|
    ensures |Splice(bs, i, j, mid)| == |bs| - (j - i) + |mid|
    ensures Splice(bs, i, j, mid)[k] == (if k < i then bs[k] else if k < i + |mid| then mid[k - i] else bs[k - |mid| + j - i])
  {
  }

  lemma UpdateIsSplice(bs: seq<Block>, i: nat, b: Block)
    requires i < |bs|
    ensures bs[i := b] == Splice(bs, i, i + 1, [b])
    ensures bs[i := bs[i]] == bs
  {
  }

  lemma SpliceLive(bs: seq<Block>, i: nat, j: nat, mid: seq<Block>)
    requires i <= j <= |bs|
    ensures Live(Splice(bs, i, j, mid)) == Live(bs[..i]) + Live(mid) + Live(bs[j..])
  {
    LiveConcat(bs[..i], mid);
    LiveConcat(bs[..i] + mid, bs[j..]);
  }

  lemma SpliceOrdered(bs: seq<Block>, i: nat, j: nat, mid: seq<Block>)
    requires i < j <= |bs| && Ordered(bs) && Ordered(mid) && Within(mid, bs[i].addr, bs[j - 1].End())
    ensures Ordered(Splice(bs, i, j, mid))
  {
    var t := Splice(bs, i, j, mid);
    forall k, l | 0 <= k < l < |t| ensures Before(t, k, l) {
      SpliceAt(bs, i, j, mid, k);
      SpliceAt(bs, i, j, mid, l);
      var k0 := if k < i then k else k - |mid| + j - i;
      var l0 := if l < i then l else l - |mid| + j - i;
      if (k < i || k >= i + |mid|) && (l < i || l >= i + |mid|) { assert Before(bs, k0, l0); }
      if i <= k && l < i + |mid| { assert Before(mid, k - i, l - i); }
      if k < i <= l < i + |mid| {
        assert Before(bs, k, i);
      } else if i <= k < i + |mid| <= l {
        assert Before(bs, j - 1, l - |mid| + j - i);
      }
    }
  }

  // ----- taking a block -----

  /** Requests are rounded up to a multiple of four in 32-bit arithmetic. */
  function Round(bytes: nat): nat { (bytes + 3) % WORD / 4 * 4 }

  /** The rounded size covers the request exactly when the rounding does not wrap. */
  lemma RoundCovers(bytes: nat)
    requires bytes < WORD
    ensures Round(bytes) >= bytes <==> bytes <= WORD - 4
    ensures bytes <= WORD - 4 ==> Round(bytes) < bytes + 4
    ensures Round(bytes) % 4 == 0 && Round(bytes) < WORD && Round(Round(bytes)) == Round(bytes)
  {
  }

  /** Index of the first free block of at least n bytes at or after i, or |bs|. */
  function FirstFit(bs: seq<Block>, i: nat, n: nat): (r: nat)
    requires i <= |bs|
    ensures i <= r <= |bs|
    ensures r < |bs| ==> bs[r].free && bs[r].size >= n
    ensures forall j :: i <= j < r ==> !(bs[j].free && bs[j].size >= n)
    decreases |bs| - i
  {
    if i == |bs| || (bs[i].free && bs[i].size >= n) then i else FirstFit(bs, i + 1, n)
  }

  predicate Splits(b: Block, n: nat) { b.size >= n + HEADER + 4 }

  /** What a block taken for n bytes turns into. The rest becomes a free block when it can hold a
      header and four bytes. */
  function Parts(b: Block, n: nat): (r: seq<Block>)
    requires b.size >= n
    ensures 1 <= |r| <= 2
    ensures r[0].addr == b.addr && !r[0].free && n <= r[0].size < n + HEADER + 4
  {
    if Splits(b, n) then [Block(b.addr, n, false), Block(b.addr + HEADER + n, b.size - n - HEADER, true)]
    else [b.(free := false)]
  }

  /** The two parts fill the block, and there are two exactly if sixteen bytes are left. */
  lemma PartsFill(b: Block, n: nat)
    requires b.size >= n
    ensures var p := Parts(b, n);
            && (|p| == 2 <==> b.size >= n + 16) && p[|p| - 1].End() == b.End()
            && (|p| == 2 ==> p[0].size == n && p[1].free && p[1].addr == p[0].End() == b.addr + 12 + n && p[1].size == b.size - n - 12)
            && (|p| == 1 ==> p[0].size == b.size)
  {
  }

  function TakeAt(bs: seq<Block>, i: nat, n: nat): seq<Block>
    requires i < |bs| && bs[i].size >= n
  {
    Splice(bs, i, i + 1, Parts(bs[i], n))
  }

  lemma TakeKeepsClean(bs: seq<Block>, i: nat, n: nat)
    requires i < |bs| && bs[i].free && bs[i].size >= n && Clean(bs)
    ensures Clean(TakeAt(bs, i, n))
  {
    var t := TakeAt(bs, i, n);
    var p := Parts(bs[i], n);
    forall j | 0 <= j < |t| - 1 ensures Apart(t, j) {
      SpliceAt(bs, i, i + 1, p, j);
      SpliceAt(bs, i, i + 1, p, j + 1);
      if j >= i + |p| - 1 {
        assert Apart(bs, j - |p| + 1);
      } else if j + 1 < i {
        assert Apart(bs, j);
      }
    }
  }

  lemma TakeKeepsTiling(bs: seq<Block>, i: nat, n: nat, lo: nat, hi: nat)
    requires i < |bs| && bs[i].size >= n && Tiled(bs, lo, hi)
    ensures Tiled(TakeAt(bs, i, n), lo, hi)
  {
    var t := TakeAt(bs, i, n);
    var p := Parts(bs[i], n);
    SpliceAt(bs, i, i + 1, p, 0);
    SpliceAt(bs, i, i + 1, p, |t| - 1);
    forall j | 0 <= j < |t| - 1 ensures Touch(t, j) {
      SpliceAt(bs, i, i + 1, p, j);
      SpliceAt(bs, i, i + 1, p, j + 1);
      if j >= i + |p| - 1 { assert Touch(bs, j - |p| + 1); } else if j < i { assert Touch(bs, j); }
    }
  }

  lemma TakeKeepsOrder(bs: seq<Block>, i: nat, n: nat)
    requires Ordered(bs) && i < |bs| && bs[i].size >= n
    ensures Ordered(TakeAt(bs, i, n))
  {
    SpliceOrdered(bs, i, i + 1, Parts(bs[i], n));
  }

  lemma TakeKeepsAlignment(bs: seq<Block>, i: nat, n: nat)
    requires Aligned(bs) && i < |bs| && bs[i].size >= n && Word(n)
    ensures Aligned(TakeAt(bs, i, n))
  {
    var t := TakeAt(bs, i, n);
    forall k | 0 <= k < |t| ensures 0 < t[k].addr && Word(t[k].addr) && Word(t[k].size) {
      SpliceAt(bs, i, i + 1, Parts(bs[i], n), k);
    }
  }

  /** Every block live before stays live and untouched; exactly one is added. */
  lemma TakeAddsOne(bs: seq<Block>, i: nat, n: nat)
    requires i < |bs| && bs[i].free && bs[i].size >= n
    ensures Live(bs) == Live(bs[..i]) + Live(bs[i + 1..])
    ensures Live(TakeAt(bs, i, n)) == Live(bs[..i]) + [Parts(bs[i], n)[0]] + Live(bs[i + 1..])
  {
    SpliceLive(bs, i, i + 1, Parts(bs[i], n));
    PartsLive(bs[i], n);
    UpdateIsSplice(bs, i, bs[i]);
    SpliceLive(bs, i, i + 1, [bs[i]]);
    LiveOne(bs[i]);
    assert Live(bs[..i]) + [] == Live(bs[..i]);
  }

  lemma LiveOne(b: Block)
    ensures Live([b]) == if b.free then [] else [b]
  {
    assert [b][1..] == [];
  }

  lemma PartsLive(b: Block, n: nat)
    requires b.size >= n
    ensures Live(Parts(b, n)) == [Parts(b, n)[0]]
  {
    var p := Parts(b, n);
    LiveOne(p[0]);
    if |p| == 2 {
      LiveOne(p[1]);
      LiveConcat([p[0]], [p[1]]);
      assert p == [p[0]] + [p[1]];
    } else {
      assert p == [p[0]];
    }
  }

  // ----- the merge pass -----

  function MarkAt(bs: seq<Block>, i: nat): seq<Block>
    requires i < |bs|
  {
    bs[i := bs[i].(free := true)]
  }

  function Merge(a: Block, b: Block): Block {
    Block(a.addr, a.size + HEADER + b.size, true)
  }

  /** One pass over the list, staying on a block as long as it absorbs its successor. */
  function Coalesce(bs: seq<Block>): (r: seq<Block>)
    ensures |bs| > 0 ==> |r| > 0 && r[0].addr == bs[0].addr && r[0].free == bs[0].free && r[0].size >= bs[0].size
    ensures |r| <= |bs|
    decreases |bs|
  {
    if |bs| < 2 then bs
    else if Mergeable(bs[0], bs[1]) then
      Coalesce([Merge(bs[0], bs[1])] + bs[2..])
    else [bs[0]] + Coalesce(bs[1..])
  }

  /** One pass is enough: nothing is left to merge. */
  lemma {:induction false} CoalesceClean(bs: seq<Block>)
    ensures Clean(Coalesce(bs))
    decreases |bs|
  {
    if |bs| < 2 {
    } else if Mergeable(bs[0], bs[1]) {
      CoalesceClean([Merge(bs[0], bs[1])] + bs[2..]);
    } else {
      CoalesceClean(bs[1..]);
      var r := Coalesce(bs);
      forall i | 0 <= i < |r| - 1 ensures Apart(r, i) {
        if i > 0 { assert Apart(Coalesce(bs[1..]), i - 1); }
      }
    }
  }

  lemma {:induction false} CoalesceIdentity(bs: seq<Block>)
    requires Clean(bs)
    ensures Coalesce(bs) == bs
  {
    if |bs| >= 2 {
      assert Apart(bs, 0);
      forall i | 0 <= i < |bs[1..]| - 1 ensures Apart(bs[1..], i) {
        assert Apart(bs, i + 1);
      }
      CoalesceIdentity(bs[1..]);
    }
  }

  /** Allocated blocks are left exactly as they were. */
  lemma {:induction false} CoalesceKeepsLive(bs: seq<Block>)
    ensures Live(Coalesce(bs)) == Live(bs)
    decreases |bs|
  {
    if |bs| < 2 {
    } else if Mergeable(bs[0], bs[1]) {
      var m := [Merge(bs[0], bs[1])] + bs[2..];
      CoalesceKeepsLive(m);
      assert m[1..] == bs[2..] == bs[1..][1..];
    } else {
      CoalesceKeepsLive(bs[1..]);
      assert Coalesce(bs)[1..] == Coalesce(bs[1..]);
    }
  }

  lemma CoalesceLiveMembers(bs: seq<Block>, b: Block)
    requires b in Coalesce(bs) && !b.free
    ensures b in bs
  {
    CoalesceKeepsLive(bs);
    LiveMembers(bs, b);
    LiveMembers(Coalesce(bs), b);
  }

  lemma MergeAligned(bs: seq<Block>)
    requires Aligned(bs) && |bs| >= 2 && Mergeable(bs[0], bs[1])
    ensures Aligned([Merge(bs[0], bs[1])] + bs[2..])
  {
    var m := Merge(bs[0], bs[1]);
    assert Word(m.size);
    forall i | 0 <= i < |[m] + bs[2..]|
      ensures 0 < ([m] + bs[2..])[i].addr && Word(([m] + bs[2..])[i].addr) && Word(([m] + bs[2..])[i].size)
    {
      if i > 0 { assert ([m] + bs[2..])[i] == bs[i + 1]; }
    }
  }

  lemma {:induction false} CoalesceKeepsAlignment(bs: seq<Block>)
    requires Aligned(bs)
    ensures Aligned(Coalesce(bs))
    decreases |bs|
  {
    if |bs| < 2 {
    } else if Mergeable(bs[0], bs[1]) {
      MergeAligned(bs);
      CoalesceKeepsAlignment([Merge(bs[0], bs[1])] + bs[2..]);
    } else {
      CoalesceKeepsAlignment(bs[1..]);
    }
  }

  /** Merging neither loses nor invents memory: the same addresses are covered. */
  lemma {:induction false} CoalesceKeepsCover(bs: seq<Block>, a: nat)
    ensures Covered(Coalesce(bs), a) <==> Covered(bs, a)
    decreases |bs|
  {
    if |bs| < 2 {
    } else if Mergeable(bs[0], bs[1]) {
      var m := [Merge(bs[0], bs[1])] + bs[2..];
      CoalesceKeepsCover(m, a);
      MergeCovers(bs, m, a);
    } else {
      CoalesceKeepsCover(bs[1..], a);
      ConsCovers(bs[0], Coalesce(bs[1..]), a);
      ConsCovers(bs[0], bs[1..], a);
      assert bs == [bs[0]] + bs[1..];
    }
  }

  lemma ConsCovers(b: Block, bs: seq<Block>, a: nat)
    ensures Covered([b] + bs, a) <==> b.addr <= a < b.End() || Covered(bs, a)
  {
    if Covered(bs, a) {
      var i :| 0 <= i < |bs| && bs[i].addr <= a < bs[i].End();
      assert ([b] + bs)[i + 1] == bs[i];
    }
    assert ([b] + bs)[0] == b;
  }

  lemma MergeCovers(bs: seq<Block>, m: seq<Block>, a: nat)
    requires |bs| >= 2 && Mergeable(bs[0], bs[1]) && m == [Merge(bs[0], bs[1])] + bs[2..]
    ensures Covered(m, a) <==> Covered(bs, a)
  {
    ConsCovers(Merge(bs[0], bs[1]), bs[2..], a);
    ConsCovers(bs[1], bs[2..], a);
    ConsCovers(bs[0], [bs[1]] + bs[2..], a);
    assert bs == [bs[0]] + ([bs[1]] + bs[2..]);
  }

  lemma TiledTail(bs: seq<Block>, lo: nat, hi: nat)
    requires Tiled(bs, lo, hi) && |bs| >= 2
    ensures bs[0].End() == bs[1].addr && Tiled(bs[1..], bs[1].addr, hi)
  {
    assert Touch(bs, 0);
    forall i | 0 <= i < |bs[1..]| - 1 ensures Touch(bs[1..], i) { assert Touch(bs, i + 1); }
  }

  lemma TiledCons(b: Block, bs: seq<Block>, hi: nat)
    requires Tiled(bs, b.End(), hi)
    ensures Tiled([b] + bs, b.addr, hi)
  {
    var t := [b] + bs;
    forall i | 0 <= i < |t| - 1 ensures Touch(t, i) {
      if i > 0 { assert Touch(bs, i - 1); }
    }
  }

  lemma TiledMerge(bs: seq<Block>, lo: nat, hi: nat)
    requires Tiled(bs, lo, hi) && |bs| >= 2
    ensures Tiled([Merge(bs[0], bs[1])] + bs[2..], lo, hi)
  {
    TiledTail(bs, lo, hi);
    if |bs| > 2 {
      TiledTail(bs[1..], bs[1].addr, hi);
      assert bs[1..][1..] == bs[2..];
      TiledCons(Merge(bs[0], bs[1]), bs[2..], hi);
    } else {
      assert bs[2..] == [];
    }
  }

  lemma {:induction false} CoalesceKeepsTiling(bs: seq<Block>, lo: nat, hi: nat)
    requires Tiled(bs, lo, hi)
    ensures Tiled(Coalesce(bs), lo, hi)
    ensures Coalesce(bs)[|Coalesce(bs)| - 1].size >= bs[|bs| - 1].size
    decreases |bs|
  {
    if |bs| < 2 {
    } else if Mergeable(bs[0], bs[1]) {
      TiledMerge(bs, lo, hi);
      CoalesceKeepsTiling([Merge(bs[0], bs[1])] + bs[2..], lo, hi);
    } else {
      TiledTail(bs, lo, hi);
      CoalesceKeepsTiling(bs[1..], bs[1].addr, hi);
      TiledCons(bs[0], Coalesce(bs[1..]), hi);
    }
  }

  /** A merge pass does nothing to a clean prefix that does not touch what follows. */
  lemma {:induction false} CoalescePrefix(a: seq<Block>, b: seq<Block>)
    requires Clean(a)
    requires |a| > 0 && |b| > 0 ==> !Mergeable(a[|a| - 1], b[0])
    ensures Coalesce(a + b) == a + Coalesce(b)
  {
    if a == [] {
      assert a + b == b;
    } else if |a + b| < 2 {
      assert b == [];
      assert a + b == a;
    } else {
      hide Clean;
      assert (a + b)[0] == a[0] && (a + b)[1..] == a[1..] + b;
      CleanTail(a);
      CoalescePrefix(a[1..], b);
      Associate([a[0]], a[1..], Coalesce(b));
      assert [a[0]] + a[1..] == a;
    }
  }

  lemma CleanTail(a: seq<Block>)
    requires Clean(a) && a != []
    ensures Clean(a[1..]) && (|a| > 1 ==> !Mergeable(a[0], a[1]))
  {
    assert |a| > 1 ==> Apart(a, 0);
    forall i | 0 <= i < |a[1..]| - 1 ensures Apart(a[1..], i) {
      assert Apart(a, i + 1);
    }
  }

  /** Releasing the block just taken, followed by the merge pass, gives back the original list. */
  lemma TakeThenFree(bs: seq<Block>, i: nat, n: nat)
    requires Clean(bs) && i < |bs| && bs[i].free && bs[i].size >= n
    ensures i < |TakeAt(bs, i, n)|
    ensures var t := TakeAt(bs, i, n); Coalesce(MarkAt(t, i)) == bs
  {
    var t := TakeAt(bs, i, n);
    var p := Parts(bs[i], n);
    SpliceAt(bs, i, i + 1, p, i);
    var f := MarkAt(t, i);
    var tail := FreedTail(bs, i, n);
    assert f == bs[..i] + tail by {
      forall k | 0 <= k < |f| ensures f[k] == (bs[..i] + tail)[k] { SpliceAt(bs, i, i + 1, p, k); }
    }
    FreedTailCoalesces(bs, i, n);
    CleanPrefix(bs, i);
    if i > 0 { assert Apart(bs, i - 1); }
    CoalescePrefix(bs[..i], tail);
    assert bs[..i] + bs[i..] == bs;
  }

  ghost function FreedTail(bs: seq<Block>, i: nat, n: nat): seq<Block>
    requires i < |bs| && bs[i].size >= n
  {
    var p := Parts(bs[i], n);
    p[0 := p[0].(free := true)] + bs[i + 1..]
  }

  lemma FreedTailCoalesces(bs: seq<Block>, i: nat, n: nat)
    requires Clean(bs) && i < |bs| && bs[i].free && bs[i].size >= n
    ensures Coalesce(FreedTail(bs, i, n)) == bs[i..]
    ensures FreedTail(bs, i, n)[0].addr == bs[i].addr
  {
    var tail := FreedTail(bs, i, n);
    if Splits(bs[i], n) {
      assert Merge(tail[0], tail[1]) == bs[i];
      assert tail[2..] == bs[i + 1..];
      assert [bs[i]] + bs[i + 1..] == bs[i..];
    } else {
      assert tail == bs[i..];
    }
    CleanSuffix(bs, i);
    CoalesceIdentity(bs[i..]);
  }

  lemma CleanPrefix(bs: seq<Block>, i: nat)
    requires Clean(bs) && i <= |bs|
    ensures Clean(bs[..i])
  {
    forall j | 0 <= j < |bs[..i]| - 1 ensures Apart(bs[..i], j) {
      assert Apart(bs, j);
    }
  }

  lemma CleanSuffix(bs: seq<Block>, i: nat)
    requires Clean(bs) && i <= |bs|
    ensures Clean(bs[i..])
  {
    forall j | 0 <= j < |bs[i..]| - 1 ensures Apart(bs[i..], j) {
      assert Apart(bs, i + j);
    }
  }

  // ----- fragmentation -----

  ghost predicate Overlaps(b: Block, a: nat, e: nat) { b.addr < e && a < b.End() }

  /** [a, e) lies in [lo, hi) and meets no allocated block. */
  ghost predicate FreeExtent(bs: seq<Block>, lo: nat, hi: nat, a: nat, e: nat) {
    lo <= a < e <= hi && forall j :: 0 <= j < |bs| && !bs[j].free ==> !Overlaps(bs[j], a, e)
  }

  /** In a tiled and clean list a free extent lies inside a single free block. */
  lemma FreeExtentInOneBlock(bs: seq<Block>, lo: nat, hi: nat, a: nat, e: nat) returns (k: nat)
    requires Tiled(bs, lo, hi) && Clean(bs) && FreeExtent(bs, lo, hi, a, e)
    ensures k < |bs| && bs[k].free && bs[k].addr <= a && e <= bs[k].End()
  {
    TiledIsOrdered(bs, lo, hi);
    k := 0;
    while bs[k].End() <= a
      invariant k < |bs| && bs[k].addr <= a
      decreases |bs| - k
    {
      assert k < |bs| - 1;
      assert Touch(bs, k);
      k := k + 1;
    }
    assert Overlaps(bs[k], a, e);
    if k < |bs| - 1 {
      assert Apart(bs, k) && Touch(bs, k);
      assert !Overlaps(bs[k + 1], a, e);
    }
  }

  /** Some stretch of n payload bytes and a header is free of allocated blocks. */
  ghost predicate HasRoom(bs: seq<Block>, lo: nat, hi: nat, n: nat) {
    exists a: nat, e: nat :: FreeExtent(bs, lo, hi, a, e) && e - a >= HEADER + n
  }

  /** First fit fails exactly when no contiguous free extent could hold header and payload. */
  lemma FitIffRoom(bs: seq<Block>, lo: nat, hi: nat, n: nat)
    requires Tiled(bs, lo, hi) && Clean(bs)
    ensures FirstFit(bs, 0, n) < |bs| <==> HasRoom(bs, lo, hi, n)
  {
    TiledIsOrdered(bs, lo, hi);
    var k := FirstFit(bs, 0, n);
    if k < |bs| {
      var a, e := bs[k].addr, bs[k].End();
      forall j | 0 <= j < |bs| && !bs[j].free ensures !Overlaps(bs[j], a, e) {
        if j < k { assert Before(bs, j, k); } else { assert Before(bs, k, j); }
      }
      assert FreeExtent(bs, lo, hi, a, e);
    }
    if HasRoom(bs, lo, hi, n) {
      var a: nat, e: nat :| FreeExtent(bs, lo, hi, a, e) && e - a >= HEADER + n;
      var j := FreeExtentInOneBlock(bs, lo, hi, a, e);
      assert bs[j].size >= n;
    }
  }

  // ----- layout in memory -----

  /** The 32-bit address space: m[a] is the object stored at byte address a. A header keeps its
      size and next words at offsets 0 and 4 and the byte-sized free flag at offset 8; the three
      padding bytes after the flag are never written. */
  type Mem = seq<int>


  ghost predicate HeaderAt(m: Mem, b: Block, next: nat) {
    && b.addr + HEADER <= |m|
    && m[b.addr] == b.size
    && m[b.addr + 4] == next
    && m[b.addr + 8] == (if b.free then 1 else 0)
  }

  function NextOf(bs: seq<Block>, i: nat): nat {
    if i + 1 < |bs| then bs[i + 1].addr else 0
  }

  /** The memory holds the list: every header is in place and links to the next one. */
  ghost predicate Linked(m: Mem, bs: seq<Block>) {
    forall i {:trigger LinkAt(m, bs, i)} :: 0 <= i < |bs| ==> LinkAt(m, bs, i)
  }

  ghost predicate LinkAt(m: Mem, bs: seq<Block>, i: int)
    requires 0 <= i < |bs|
  {
    HeaderAt(m, bs[i], NextOf(bs, i))
  }

  lemma LinkedAt(m: Mem, bs: seq<Block>, i: nat)
    requires Linked(m, bs) && i < |bs|
    ensures HeaderAt(m, bs[i], NextOf(bs, i))
  {
    assert LinkAt(m, bs, i);
  }

  /** If the block is allocated, its payload words are the same in both memories. */
  ghost predicate PayloadKept(m: Mem, m': Mem, b: Block)
    requires |m| == |m'|
  {
    !b.free ==> forall a :: b.addr + HEADER <= a < b.End() && a < |m| ==> m'[a] == m[a]
  }

  ghost predicate PayloadsKept(m: Mem, m': Mem, bs: seq<Block>)
    requires |m| == |m'|
  {
    forall i {:trigger KeptAt(m, m', bs, i)} :: 0 <= i < |bs| ==> KeptAt(m, m', bs, i)
  }

  ghost predicate KeptAt(m: Mem, m': Mem, bs: seq<Block>, i: int)
    requires |m| == |m'| && 0 <= i < |bs|
  {
    PayloadKept(m, m', bs[i])
  }

  lemma KeptRefl(m: Mem, bs: seq<Block>)
    ensures PayloadsKept(m, m, bs)
  {
  }

  lemma KeptTrans(m0: Mem, m1: Mem, m2: Mem, bs1: seq<Block>, bs2: seq<Block>)
    requires |m0| == |m1| == |m2|
    requires PayloadsKept(m0, m1, bs1) && PayloadsKept(m1, m2, bs2)
    requires forall k :: 0 <= k < |bs2| && !bs2[k].free ==> bs2[k] in bs1
    ensures PayloadsKept(m0, m2, bs2)
  {
    forall k | 0 <= k < |bs2| ensures KeptAt(m0, m2, bs2, k) {
      if !bs2[k].free {
        var j :| 0 <= j < |bs1| && bs1[j] == bs2[k];
        assert KeptAt(m0, m1, bs1, j) && KeptAt(m1, m2, bs2, k);
      }
    }
  }

  /** The memories agree outside [lo, hi). */
  ghost predicate SameOutside(m: Mem, m': Mem, lo: nat, hi: nat) {
    |m| == |m'| && forall a :: 0 <= a < |m| && !(lo <= a < hi) ==> m'[a] == m[a]
  }

  lemma SameOutsideTrans(m0: Mem, m1: Mem, m2: Mem, lo: nat, hi: nat, lo': nat, hi': nat)
    requires SameOutside(m0, m1, lo, hi) && SameOutside(m1, m2, lo', hi') && lo <= lo' && hi' <= hi
    ensures SameOutside(m0, m2, lo, hi)
  {
  }

  function PartNext(mid: seq<Block>, k: nat, next: nat): nat {
    if k + 1 < |mid| then mid[k + 1].addr else next
  }

  ghost predicate PartAt(m: Mem, mid: seq<Block>, k: int, next: nat)
    requires 0 <= k < |mid|
  {
    HeaderAt(m, mid[k], PartNext(mid, k, next))
  }

  /** The headers of mid are in place, the last one linking to next. */
  ghost predicate PartLinked(m: Mem, mid: seq<Block>, next: nat) {
    forall k {:trigger PartAt(m, mid, k, next)} :: 0 <= k < |mid| ==> PartAt(m, mid, k, next)
  }

  /** Rewriting one stretch of the list and only its own words keeps the layout. */
  lemma SpliceLinked(m: Mem, m': Mem, bs: seq<Block>, i: nat, j: nat, mid: seq<Block>)
    requires Linked(m, bs) && Ordered(bs) && i < j <= |bs|
    requires |mid| > 0 && mid[0].addr == bs[i].addr
    requires PartLinked(m', mid, NextOf(bs, j - 1))
    requires SameOutside(m, m', bs[i].addr, bs[j - 1].End())
    ensures Linked(m', Splice(bs, i, j, mid))
  {
    forall k | 0 <= k < |Splice(bs, i, j, mid)|
      ensures LinkAt(m', Splice(bs, i, j, mid), k)
    {
      SpliceHeader(m, m', bs, i, j, mid, k);
    }
  }

  lemma SpliceNext(bs: seq<Block>, i: nat, j: nat, mid: seq<Block>, k: nat)
    requires i < j <= |bs| && k < |Splice(bs, i, j, mid)|
    requires |mid| > 0 && mid[0].addr == bs[i].addr
    ensures NextOf(Splice(bs, i, j, mid), k)
         == (if k < i then NextOf(bs, k)
             else if k < i + |mid| - 1 then mid[k - i + 1].addr
             else NextOf(bs, k - |mid| + j - i))
  {
    SpliceAt(bs, i, j, mid, k);
    if k + 1 < |Splice(bs, i, j, mid)| { SpliceAt(bs, i, j, mid, k + 1); }
  }

  lemma SpliceHeader(m: Mem, m': Mem, bs: seq<Block>, i: nat, j: nat, mid: seq<Block>, k: nat)
    requires Linked(m, bs) && Ordered(bs) && i < j <= |bs|
    requires |mid| > 0 && mid[0].addr == bs[i].addr
    requires PartLinked(m', mid, NextOf(bs, j - 1))
    requires SameOutside(m, m', bs[i].addr, bs[j - 1].End())
    requires k < |Splice(bs, i, j, mid)|
    ensures HeaderAt(m', Splice(bs, i, j, mid)[k], NextOf(Splice(bs, i, j, mid), k))
  {
    SpliceAt(bs, i, j, mid, k);
    SpliceNext(bs, i, j, mid, k);
    if i <= k < i + |mid| { assert PartAt(m', mid, k - i, NextOf(bs, j - 1)); }
    if k < i {
      LinkedAt(m, bs, k);
      assert Before(bs, k, i);
    } else if k >= i + |mid| {
      var k0 := k - |mid| + j - i;
      LinkedAt(m, bs, k0);
      assert Before(bs, j - 1, k0);
    }
  }

  lemma KeptOutside(m: Mem, m': Mem, lo: nat, hi: nat, b: Block)
    requires SameOutside(m, m', lo, hi) && (b.End() <= lo || hi <= b.addr)
    ensures PayloadKept(m, m', b)
  {
  }

  lemma SplicePayloads(m: Mem, m': Mem, bs: seq<Block>, i: nat, j: nat, mid: seq<Block>)
    requires Ordered(bs) && i < j <= |bs|
    requires SameOutside(m, m', bs[i].addr, bs[j - 1].End())
    requires PayloadsKept(m, m', mid)
    ensures PayloadsKept(m, m', Splice(bs, i, j, mid))
  {
    forall k | 0 <= k < |Splice(bs, i, j, mid)| ensures KeptAt(m, m', Splice(bs, i, j, mid), k) {
      SpliceAt(bs, i, j, mid, k);
      if k < i {
        assert Before(bs, k, i);
        KeptOutside(m, m', bs[i].addr, bs[j - 1].End(), bs[k]);
      } else if k >= i + |mid| {
        assert Before(bs, j - 1, k - |mid| + j - i);
        KeptOutside(m, m', bs[i].addr, bs[j - 1].End(), bs[k - |mid| + j - i]);
      } else {
        assert KeptAt(m, m', mid, k - i);
      }
    }
  }

  /** The header writes of a taken block b whose successor is next. */
  function TakeMem(m: Mem, b: Block, n: nat, next: nat): Mem
    requires b.size >= n && b.End() <= |m|
  {
    if Splits(b, n) then
      var nb := b.addr + HEADER + n;
      m[nb := b.size - n - HEADER][nb + 4 := next][nb + 8 := 1]
       [b.addr := n][b.addr + 4 := nb][b.addr + 8 := 0]
    else
      m[b.addr + 8 := 0]
  }

  lemma TakePart(m: Mem, b: Block, n: nat, next: nat)
    requires HeaderAt(m, b, next) && b.End() <= |m| && b.free && b.size >= n
    ensures PartLinked(TakeMem(m, b, n, next), Parts(b, n), next)
    ensures SameOutside(m, TakeMem(m, b, n, next), b.addr, b.End())
    ensures PayloadsKept(m, TakeMem(m, b, n, next), Parts(b, n))
  {
    var m' := TakeMem(m, b, n, next);
    assert HeaderAt(m', Parts(b, n)[0], PartNext(Parts(b, n), 0, next));
    if Splits(b, n) {
      assert HeaderAt(m', Parts(b, n)[1], next);
    }
  }

  /** Taking a block rewrites only its own headers: the list in memory is the one TakeAt describes. */
  lemma TakeLinked(m: Mem, bs: seq<Block>, i: nat, n: nat)
    requires Linked(m, bs) && Ordered(bs)
    requires i < |bs| && bs[i].free && bs[i].size >= n && bs[i].End() <= |m|
    ensures Linked(TakeMem(m, bs[i], n, NextOf(bs, i)), TakeAt(bs, i, n))
    ensures PayloadsKept(m, TakeMem(m, bs[i], n, NextOf(bs, i)), TakeAt(bs, i, n))
    ensures SameOutside(m, TakeMem(m, bs[i], n, NextOf(bs, i)), bs[i].addr, bs[i].End())
  {
    LinkedAt(m, bs, i);
    TakePart(m, bs[i], n, NextOf(bs, i));
    var m' := TakeMem(m, bs[i], n, NextOf(bs, i));
    SpliceLinked(m, m', bs, i, i + 1, Parts(bs[i], n));
    SplicePayloads(m, m', bs, i, i + 1, Parts(bs[i], n));
  }

  function MarkMem(m: Mem, b: Block): Mem
    requires b.End() <= |m|
  {
    m[b.addr + 8 := 1]
  }

  lemma SingleLinked(m: Mem, b: Block, next: nat)
    requires HeaderAt(m, b, next)
    ensures PartLinked(m, [b], next)
  {
  }

  /** Setting the free flag of block i. */
  lemma MarkLinked(m: Mem, bs: seq<Block>, i: nat)
    requires Linked(m, bs) && Ordered(bs) && i < |bs| && bs[i].End() <= |m|
    ensures Linked(MarkMem(m, bs[i]), MarkAt(bs, i)) && Ordered(MarkAt(bs, i))
    ensures PayloadsKept(m, MarkMem(m, bs[i]), MarkAt(bs, i))
    ensures SameOutside(m, MarkMem(m, bs[i]), bs[i].addr, bs[i].End())
  {
    LinkedAt(m, bs, i);
    var m' := MarkMem(m, bs[i]);
    var b := bs[i].(free := true);
    SingleLinked(m', b, NextOf(bs, i));
    UpdateIsSplice(bs, i, b);
    SpliceLinked(m, m', bs, i, i + 1, [b]);
    SplicePayloads(m, m', bs, i, i + 1, [b]);
    SpliceOrdered(bs, i, i + 1, [b]);
  }

  function MergeAt(bs: seq<Block>, i: nat): seq<Block>
    requires i + 1 < |bs|
  {
    Splice(bs, i, i + 2, [Merge(bs[i], bs[i + 1])])
  }

  lemma MergeLiveMembers(bs: seq<Block>, i: nat, k: nat)
    requires i + 1 < |bs| && k < |MergeAt(bs, i)| && !MergeAt(bs, i)[k].free
    ensures MergeAt(bs, i)[k] in bs
  {
    SpliceAt(bs, i, i + 2, [Merge(bs[i], bs[i + 1])], k);
  }

  /** The two header writes that merge b into a; next follows b. */
  function MergeMem(m: Mem, a: Block, b: Block, next: nat): Mem
    requires a.addr + HEADER <= |m|
  {
    m[a.addr := a.size + HEADER + b.size][a.addr + 4 := next]
  }

  lemma MergeLinked(m: Mem, bs: seq<Block>, i: nat)
    requires Linked(m, bs) && Ordered(bs)
    requires i + 1 < |bs| && Mergeable(bs[i], bs[i + 1])
    ensures bs[i].addr + HEADER <= |m|
    ensures var m' := MergeMem(m, bs[i], bs[i + 1], NextOf(bs, i + 1)); var t := MergeAt(bs, i);
            Linked(m', t) && Ordered(t) && SameOutside(m, m', bs[i].addr, bs[i + 1].End()) && PayloadsKept(m, m', t)
  {
    LinkedAt(m, bs, i);
    var next := NextOf(bs, i + 1);
    var m' := MergeMem(m, bs[i], bs[i + 1], next);
    var b := Merge(bs[i], bs[i + 1]);
    SingleLinked(m', b, next);
    SpliceLinked(m, m', bs, i, i + 2, [b]);
    SplicePayloads(m, m', bs, i, i + 2, [b]);
    SpliceOrdered(bs, i, i + 2, [b]);
  }

  lemma MergeIsStep(bs: seq<Block>, i: nat)
    requires i + 1 < |bs| && Mergeable(bs[i], bs[i + 1])
    ensures i < |MergeAt(bs, i)| && MergeAt(bs, i)[..i] == bs[..i] && MergeAt(bs, i)[i].addr == bs[i].addr
    ensures Coalesce(bs[i..]) == Coalesce(MergeAt(bs, i)[i..])
  {
    assert bs[i..][2..] == bs[i + 2..];
    assert MergeAt(bs, i)[i..] == [Merge(bs[i], bs[i + 1])] + bs[i + 2..];
  }

  // ----- the merge loop -----

  /** State of the merge loop at block i: m0 and bs0 are what it started from. */
  ghost predicate PassInv(m0: Mem, m: Mem, bs0: seq<Block>, bs: seq<Block>, i: nat, lo: nat, hi: nat) {
    && i < |bs| && hi <= |m|
    && Linked(m, bs) && Ordered(bs) && Within(bs, lo, hi)
    && Coalesce(bs0) == bs[..i] + Coalesce(bs[i..])
    && SameOutside(m0, m, lo, hi) && PayloadsKept(m0, m, bs)
  }

  lemma PassStart(m: Mem, bs: seq<Block>, lo: nat, hi: nat)
    requires |bs| > 0 && hi <= |m| && Linked(m, bs) && Ordered(bs) && Within(bs, lo, hi)
    ensures PassInv(m, m, bs, bs, 0, lo, hi)
  {
    assert bs[0..] == bs;
  }

  lemma PassMerge(m0: Mem, m: Mem, bs0: seq<Block>, bs: seq<Block>, i: nat, lo: nat, hi: nat)
    requires PassInv(m0, m, bs0, bs, i, lo, hi) && i + 1 < |bs| && Mergeable(bs[i], bs[i + 1])
    ensures bs[i].addr + HEADER <= |m|
    ensures PassInv(m0, MergeMem(m, bs[i], bs[i + 1], NextOf(bs, i + 1)), bs0, MergeAt(bs, i), i, lo, hi)
    ensures MergeAt(bs, i)[i].addr == bs[i].addr
  {
    MergeLinked(m, bs, i);
    MergeIsStep(bs, i);
    var m' := MergeMem(m, bs[i], bs[i + 1], NextOf(bs, i + 1));
    var t := MergeAt(bs, i);
    forall k | 0 <= k < |t| && !t[k].free ensures t[k] in bs {
      MergeLiveMembers(bs, i, k);
    }
    KeptTrans(m0, m, m', bs, t);
    SameOutsideTrans(m0, m, m', lo, hi, bs[i].addr, bs[i + 1].End());
    MergeWithin(bs, i, lo, hi);
  }

  lemma MergeWithin(bs: seq<Block>, i: nat, lo: nat, hi: nat)
    requires i + 1 < |bs| && Mergeable(bs[i], bs[i + 1]) && Within(bs, lo, hi)
    ensures Within(MergeAt(bs, i), lo, hi)
  {
    forall k | 0 <= k < |MergeAt(bs, i)| ensures lo <= MergeAt(bs, i)[k].addr && MergeAt(bs, i)[k].End() <= hi {
      SpliceAt(bs, i, i + 2, [Merge(bs[i], bs[i + 1])], k);
    }
  }

  lemma PassSkip(m0: Mem, m: Mem, bs0: seq<Block>, bs: seq<Block>, i: nat, lo: nat, hi: nat)
    requires PassInv(m0, m, bs0, bs, i, lo, hi) && i + 1 < |bs| && !Mergeable(bs[i], bs[i + 1])
    ensures PassInv(m0, m, bs0, bs, i + 1, lo, hi)
  {
    assert bs[i..][1..] == bs[i + 1..];
    assert bs[..i] + [bs[i]] == bs[..i + 1];
  }

  lemma PassDone(m0: Mem, m: Mem, bs0: seq<Block>, bs: seq<Block>, i: nat, lo: nat, hi: nat)
    requires PassInv(m0, m, bs0, bs, i, lo, hi) && i + 1 == |bs|
    ensures bs == Coalesce(bs0)
  {
    assert bs[..i] + bs[i..] == bs;
  }

  // ----- the walks over the list, as both allocators perform them -----

  /** What a walk needs: the list is in memory, ordered, and inside [lo, hi); first is its head. */
  ghost predicate InMemory(m: Mem, first: int, bs: seq<Block>, lo: nat, hi: nat) {
    && 8 <= lo && hi <= |m| == WORD
    && Linked(m, bs) && Ordered(bs) && Within(bs, lo, hi)
    && first == (if |bs| > 0 then bs[0].addr else 0)
  }

  /** The 32-bit value of a sum of two 32-bit numbers. */
  function Wrap(x: nat): nat { if x < WORD then x else x - WORD }

  /** First fit: walk to the first free block that is large enough, and take it. */
  method Allocate(m: Mem, first: int, n: nat, ghost bs: seq<Block>, ghost lo: nat, ghost hi: nat)
    returns (m': Mem, ptr: int, ghost bs': seq<Block>)
    requires InMemory(m, first, bs, lo, hi)
    ensures InMemory(m', first, bs', lo, hi)
    ensures var i := FirstFit(bs, 0, n);
            if i == |bs| then ptr == 0 && bs' == bs && m' == m else ptr == bs[i].addr + HEADER && bs' == TakeAt(bs, i, n)
    ensures SameOutside(m, m', lo, hi) && PayloadsKept(m, m', bs')
  {
    var curr := first;
    ghost var i := 0;
    while curr != 0
      invariant i <= |bs| && curr == (if i < |bs| then bs[i].addr else 0)
      invariant FirstFit(bs, 0, n) == FirstFit(bs, i, n)
      decreases |bs| - i
    {
      LinkedAt(m, bs, i);
      if m[curr + 8] != 0 && m[curr] >= n {
        m' := TakeBlock(m, curr, n, bs, i, lo, hi);
        TakenFirst(bs, i, n);
        return m', curr + HEADER, TakeAt(bs, i, n);
      }
      curr := m[curr + 4];
      i := i + 1;
    }
    KeptRefl(m, bs);
    return m, 0, bs;
  }

  lemma TakenFirst(bs: seq<Block>, i: nat, n: nat)
    requires i < |bs| && bs[i].size >= n
    ensures |TakeAt(bs, i, n)| > 0 && TakeAt(bs, i, n)[0].addr == bs[0].addr
  {
    SpliceAt(bs, i, i + 1, Parts(bs[i], n), 0);
  }

  lemma TakenWithin(bs: seq<Block>, i: nat, n: nat, lo: nat, hi: nat)
    requires i < |bs| && bs[i].size >= n && Within(bs, lo, hi)
    ensures Within(TakeAt(bs, i, n), lo, hi)
  {
    forall k | 0 <= k < |TakeAt(bs, i, n)| ensures lo <= TakeAt(bs, i, n)[k].addr && TakeAt(bs, i, n)[k].End() <= hi {
      SpliceAt(bs, i, i + 1, Parts(bs[i], n), k);
    }
  }

  /** The success branch: split off the rest if it is large enough, then mark the block taken. */
  method TakeBlock(m: Mem, curr: int, n: nat, ghost bs: seq<Block>, ghost i: nat, ghost lo: nat, ghost hi: nat) returns (m': Mem)
    requires 8 <= lo && hi <= |m| == WORD && Linked(m, bs) && Ordered(bs) && Within(bs, lo, hi)
    requires i < |bs| && curr == bs[i].addr && bs[i].free && bs[i].size >= n
    ensures |m'| == |m| && Linked(m', TakeAt(bs, i, n)) && Ordered(TakeAt(bs, i, n)) && Within(TakeAt(bs, i, n), lo, hi)
    ensures SameOutside(m, m', lo, hi) && PayloadsKept(m, m', TakeAt(bs, i, n))
  {
    LinkedAt(m, bs, i);
    TakeLinked(m, bs, i, n);
    TakeKeepsOrder(bs, i, n);
    TakenWithin(bs, i, n, lo, hi);
    SameOutsideTrans(m, m, TakeMem(m, bs[i], n, NextOf(bs, i)), lo, hi, bs[i].addr, bs[i].End());
    m' := m;
    if m[curr] >= Wrap(n + HEADER + 4) {
      var oldNext := m[curr + 4];
      var newBlock := curr + HEADER + n;
      m' := m'[newBlock := m[curr] - n - HEADER][newBlock + 4 := oldNext][newBlock + 8 := 1];
      m' := m'[curr := n][curr + 4 := newBlock];
    }
    m' := m'[curr + 8 := 0];
  }

  /** Mark the block free, then run the merge loop from the head of the list. */
  method Release(m: Mem, first: int, block: int, ghost bs: seq<Block>, ghost at: nat, ghost lo: nat, ghost hi: nat)
    returns (m': Mem, ghost bs': seq<Block>)
    requires InMemory(m, first, bs, lo, hi) && at < |bs| && block == bs[at].addr
    ensures InMemory(m', first, bs', lo, hi)
    ensures bs' == Coalesce(MarkAt(bs, at))
    ensures SameOutside(m, m', lo, hi) && PayloadsKept(m, m', bs')
  {
    MarkLinked(m, bs, at);
    SameOutsideTrans(m, m, MarkMem(m, bs[at]), lo, hi, bs[at].addr, bs[at].End());
    var m1 := m[block + 8 := 1];
    ghost var marked := MarkAt(bs, at);
    m', bs' := MergePass(m1, first, marked, lo, hi);
    forall k | 0 <= k < |bs'| && !bs'[k].free ensures bs'[k] in marked {
      CoalesceLiveMembers(marked, bs'[k]);
    }
    KeptTrans(m, m1, m', marked, bs');
    SameOutsideTrans(m, m1, m', lo, hi, lo, hi);
  }

  /** The merge loop: stay on a block while it absorbs its successor, otherwise move on. */
  method MergePass(m: Mem, first: int, ghost bs: seq<Block>, ghost lo: nat, ghost hi: nat)
    returns (m': Mem, ghost bs': seq<Block>)
    requires InMemory(m, first, bs, lo, hi) && |bs| > 0
    ensures InMemory(m', first, bs', lo, hi)
    ensures bs' == Coalesce(bs)
    ensures SameOutside(m, m', lo, hi) && PayloadsKept(m, m', bs')
  {
    PassStart(m, bs, lo, hi);
    LinkedAt(m, bs, 0);
    var curr := first;
    m', bs' := m, bs;
    ghost var i := 0;
    while curr != 0 && m'[curr + 4] != 0
      invariant PassInv(m, m', bs, bs', i, lo, hi)
      invariant |m'| == WORD && curr == bs'[i].addr && curr + HEADER <= WORD
      decreases |bs'| - i
    {
      LinkedAt(m', bs', i);
      var next := m'[curr + 4];
      LinkedAt(m', bs', i + 1);
      if m'[curr + 8] != 0 && m'[next + 8] != 0 && curr + HEADER + m'[curr] == next {
        PassMerge(m, m', bs, bs', i, lo, hi);
        bs' := MergeAt(bs', i);
        m' := m'[curr := m'[curr] + HEADER + m'[next]];
        m' := m'[curr + 4 := m'[next + 4]];
      } else {
        PassSkip(m, m', bs, bs', i, lo, hi);
        curr := next;
        i := i + 1;
      }
    }
    LinkedAt(m', bs', i);
    PassDone(m, m', bs, bs', i, lo, hi);
  }
}
