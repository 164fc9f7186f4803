/** User memory: loading a program image and moving the program break. */
module UserSpace {
  import opened Bits
  import opened PageTables
  import opened Paging

  const STACK_TOP: nat := 0xBFFF_F000
  const STACK_SIZE: nat := 0x4000
  const HEAP_MAX: nat := STACK_TOP - STACK_SIZE - 0x1000
  const RW: nat := 7
  const RO: nat := 5

  // ----- what a user address reads -----

  /** The byte at a mapped address. */
  function Byte(m: seq<Bytes>, d: nat, va: nat): int
    requires d < |m| && |m[d]| == PAGE && va < WORD
  {
    var f := Target(Pte(m, d, va));
    if InMem(m, f) && |m[f]| == PAGE then m[f][va % PAGE] else 0
  }

  lemma UserIndex(va: nat)
    requires va < KERNEL_BASE
    ensures Pdx(va) < KERNEL_PDE && PageOf(va) < 0xC_0000
  {
  }

  /** Different pages of an address space are different frames. */
  lemma OwnFrame(m: seq<Bytes>, owner: seq<Owner>, kdir: int, d: nat, va: nat, f: int)
    requires Owned(m, owner, kdir) && d < |m| && owner[d] == Dir && va < KERNEL_BASE && Mapped(m, d, va)
    ensures InMem(m, Target(Pte(m, d, va))) && owner[Target(Pte(m, d, va))] == Page(d, Pdx(va), Ptx(va))
    ensures forall vb: nat {:trigger Pte(m, d, vb)} :: vb < KERNEL_BASE && Mapped(m, d, vb) && Target(Pte(m, d, vb)) == Target(Pte(m, d, va)) ==> PageOf(vb) == PageOf(va)
  {
    UserIndex(va);
    Indices(va);
    MappedOwner(m, owner, kdir, d, va);
    forall vb: nat | vb < KERNEL_BASE && Mapped(m, d, vb) && Target(Pte(m, d, vb)) == Target(Pte(m, d, va)) ensures PageOf(vb) == PageOf(va) {
      UserIndex(vb);
      Indices(vb);
      MappedOwner(m, owner, kdir, d, vb);
    }
  }

  // ----- one page -----

  /** The page at va, and only it, now has entry v and contents b; the user bit of its table is set. */
  ghost predicate PageIs(m: seq<Bytes>, m': seq<Bytes>, d: nat, va: nat, v: int, b: Bytes)
    requires d < |m| && |m'| == |m| && |m[d]| == |m'[d]| == PAGE
  {
    && va < KERNEL_BASE && |b| == PAGE
    && Present(v) && (forall u: nat {:trigger Pte(m', d, u)} :: u < KERNEL_BASE ==> Pte(m', d, u) == if PageOf(u) == PageOf(va) then v else Pte(m, d, u))
    && (forall u: nat {:trigger Byte(m', d, u)} :: u < KERNEL_BASE && PageOf(u) == PageOf(va) ==> Byte(m', d, u) == b[u % PAGE])
    && (forall u: nat {:trigger Byte(m', d, u)} :: u < KERNEL_BASE && PageOf(u) != PageOf(va) && Mapped(m, d, u) ==> Byte(m', d, u) == Byte(m, d, u))
  }

  /** Directory entries only gain the user bit. */
  ghost predicate DirMonotone(m: seq<Bytes>, m': seq<Bytes>, d: nat)
    requires d < |m| && |m'| == |m| && |m[d]| == |m'[d]| == PAGE
  {
    forall k {:trigger Word(m'[d], k)} :: 0 <= k < ENTRIES && Present(Word(m[d], k)) ==> Present(Word(m'[d], k)) && (User(Word(m[d], k)) ==> User(Word(m'[d], k)))
  }

  /** The state a page load works on. */
  ghost predicate Ready(mach: Machine, d: nat)
    reads mach, mach.pmm.bitmap
  {
    mach.Valid() && d < |mach.mem| && mach.owner[d] == Dir && Settled(mach.owner)
  }

  lemma SamePagePte(m: seq<Bytes>, d: nat, va: nat, u: nat)
    requires d < |m| && |m[d]| == PAGE && va < WORD && u < WORD && PageOf(u) == PageOf(va)
    ensures Pte(m, d, u) == Pte(m, d, va)
  {
    Indices(va);
    Indices(u);
  }

  /** Giving the page at va the frame f with contents b. */
  lemma PageWritten(m0: seq<Bytes>, o0: seq<Owner>, m1: seq<Bytes>, o1: seq<Owner>, kdir: int, d: nat, va: nat, v: int, f: int, b: Bytes)
    requires Owned(m0, o0, kdir) && Owned(m1, o1, kdir) && |m1| == |m0| && d < |m0| && o0[d] == Dir && o1[d] == Dir
    requires va < KERNEL_BASE && OnePage(m0, m1, o0, kdir, d, va, v) && DataKept(m0, o0, m1, d)
    requires Present(v) && Target(v) == f && InMem(m1, f) && o1[f] == Page(d, Pdx(va), Ptx(va)) && |b| == PAGE
    ensures Owned(m1[f := b], o1, kdir) && PageIs(m0, m1[f := b], d, va, v, b)
  {
    var m2 := m1[f := b];
    DataWritten(m1, o1, kdir, f, b);
    forall u: nat | u < KERNEL_BASE ensures Pte(m2, d, u) == if PageOf(u) == PageOf(va) then v else Pte(m0, d, u) {
      PteAfterData(m1, o1, kdir, f, b, d, u);
      assert Pte(m1, d, u) == if PageOf(u) == PageOf(va) then v else Pte(m0, d, u);
    }
    forall u: nat | u < KERNEL_BASE && PageOf(u) != PageOf(va) && Mapped(m0, d, u) ensures Byte(m2, d, u) == Byte(m0, d, u) {
      assert Pte(m1, d, u) == Pte(m0, d, u);
      OwnFrame(m0, o0, kdir, d, u, f);
      OwnFrame(m1, o1, kdir, d, u, f);
      Indices(u);
      Indices(va);
    }
  }

  /** Every page of the user part is open to the user. */
  ghost predicate AllUser(m: seq<Bytes>, d: nat)
    requires d < |m| && |m[d]| == PAGE
  {
    forall va: nat {:trigger Pte(m, d, va)} :: va < KERNEL_BASE && Mapped(m, d, va) ==> UserPage(m, d, va, false)
  }

  /** The page at va has frame f, the entry v and the contents b; what belongs to others is untouched. */
  ghost predicate Provided(m: seq<Bytes>, o: seq<Owner>, m': seq<Bytes>, o': seq<Owner>, d: nat, va: nat, v: int, f: nat, b: Bytes)
    requires d < |m| == |o| && |m'| == |m| && |m[d]| == |m'[d]| == PAGE
  {
    && va < KERNEL_BASE && f < |o'| && o'[f] == Page(d, Pdx(va), Ptx(va)) && Present(v) && Target(v) == f && |b| == PAGE
    && PageIs(m, m', d, va, v, b) && OnlySpace(o, o', d) && Untouched(m, o, m', d) && DirMonotone(m, m', d)
    && Pdx(va) < ENTRIES && Present(Word(m'[d], Pdx(va))) && User(Word(m'[d], Pdx(va)))
  }

  /** A page that is there and stays as it is. */
  lemma KeepPage(m: seq<Bytes>, o: seq<Owner>, kdir: int, d: nat, va: nat)
    requires Owned(m, o, kdir) && d < |m| && o[d] == Dir && va < KERNEL_BASE && Mapped(m, d, va) && AllUser(m, d)
    ensures InMem(m, Target(Pte(m, d, va)))
    ensures Provided(m, o, m, o, d, va, Pte(m, d, va), Target(Pte(m, d, va)), m[Target(Pte(m, d, va))])
  {
    UserIndex(va);
    Indices(va);
    var f := Target(Pte(m, d, va));
    OwnFrame(m, o, kdir, d, va, f);
    assert UserPage(m, d, va, false);
    forall u: nat | u < KERNEL_BASE && PageOf(u) == PageOf(va) ensures Pte(m, d, u) == Pte(m, d, va) && Byte(m, d, u) == m[f][u % PAGE] {
      SamePagePte(m, d, va, u);
    }
  }

  /** What paging_map_page did, followed by giving the frame its contents. */
  lemma MappedPage(m0: seq<Bytes>, o0: seq<Owner>, m1: seq<Bytes>, o1: seq<Owner>, kdir: int, d: nat, va: nat, f: nat, flags: nat, b: Bytes)
    requires Owned(m0, o0, kdir) && Owned(m1, o1, kdir) && |m1| == |m0| && d < |m0| && o0[d] == Dir && va < KERNEL_BASE && User(flags)
    requires f < |m0| && OnePage(m0, m1, o0, kdir, d, va, Entry(f, flags)) && DataKept(m0, o0, m1, d)
    requires Pdx(va) < ENTRIES && DirGrown(m0, m1, d, Pdx(va), true) && PageGained(o0, o1, d, Pdx(va), Ptx(va), f)
    requires (o0[f] == Pending || o0[f] == Page(d, Pdx(va), Ptx(va))) && |b| == PAGE
    ensures Owned(m1[f := b], o1, kdir) && Provided(m0, o0, m1[f := b], o1, d, va, Entry(f, flags), f, b)
  {
    PageWritten(m0, o0, m1, o1, kdir, d, va, Entry(f, flags), f, b);
  }

  /** The part of the loop body of map_and_copy that provides the page: the frame it has, made writable
      if asked, or a new frame cleared to zero. */
  method ProvidePage(mach: Machine, pd: nat, va: nat, flags: nat) returns (panic: bool, frame: nat)
    requires Ready(mach, pd / PAGE) && AllUser(mach.mem, pd / PAGE) && va < KERNEL_BASE && User(flags)
    modifies mach`mem, mach`owner, mach.pmm.bitmap
    ensures mach.Valid()
    ensures !panic ==> Ready(mach, pd / PAGE) && frame / PAGE < |mach.mem|
    ensures !panic ==> Provided(old(mach.mem), old(mach.owner), mach.mem, mach.owner, pd / PAGE, va,
                                NewEntry(old(mach.mem), pd / PAGE, va, frame / PAGE, flags), frame / PAGE, OldPage(old(mach.mem), pd / PAGE, va))
    ensures panic ==> NoneFree(mach.owner)
  {
    hide Provided, OnePage, DataKept, DirGrown;
    panic, frame := false, 0;
    UserIndex(va);
    ghost var m0, o0 := mach.mem, mach.owner;
    var d := pd / PAGE;
    var r;
    var found, pa := mach.Walk(pd, va);
    if found {
      OwnFrame(m0, o0, mach.kdir, d, va, 0);
      KeepPage(m0, o0, mach.kdir, d, va);
      PageAddress(Target(Pte(m0, d, va)), va % PAGE);
      frame := pa / PAGE * PAGE;
      if Writable(flags) {
        panic, r := mach.MapPage(pd, va, frame, flags);
        if !panic {
          Upgraded(m0, o0, mach.mem, mach.owner, mach.kdir, d, va, frame / PAGE, flags);
        }
      }
      return;
    }
    panic, frame := FreshPage(mach, pd, va, flags);
  }

  /** A page that is not there gets a frame of its own, cleared to zero. */
  method FreshPage(mach: Machine, pd: nat, va: nat, flags: nat) returns (panic: bool, frame: nat)
    requires Ready(mach, pd / PAGE) && va < KERNEL_BASE && User(flags) && !Mapped(mach.mem, pd / PAGE, va)
    modifies mach`mem, mach`owner, mach.pmm.bitmap
    ensures mach.Valid()
    ensures !panic ==> Ready(mach, pd / PAGE) && frame / PAGE < |mach.mem| && frame % PAGE == 0
    ensures !panic ==> Provided(old(mach.mem), old(mach.owner), mach.mem, mach.owner, pd / PAGE, va, Entry(frame / PAGE, flags), frame / PAGE, Zeros(PAGE))
    ensures panic ==> NoneFree(mach.owner)
  {
    hide Provided, OnePage, DataKept, DirGrown;
    UserIndex(va);
    ghost var m0, o0 := mach.mem, mach.owner;
    var d := pd / PAGE;
    var r;
    panic, frame := mach.AllocFrame();
    if panic {
      return;
    }
    ghost var o1 := mach.owner;
    panic, r := mach.MapPage(pd, va, frame, flags);
    if panic {
      return;
    }
    HandOver(m0, o0, o1, mach.mem, mach.owner, mach.kdir, d, va, frame / PAGE, flags);
    mach.mem := mach.mem[frame / PAGE := Zeros(PAGE)];
  }

  /** Mapping a page to the frame it has keeps its bytes. */
  lemma Upgraded(m0: seq<Bytes>, o0: seq<Owner>, m1: seq<Bytes>, o1: seq<Owner>, kdir: int, d: nat, va: nat, f: nat, flags: nat)
    requires Owned(m0, o0, kdir) && Owned(m1, o1, kdir) && |m1| == |m0| && d < |m0| && o0[d] == Dir && va < KERNEL_BASE && User(flags)
    requires f < |m0| && OnePage(m0, m1, o0, kdir, d, va, Entry(f, flags)) && DataKept(m0, o0, m1, d)
    requires Pdx(va) < ENTRIES && DirGrown(m0, m1, d, Pdx(va), true) && PageGained(o0, o1, d, Pdx(va), Ptx(va), f)
    requires o0[f] == Page(d, Pdx(va), Ptx(va))
    ensures Provided(m0, o0, m1, o1, d, va, Entry(f, flags), f, m0[f])
  {
    MappedPage(m0, o0, m1, o1, kdir, d, va, f, flags, m0[f]);
    assert m1[f := m0[f]] == m1;
  }

  lemma PageAddress(f: int, off: nat)
    requires f >= 0 && off < PAGE
    ensures (f * PAGE + off) / PAGE == f
  {
  }

  /** The new page, seen from before its frame was taken. */
  lemma HandOver(m0: seq<Bytes>, o0: seq<Owner>, o1: seq<Owner>, m: seq<Bytes>, o: seq<Owner>, kdir: int, d: nat, va: nat, f: nat, flags: nat)
    requires Owned(m0, o0, kdir) && Owned(m, o, kdir) && |m| == |m0| && d < |m0| && o0[d] == Dir && va < KERNEL_BASE && User(flags)
    requires f < |m0| && o0[f] == Free && o1 == o0[f := Pending] && Owned(m0, o1, kdir)
    requires OnePage(m0, m, o1, kdir, d, va, Entry(f, flags)) && DataKept(m0, o1, m, d)
    requires Pdx(va) < ENTRIES && DirGrown(m0, m, d, Pdx(va), true) && PageGained(o1, o, d, Pdx(va), Ptx(va), f)
    ensures Owned(m[f := Zeros(PAGE)], o, kdir) && Provided(m0, o0, m[f := Zeros(PAGE)], o, d, va, Entry(f, flags), f, Zeros(PAGE))
  {
    MappedPage(m0, o1, m, o, kdir, d, va, f, flags, Zeros(PAGE));
  }

  /** What a page holds before the copy: its bytes if it is there, zeros otherwise. */
  function OldPage(m: seq<Bytes>, d: nat, va: nat): Bytes
    requires d < |m| && |m[d]| == PAGE && va < WORD
  {
    if Mapped(m, d, va) && InMem(m, Target(Pte(m, d, va))) then m[Target(Pte(m, d, va))] else Zeros(PAGE)
  }

  /** Its entry: a page that is there and need not become writable keeps its own. */
  function NewEntry(m: seq<Bytes>, d: nat, va: nat, f: nat, flags: nat): int
    requires d < |m| && |m[d]| == PAGE && va < WORD
  {
    if Mapped(m, d, va) && !Writable(flags) then Pte(m, d, va) else Entry(f, flags)
  }

  /** Frames in use outside address space d are as they were. */
  ghost predicate Untouched(m: seq<Bytes>, owner: seq<Owner>, m': seq<Bytes>, d: int) {
    |m'| == |m| == |owner| && forall f :: 0 <= f < |m| && !Mine(owner[f], f, d) ==> m'[f] == m[f]
  }

  // ----- map_and_copy -----

  /** How the page at va reads and what it allows after pages a to b - 1 of a load have been done. */
  ghost predicate LoadedAt(m0: seq<Bytes>, m: seq<Bytes>, d: nat, vaddr: nat, src: Bytes, rw: bool, a: nat, b: nat, va: nat)
    requires d < |m0| && |m| == |m0| && |m0[d]| == |m[d]| == PAGE && va < KERNEL_BASE
  {
    var done := a <= PageOf(va) < b;
    && (Mapped(m, d, va) <==> Mapped(m0, d, va) || done)
    && (!done ==> Pte(m, d, va) == Pte(m0, d, va))
    && (done ==> UserPage(m, d, va, false) && Writable(Pte(m, d, va)) == (rw || (Mapped(m0, d, va) && Writable(Pte(m0, d, va)))))
    && (Mapped(m, d, va) ==>
          Byte(m, d, va) == if done && vaddr <= va < vaddr + |src| then src[va - vaddr] else if Mapped(m0, d, va) then Byte(m0, d, va) else 0)
  }

  ghost predicate Loaded(m0: seq<Bytes>, m: seq<Bytes>, d: nat, vaddr: nat, src: Bytes, rw: bool, a: nat, b: nat)
    requires d < |m0| && |m| == |m0| && |m0[d]| == |m[d]| == PAGE
  {
    forall va: nat {:trigger LoadedAt(m0, m, d, vaddr, src, rw, a, b, va)} :: va < KERNEL_BASE ==> LoadedAt(m0, m, d, vaddr, src, rw, a, b, va)
  }

  /** The bytes of page number p after the copy. */
  function PageBytes(was: Bytes, vaddr: nat, src: Bytes, p: nat): (r: Bytes)
    requires |was| == PAGE
    ensures |r| == PAGE
    ensures forall k :: 0 <= k < PAGE ==> r[k] == if vaddr <= p * PAGE + k < vaddr + |src| then src[p * PAGE + k - vaddr] else was[k]
  {
    seq(PAGE, k requires 0 <= k < PAGE => if vaddr <= p * PAGE + k < vaddr + |src| then src[p * PAGE + k - vaddr] else was[k])
  }

  /** Bytes copied before page p. */
  function Copied(vaddr: nat, size: nat, first: nat, p: nat): int {
    if p == first then 0 else if p * PAGE - vaddr < size then p * PAGE - vaddr else size
  }

  /** The copy of one round puts exactly the bytes in place that fall into the page. */
  lemma CopyRound(was: Bytes, vaddr: nat, src: Bytes, first: nat, p: nat)
    requires |was| == PAGE && first == vaddr / PAGE && first <= p && p * PAGE < vaddr + |src| + PAGE && (p > first ==> p * PAGE < vaddr + |src|)
    ensures var off := if p == first then vaddr % PAGE else 0;
            var at := Copied(vaddr, |src|, first, p);
            var len := if |src| - at < PAGE - off then |src| - at else PAGE - off;
            && 0 <= at && 0 <= len && at + len <= |src| && off + len <= PAGE
            && was[..off] + src[at..at + len] + was[off + len..] == PageBytes(was, vaddr, src, p)
            && (p + 1 > first ==> at + len == Copied(vaddr, |src|, first, p + 1))
  {
    var off := if p == first then vaddr % PAGE else 0;
    var at := Copied(vaddr, |src|, first, p);
    var len := if |src| - at < PAGE - off then |src| - at else PAGE - off;
    var r := was[..off] + src[at..at + len] + was[off + len..];
    forall k | 0 <= k < PAGE ensures r[k] == PageBytes(was, vaddr, src, p)[k] {
      if off <= k < off + len { assert r[k] == src[at + k - off]; }
    }
  }

  /** The state between two rounds. */
  ghost predicate LoadState(m0: seq<Bytes>, o0: seq<Owner>, m: seq<Bytes>, o: seq<Owner>, d: nat, vaddr: nat, src: Bytes, rw: bool, a: nat, b: nat) {
    && d < |m0| == |o0| && |m| == |m0| && |m0[d]| == |m[d]| == PAGE
    && Loaded(m0, m, d, vaddr, src, rw, a, b) && AllUser(m, d) && DirMonotone(m0, m, d)
    && OnlySpace(o0, o, d) && Untouched(m0, o0, m, d)
  }

  lemma LoadStart(m: seq<Bytes>, o: seq<Owner>, kdir: int, d: nat, vaddr: nat, src: Bytes, rw: bool, a: nat)
    requires Owned(m, o, kdir) && d < |m| && o[d] == Dir && AllUser(m, d)
    ensures LoadState(m, o, m, o, d, vaddr, src, rw, a, a)
  {
    forall va: nat | va < KERNEL_BASE ensures LoadedAt(m, m, d, vaddr, src, rw, a, a, va) {
      UserIndex(va);
      Indices(va);
    }
  }

  /** What the page at va of the round becomes, and what stays with the other pages. */
  lemma PageGot(m: seq<Bytes>, o: seq<Owner>, m': seq<Bytes>, o': seq<Owner>, kdir: int, d: nat, p: nat, v: int, f: nat, b: Bytes, va: nat)
    requires Owned(m, o, kdir) && d < |m| == |m'| && o[d] == Dir && |m'[d]| == PAGE && va < KERNEL_BASE && p * PAGE < KERNEL_BASE
    requires AllUser(m, d) && Provided(m, o, m', o', d, p * PAGE, v, f, b) && User(v)
    ensures PageOf(va) != p ==> Pte(m', d, va) == Pte(m, d, va) && (Mapped(m, d, va) ==> UserPage(m', d, va, false) && Byte(m', d, va) == Byte(m, d, va))
    ensures PageOf(va) == p ==> Pte(m', d, va) == v && UserPage(m', d, va, false) && Byte(m', d, va) == b[va % PAGE]
  {
    UserIndex(va);
    Indices(va);
    Indices(p * PAGE);
    assert PageOf(p * PAGE) == p;
    if PageOf(va) != p && Mapped(m, d, va) { assert UserPage(m, d, va, false); }
  }

  lemma OldByte(m: seq<Bytes>, o: seq<Owner>, kdir: int, d: nat, p: nat, va: nat)
    requires Owned(m, o, kdir) && d < |m| && o[d] == Dir && va < KERNEL_BASE && p * PAGE < KERNEL_BASE && PageOf(va) == p
    ensures Mapped(m, d, p * PAGE) == Mapped(m, d, va) && Pte(m, d, p * PAGE) == Pte(m, d, va)
    ensures |OldPage(m, d, p * PAGE)| == PAGE && OldPage(m, d, p * PAGE)[va % PAGE] == if Mapped(m, d, va) then Byte(m, d, va) else 0
  {
    SamePagePte(m, d, p * PAGE, va);
    if Mapped(m, d, va) { OwnFrame(m, o, kdir, d, va, 0); }
  }

  /** One more page. */
  lemma LoadStep(m0: seq<Bytes>, o0: seq<Owner>, m: seq<Bytes>, o: seq<Owner>, m': seq<Bytes>, o': seq<Owner>, kdir: int, d: nat, vaddr: nat, src: Bytes, flags: nat, a: nat, p: nat, f: nat)
    requires Owned(m, o, kdir) && LoadState(m0, o0, m, o, d, vaddr, src, Writable(flags), a, p) && o[d] == Dir
    requires a <= p && p * PAGE < KERNEL_BASE && User(flags) && |m'| == |m| && |m'[d]| == PAGE && |OldPage(m, d, p * PAGE)| == PAGE
    requires Provided(m, o, m', o', d, p * PAGE, NewEntry(m, d, p * PAGE, f, flags), f, PageBytes(OldPage(m, d, p * PAGE), vaddr, src, p))
    ensures LoadState(m0, o0, m', o', d, vaddr, src, Writable(flags), a, p + 1)
  {
    hide LoadedAt;
    var b := p + 1;
    forall va: nat | va < KERNEL_BASE ensures LoadedAt(m0, m', d, vaddr, src, Writable(flags), a, b, va) && (Mapped(m', d, va) ==> UserPage(m', d, va, false)) {
      assert LoadedAt(m0, m, d, vaddr, src, Writable(flags), a, p, va);
      LoadStepAt(m0, m, o, m', o', kdir, d, vaddr, src, flags, a, p, f, va);
    }
    OnlyCompose(o0, o, o', d);
    UntouchedCompose(m0, o0, m, o, m', d);
  }

  lemma LoadStepAt(m0: seq<Bytes>, m: seq<Bytes>, o: seq<Owner>, m': seq<Bytes>, o': seq<Owner>, kdir: int, d: nat, vaddr: nat, src: Bytes, flags: nat, a: nat, p: nat, f: nat, va: nat)
    requires Owned(m, o, kdir) && d < |m| == |m0| == |m'| && |m0[d]| == |m'[d]| == PAGE && AllUser(m, d) && o[d] == Dir && va < KERNEL_BASE
    requires a <= p && p * PAGE < KERNEL_BASE && User(flags) && |OldPage(m, d, p * PAGE)| == PAGE
    requires LoadedAt(m0, m, d, vaddr, src, Writable(flags), a, p, va)
    requires Provided(m, o, m', o', d, p * PAGE, NewEntry(m, d, p * PAGE, f, flags), f, PageBytes(OldPage(m, d, p * PAGE), vaddr, src, p))
    ensures LoadedAt(m0, m', d, vaddr, src, Writable(flags), a, p + 1, va) && (Mapped(m', d, va) ==> UserPage(m', d, va, false))
  {
    var v := NewEntry(m, d, p * PAGE, f, flags);
    assert User(v) by { if Mapped(m, d, p * PAGE) { assert UserPage(m, d, p * PAGE, false); } }
    PageGot(m, o, m', o', kdir, d, p, v, f, PageBytes(OldPage(m, d, p * PAGE), vaddr, src, p), va);
    if PageOf(va) == p { OldByte(m, o, kdir, d, p, va); }
    hide Provided, Owned, AllUser, Byte, OldPage;
  }

  /** Rewriting the bytes of the page just provided. */
  lemma Recopied(m: seq<Bytes>, o: seq<Owner>, m': seq<Bytes>, o': seq<Owner>, kdir: int, d: nat, va: nat, v: int, f: nat, b: Bytes, b2: Bytes)
    requires Owned(m', o', kdir) && d < |m| == |o| && |m'| == |m| && |m[d]| == PAGE && o'[d] == Dir && o[d] == Dir
    requires Provided(m, o, m', o', d, va, v, f, b) && |b2| == PAGE
    ensures m'[f] == b && Owned(m'[f := b2], o', kdir) && Provided(m, o, m'[f := b2], o', d, va, v, f, b2)
  {
    var m2 := m'[f := b2];
    UserIndex(va);
    Indices(va);
    DataWritten(m', o', kdir, f, b2);
    FrameBytes(m, m', o', kdir, d, va, v, f, b);
    forall u: nat | u < KERNEL_BASE ensures Pte(m2, d, u) == Pte(m', d, u) { PteAfterData(m', o', kdir, f, b2, d, u); }
    forall u: nat | u < KERNEL_BASE && PageOf(u) != PageOf(va) && Mapped(m, d, u) ensures Byte(m2, d, u) == Byte(m, d, u) {
      assert Pte(m', d, u) == Pte(m, d, u) && Byte(m', d, u) == Byte(m, d, u);
      assert Pte(m2, d, u) == Pte(m', d, u);
      OwnFrame(m', o', kdir, d, u, f);
      Indices(u);
    }
    forall u: nat | u < KERNEL_BASE && PageOf(u) == PageOf(va) ensures Byte(m2, d, u) == b2[u % PAGE] {
      assert Pte(m', d, u) == v && Pte(m2, d, u) == v;
    }
  }

  lemma FrameBytes(m: seq<Bytes>, m': seq<Bytes>, o': seq<Owner>, kdir: int, d: nat, va: nat, v: int, f: nat, b: Bytes)
    requires Owned(m', o', kdir) && d < |m| && |m'| == |m| && |m[d]| == |m'[d]| == PAGE
    requires PageIs(m, m', d, va, v, b) && Target(v) == f && f < |m'|
    ensures m'[f] == b
  {
    forall k | 0 <= k < PAGE ensures m'[f][k] == b[k] {
      var u := va / PAGE * PAGE + k;
      assert u / PAGE == va / PAGE && u % PAGE == k;
      assert Byte(m', d, u) == b[k];
    }
  }

  function PageEnd(vaddr: nat, size: nat): nat { (vaddr + size + 0xfff) / PAGE }

  /** The number of pages a load touches. */
  lemma PageEndBound(vaddr: nat, size: nat, p: nat)
    requires vaddr + size <= KERNEL_BASE && p < PageEnd(vaddr, size)
    ensures p * PAGE < vaddr + size + PAGE && p * PAGE < KERNEL_BASE
    ensures p > vaddr / PAGE ==> p * PAGE < vaddr + size
  {
  }

  /** The copy of one round of map_and_copy, into the page just provided. */
  method CopyPart(mach: Machine, frame: nat, off: nat, part: Bytes)
    requires mach.Valid() && frame / PAGE < |mach.mem| && mach.owner[frame / PAGE].Page? && off + |part| <= PAGE
    modifies mach`mem
    ensures mach.Valid()
    ensures mach.mem == old(mach.mem)[frame / PAGE := old(mach.mem)[frame / PAGE][..off] + part + old(mach.mem)[frame / PAGE][off + |part|..]]
  {
    var f := frame / PAGE;
    var b := mach.mem[f][..off] + part + mach.mem[f][off + |part|..];
    DataWritten(mach.mem, mach.owner, mach.kdir, f, b);
    mach.mem := mach.mem[f := b];
  }

  /** One round: provide the page and copy what belongs into it. No source means nothing is copied. */
  method LoadPage(mach: Machine, pd: nat, vaddr: nat, src: Bytes, size: nat, flags: nat, p: nat, at: nat, ghost m0: seq<Bytes>, ghost o0: seq<Owner>)
    returns (panic: bool, len: nat)
    requires Ready(mach, pd / PAGE) && User(flags) && (src == [] || |src| == size) && vaddr + size <= KERNEL_BASE
    requires vaddr / PAGE <= p < PageEnd(vaddr, size) && at == Copied(vaddr, size, vaddr / PAGE, p) && at <= size
    requires LoadState(m0, o0, mach.mem, mach.owner, pd / PAGE, vaddr, src, Writable(flags), vaddr / PAGE, p)
    modifies mach`mem, mach`owner, mach.pmm.bitmap
    ensures mach.Valid()
    ensures !panic ==> Ready(mach, pd / PAGE) && LoadState(m0, o0, mach.mem, mach.owner, pd / PAGE, vaddr, src, Writable(flags), vaddr / PAGE, p + 1)
    ensures !panic ==> at + len == Copied(vaddr, size, vaddr / PAGE, p + 1) && at + len <= size
    ensures panic ==> NoneFree(mach.owner)
  {
    hide Provided, LoadState, PageBytes, Copied, NewEntry, OldPage;
    ghost var d, m, o := pd / PAGE, mach.mem, mach.owner;
    PageEndBound(vaddr, size, p);
    var frame;
    len := 0;
    StateFacts(m0, o0, m, o, d, vaddr, src, Writable(flags), vaddr / PAGE, p);
    panic, frame := ProvidePage(mach, pd, p * PAGE, flags);
    if panic {
      return;
    }
    var off := if p == vaddr / PAGE then vaddr % PAGE else 0;
    len := if size - at < PAGE - off then size - at else PAGE - off;
    ghost var v := NewEntry(m, d, p * PAGE, frame / PAGE, flags);
    OldPageSize(m, d, p * PAGE);
    ghost var was := OldPage(m, d, p * PAGE);
    ghost var now := PageBytes(was, vaddr, src, p);
    Recopied(m, o, mach.mem, mach.owner, mach.kdir, d, p * PAGE, v, frame / PAGE, was, now);
    ghost var after := mach.mem[frame / PAGE := now];
    RoundIs(was, vaddr, src, size, p, off, at, len);
    if |src| > 0 && len > 0 {
      CopyPart(mach, frame, off, src[at..at + len]);
    }
    assert mach.mem == after;
    LoadStep(m0, o0, m, o, mach.mem, mach.owner, mach.kdir, d, vaddr, src, flags, vaddr / PAGE, p, frame / PAGE);
  }

  lemma OldPageSize(m: seq<Bytes>, d: nat, va: nat)
    requires Sized(m) && d < |m| && va < WORD
    ensures |OldPage(m, d, va)| == PAGE
  {
  }

  /** With or without a source, a round makes the page what it should be and advances by len. */
  lemma RoundIs(was: Bytes, vaddr: nat, src: Bytes, size: nat, p: nat, off: nat, at: nat, len: int)
    requires |was| == PAGE && (src == [] || |src| == size) && vaddr / PAGE <= p < PageEnd(vaddr, size) && vaddr + size <= KERNEL_BASE
    requires off == (if p == vaddr / PAGE then vaddr % PAGE else 0) && at == Copied(vaddr, size, vaddr / PAGE, p) && at <= size
    requires len == if size - at < PAGE - off then size - at else PAGE - off
    ensures 0 <= len && at + len <= size && off + len <= PAGE && at + len == Copied(vaddr, size, vaddr / PAGE, p + 1)
    ensures if |src| > 0 && len > 0 then was[..off] + src[at..at + len] + was[off + len..] == PageBytes(was, vaddr, src, p) else was == PageBytes(was, vaddr, src, p)
  {
    PageEndBound(vaddr, size, p);
    if src != [] {
      CopyRound(was, vaddr, src, vaddr / PAGE, p);
    } else {
      CopyRound(was, vaddr, Zeros(size), vaddr / PAGE, p);
    }
  }

  lemma StateFacts(m0: seq<Bytes>, o0: seq<Owner>, m: seq<Bytes>, o: seq<Owner>, d: nat, vaddr: nat, src: Bytes, rw: bool, a: nat, b: nat)
    requires LoadState(m0, o0, m, o, d, vaddr, src, rw, a, b)
    ensures d < |m| && |m[d]| == PAGE && AllUser(m, d)
  {
  }

  /** map_and_copy: it never fails, since frame 0 is never handed out; it may panic. */
  method MapAndCopy(mach: Machine, pd: nat, vaddr: nat, src: Bytes, size: nat, flags: nat) returns (panic: bool, r: int)
    requires Ready(mach, pd / PAGE) && AllUser(mach.mem, pd / PAGE) && User(flags)
    requires (src == [] || |src| == size) && vaddr + size <= KERNEL_BASE
    modifies mach`mem, mach`owner, mach.pmm.bitmap
    ensures mach.Valid() && (!panic ==> r == 0 && Ready(mach, pd / PAGE))
    ensures !panic ==> LoadState(old(mach.mem), old(mach.owner), mach.mem, mach.owner, pd / PAGE, vaddr, src, Writable(flags), vaddr / PAGE, PageEnd(vaddr, size))
    ensures panic ==> NoneFree(mach.owner)
  {
    hide LoadState;
    ghost var m0, o0 := mach.mem, mach.owner;
    panic, r := false, 0;
    var at := 0;
    var va := vaddr / PAGE * PAGE;
    var end := (vaddr + size + 0xfff) / PAGE * PAGE;
    LoadStart(m0, o0, mach.kdir, pd / PAGE, vaddr, src, Writable(flags), vaddr / PAGE);
    while va < end
      invariant va % PAGE == 0 && vaddr / PAGE <= va / PAGE <= PageEnd(vaddr, size) && Ready(mach, pd / PAGE)
      invariant at == Copied(vaddr, size, vaddr / PAGE, va / PAGE) && 0 <= at <= size
      invariant LoadState(m0, o0, mach.mem, mach.owner, pd / PAGE, vaddr, src, Writable(flags), vaddr / PAGE, va / PAGE)
      decreases end - va
    {
      var len;
      panic, len := LoadPage(mach, pd, vaddr, src, size, flags, va / PAGE, at, m0, o0);
      if panic {
        return;
      }
      at := at + len;
      va := va + PAGE;
    }
  }

  // ----- exec_load -----

  const MAGIC: nat := 0x46414f4c
  const HEADER: nat := 32

  /** The fields of exe_header_t. */
  datatype Header = Header(magic: int, entry: int, codeAt: int, codeSize: int, dataAt: int, dataSize: int, bssAt: int, bssSize: int)

  function HeaderOf(file: Bytes): Header
    requires |file| >= HEADER
  {
    Header(Word(file, 0), Word(file, 1), Word(file, 2), Word(file, 3), Word(file, 4), Word(file, 5), Word(file, 6), Word(file, 7))
  }

  /** The little-endian number at byte offset i. */
  function Number(b: Bytes, i: nat): int
    requires i + 4 <= |b|
  {
    b[i] + 256 * b[i + 1] + 65536 * b[i + 2] + 16777216 * b[i + 3]
  }

  /** The fields of the header, by byte offset. */
  lemma HeaderBytes(file: Bytes)
    requires |file| >= 32
    ensures var h := HeaderOf(file);
            && h.magic == Number(file, 0) && h.entry == Number(file, 4)
            && h.codeAt == Number(file, 8) && h.codeSize == Number(file, 12)
            && h.dataAt == Number(file, 16) && h.dataSize == Number(file, 20)
            && h.bssAt == Number(file, 24) && h.bssSize == Number(file, 28)
  {
  }

  /** What exec_load takes for granted of a header: the bytes are in the file, and the segments lie in
      user memory. */
  predicate HeaderOk(file: Bytes)
    requires |file| >= HEADER
  {
    var h := HeaderOf(file);
    && 0 <= h.codeAt && 0 <= h.codeSize && h.codeAt + h.codeSize <= KERNEL_BASE
    && 0 <= h.dataAt && 0 <= h.dataSize && h.dataAt + h.dataSize <= KERNEL_BASE
    && 0 <= h.bssAt && 0 <= h.bssSize && h.bssAt + h.bssSize <= KERNEL_BASE
    && HEADER + h.codeSize + h.dataSize <= |file|
  }

  function CodeOf(file: Bytes): (r: Bytes)
    requires |file| >= HEADER && HeaderOk(file)
    ensures |r| == HeaderOf(file).codeSize
  {
    file[HEADER..HEADER + HeaderOf(file).codeSize]
  }

  function DataOf(file: Bytes): (r: Bytes)
    requires |file| >= HEADER && HeaderOk(file)
    ensures |r| == HeaderOf(file).dataSize
  {
    file[HEADER + HeaderOf(file).codeSize..HEADER + HeaderOf(file).codeSize + HeaderOf(file).dataSize]
  }

  /** Page of va is touched by a segment; an empty segment touches nothing. */
  predicate Touched(at: nat, size: nat, va: nat) {
    size > 0 && at / PAGE <= PageOf(va) < PageEnd(at, size)
  }

  predicate Within(at: int, size: int, va: int) { at <= va < at + size }

  /** The byte a program image has at va: its data, its code, or zero. */
  function ImageByte(file: Bytes, va: nat): int
    requires |file| >= HEADER && HeaderOk(file)
  {
    var h := HeaderOf(file);
    if Within(h.dataAt, h.dataSize, va) then file[HEADER + h.codeSize + (va - h.dataAt)]
    else if Within(h.codeAt, h.codeSize, va) then file[HEADER + (va - h.codeAt)]
    else 0
  }

  /** A page of the image: there exactly if a segment or the stack touches it, open to the user, writable
      exactly if data, bss or stack touch it, and with the bytes of the image. */
  ghost predicate ImageAt(m: seq<Bytes>, d: nat, file: Bytes, va: nat)
    requires d < |m| && |m[d]| == PAGE && va < KERNEL_BASE && |file| >= HEADER && HeaderOk(file)
  {
    var h := HeaderOf(file);
    var writable := Touched(h.dataAt, h.dataSize, va) || Touched(h.bssAt, h.bssSize, va) || Touched(STACK_TOP - STACK_SIZE, STACK_SIZE, va);
    && (Mapped(m, d, va) <==> Touched(h.codeAt, h.codeSize, va) || writable)
    && (Mapped(m, d, va) ==> UserPage(m, d, va, false) && Writable(Pte(m, d, va)) == writable && Byte(m, d, va) == ImageByte(file, va))
  }

  /** A segment has been loaded, unless it is empty. */
  ghost predicate Segment(m0: seq<Bytes>, o0: seq<Owner>, m: seq<Bytes>, o: seq<Owner>, d: nat, at: nat, src: Bytes, size: nat, rw: bool) {
    LoadState(m0, o0, m, o, d, at, src, rw, at / PAGE, if size == 0 then at / PAGE else PageEnd(at, size))
  }

  method LoadSegment(mach: Machine, pd: nat, at: nat, src: Bytes, size: nat, flags: nat) returns (panic: bool, r: int)
    requires Ready(mach, pd / PAGE) && AllUser(mach.mem, pd / PAGE) && User(flags)
    requires (src == [] || |src| == size) && at + size <= KERNEL_BASE
    modifies mach`mem, mach`owner, mach.pmm.bitmap
    ensures mach.Valid() && (!panic ==> r == 0 && Ready(mach, pd / PAGE) && AllUser(mach.mem, pd / PAGE))
    ensures !panic ==> Segment(old(mach.mem), old(mach.owner), mach.mem, mach.owner, pd / PAGE, at, src, size, Writable(flags))
    ensures panic ==> NoneFree(mach.owner)
  {
    panic, r := false, 0;
    LoadStart(mach.mem, mach.owner, mach.kdir, pd / PAGE, at, src, Writable(flags), at / PAGE);
    if size != 0 {
      panic, r := MapAndCopy(mach, pd, at, src, size, flags);
    }
  }

  lemma EmptySpace(m: seq<Bytes>, d: nat)
    requires d < |m| && |m[d]| == PAGE
    requires forall va: nat {:trigger Mapped(m, d, va)} :: va < WORD && Pdx(va) < KERNEL_PDE ==> !Mapped(m, d, va)
    ensures AllUser(m, d)
  {
    forall va: nat | va < KERNEL_BASE ensures !Mapped(m, d, va) { UserIndex(va); }
  }

  /** Four loads one after the other make the image. */
  lemma ImageMade(m0: seq<Bytes>, o0: seq<Owner>, m1: seq<Bytes>, o1: seq<Owner>, m2: seq<Bytes>, o2: seq<Owner>, m3: seq<Bytes>, o3: seq<Owner>, m4: seq<Bytes>, o4: seq<Owner>, d: nat, file: Bytes, va: nat)
    requires |file| >= HEADER && HeaderOk(file) && d < |m0| && |m0[d]| == PAGE && va < KERNEL_BASE && !Mapped(m0, d, va)
    requires var h := HeaderOf(file); Segment(m0, o0, m1, o1, d, h.codeAt, CodeOf(file), h.codeSize, false)
    requires var h := HeaderOf(file); Segment(m1, o1, m2, o2, d, h.dataAt, DataOf(file), h.dataSize, true)
    requires var h := HeaderOf(file); Segment(m2, o2, m3, o3, d, h.bssAt, [], h.bssSize, true)
    requires Segment(m3, o3, m4, o4, d, STACK_TOP - STACK_SIZE, [], STACK_SIZE, true)
    ensures ImageAt(m4, d, file, va)
  {
    hide UserPage, Byte, Pte, DirMonotone;
    var h := HeaderOf(file);
    var code, data := CodeOf(file), DataOf(file);
    assert LoadedAt(m0, m1, d, h.codeAt, code, false, h.codeAt / PAGE, if h.codeSize == 0 then h.codeAt / PAGE else PageEnd(h.codeAt, h.codeSize), va);
    assert LoadedAt(m1, m2, d, h.dataAt, data, true, h.dataAt / PAGE, if h.dataSize == 0 then h.dataAt / PAGE else PageEnd(h.dataAt, h.dataSize), va);
    assert LoadedAt(m2, m3, d, h.bssAt, [], true, h.bssAt / PAGE, if h.bssSize == 0 then h.bssAt / PAGE else PageEnd(h.bssAt, h.bssSize), va);
    assert LoadedAt(m3, m4, d, STACK_TOP - STACK_SIZE, [], true, (STACK_TOP - STACK_SIZE) / PAGE, PageEnd(STACK_TOP - STACK_SIZE, STACK_SIZE), va);
  }

  lemma OnlyCompose(o0: seq<Owner>, o1: seq<Owner>, o2: seq<Owner>, d: int)
    requires OnlySpace(o0, o1, d) && OnlySpace(o1, o2, d)
    ensures OnlySpace(o0, o2, d)
  {
  }

  lemma UntouchedCompose(m0: seq<Bytes>, o0: seq<Owner>, m1: seq<Bytes>, o1: seq<Owner>, m2: seq<Bytes>, d: int)
    requires Untouched(m0, o0, m1, d) && Untouched(m1, o1, m2, d) && OnlySpace(o0, o1, d)
    ensures Untouched(m0, o0, m2, d)
  {
  }

  lemma SegmentFrames(m0: seq<Bytes>, o0: seq<Owner>, m1: seq<Bytes>, o1: seq<Owner>, m2: seq<Bytes>, o2: seq<Owner>, d: nat, at: nat, src: Bytes, size: nat, rw: bool)
    requires OnlySpace(o0, o1, d) && Untouched(m0, o0, m1, d) && Segment(m1, o1, m2, o2, d, at, src, size, rw)
    ensures OnlySpace(o0, o2, d) && Untouched(m0, o0, m2, d)
  {
    OnlyCompose(o0, o1, o2, d);
    UntouchedCompose(m0, o0, m1, o1, m2, d);
  }

  /** The fields of a process that exec_load and sbrk use. */
  class Program {
    var pd: nat
    var entry: int
    var stackTop: nat
    var heapStart: nat
    var heapBreak: nat
    var heapMax: nat

    constructor ()
    {
      pd, entry, stackTop, heapStart, heapBreak, heapMax := 0, 0, 0, 0, 0, 0;
    }
  }

  function RoundUp(x: nat): nat { (x + 0xfff) / PAGE * PAGE }

  /** It is the next page boundary. */
  lemma RoundUpIs(x: nat)
    ensures RoundUp(x) % 4096 == 0 && x <= RoundUp(x) < x + 4096
  {
  }

  /** A segment touches the pages that hold one of its bytes. */
  lemma TouchedIff(at: nat, size: nat, va: nat)
    ensures Touched(at, size, va) <==> exists u: nat :: at <= u < at + size && PageOf(u) == va / 4096
  {
    if Touched(at, size, va) {
      var u := if PageOf(va) * PAGE < at then at else PageOf(va) * PAGE;
      assert at <= u < at + size && PageOf(u) == va / 4096;
    } else if u: nat :| at <= u < at + size && PageOf(u) == va / 4096 {
      assert u < PageEnd(at, size) * PAGE;
    }
  }

  /** What a program finds in its address space, in terms of the bytes of its file: data, then code, where
      the header puts them, and zeros in bss and stack; the code is read-only where nothing else is. */
  lemma ImageReads(m: seq<Bytes>, d: nat, file: Bytes, va: nat)
    requires d < |m| && |m[d]| == PAGE && |file| >= 32 && HeaderOk(file) && va < 0xC000_0000 && ImageAt(m, d, file, va)
    ensures var code, codeSize, data, dataSize, bss, bssSize := Number(file, 8), Number(file, 12), Number(file, 16), Number(file, 20), Number(file, 24), Number(file, 28);
            && (data <= va < data + dataSize ==> UserPage(m, d, va, true) && Byte(m, d, va) == file[32 + codeSize + va - data])
            && (code <= va < code + codeSize ==> UserPage(m, d, va, false))
            && (code <= va < code + codeSize && !(data <= va < data + dataSize) ==> Byte(m, d, va) == file[32 + va - code])
            && (bss <= va < bss + bssSize || 0xBFFF_B000 <= va < 0xBFFF_F000 ==> UserPage(m, d, va, true))
            && (Mapped(m, d, va) && !(data <= va < data + dataSize) && !(code <= va < code + codeSize) ==> Byte(m, d, va) == 0)
  {
    hide UserPage, Pte, Byte, Touched;
    HeaderBytes(file);
    var h := HeaderOf(file);
    OwnPage(h.dataAt, h.dataSize, va);
    OwnPage(h.codeAt, h.codeSize, va);
    OwnPage(h.bssAt, h.bssSize, va);
    OwnPage(STACK_TOP - STACK_SIZE, STACK_SIZE, va);
    WritablePage(m, d, va);
  }

  lemma OwnPage(at: nat, size: nat, va: nat)
    ensures at <= va < at + size ==> Touched(at, size, va)
  {
  }

  lemma WritablePage(m: seq<Bytes>, d: nat, va: nat)
    requires d < |m| && |m[d]| == PAGE && va < WORD
    ensures UserPage(m, d, va, true) <==> UserPage(m, d, va, false) && Writable(Pte(m, d, va))
  {
  }

  /** A program whose header has eight different fields: six bytes of code at 4 MiB, entered at the
      second one, four bytes of data two pages further, and one page and eight bytes of bss behind them. */
  const SAMPLE: Bytes := SAMPLE_0 + SAMPLE_16 + SAMPLE_32
  const SAMPLE_0: Bytes := [0x4c, 0x4f, 0x41, 0x46, 0x01, 0, 0x40, 0, 0, 0, 0x40, 0, 6, 0, 0, 0]
  const SAMPLE_16: Bytes := [0, 0x20, 0x40, 0, 4, 0, 0, 0, 0, 0x30, 0x40, 0, 0x08, 0x10, 0, 0]
  const SAMPLE_32: Bytes := [0x90, 0x91, 0x92, 0x93, 0x94, 0x95, 0x61, 0x62, 0x63, 0x64]

  lemma NumberIn(a: Bytes, b: Bytes, c: Bytes, i: nat)
    requires |a| == |b| == 16 && i + 4 <= 16
    ensures Number(a + b + c, i) == Number(a, i) && Number(a + b + c, 16 + i) == Number(b, i)
  {
  }

  lemma SampleNumbers()
    ensures Number(SAMPLE_0, 0) == 0x46414f4c && Number(SAMPLE_0, 4) == 0x40_0001 && Number(SAMPLE_0, 8) == 0x40_0000 && Number(SAMPLE_0, 12) == 6
    ensures Number(SAMPLE_16, 0) == 0x40_2000 && Number(SAMPLE_16, 4) == 4 && Number(SAMPLE_16, 8) == 0x40_3000 && Number(SAMPLE_16, 12) == 0x1008
  {
  }

  lemma SampleHeader()
    ensures |SAMPLE| == 42 && HeaderOf(SAMPLE) == Header(0x46414f4c, 0x40_0001, 0x40_0000, 6, 0x40_2000, 4, 0x40_3000, 0x1008) && HeaderOk(SAMPLE)
    ensures RoundUp(HeaderOf(SAMPLE).bssAt + HeaderOf(SAMPLE).bssSize) == 0x40_5000
  {
    hide HeaderOf, Number;
    SampleNumbers();
    HeaderBytes(SAMPLE);
    NumberIn(SAMPLE_0, SAMPLE_16, SAMPLE_32, 0);
    NumberIn(SAMPLE_0, SAMPLE_16, SAMPLE_32, 4);
    NumberIn(SAMPLE_0, SAMPLE_16, SAMPLE_32, 8);
    NumberIn(SAMPLE_0, SAMPLE_16, SAMPLE_32, 12);
  }

  /** Where its bytes are in an address space that holds its image. */
  lemma SampleImage(m: seq<Bytes>, d: nat)
    requires d < |m| && |m[d]| == PAGE && |SAMPLE| >= 32 && HeaderOk(SAMPLE)
    requires forall va: nat {:trigger ImageAt(m, d, SAMPLE, va)} :: va < KERNEL_BASE ==> ImageAt(m, d, SAMPLE, va)
    ensures Byte(m, d, 0x40_0000) == 0x90 && Byte(m, d, 0x40_0005) == 0x95 && !Writable(Pte(m, d, 0x40_0000)) && !Mapped(m, d, 0x40_1000)
    ensures Byte(m, d, 0x40_2000) == 0x61 && Byte(m, d, 0x40_2003) == 0x64 && UserPage(m, d, 0x40_2000, true)
    ensures Byte(m, d, 0x40_3000) == 0 && UserPage(m, d, 0x40_4007, true) && !Mapped(m, d, 0x40_5000)
  {
    hide UserPage, Pte, Byte, HeaderOf;
    SampleHeader();
    HeaderBytes(SAMPLE);
    ImageReads(m, d, SAMPLE, 0x40_0000);
    ImageReads(m, d, SAMPLE, 0x40_0005);
    ImageReads(m, d, SAMPLE, 0x40_2000);
    ImageReads(m, d, SAMPLE, 0x40_2003);
    ImageReads(m, d, SAMPLE, 0x40_3000);
    ImageReads(m, d, SAMPLE, 0x40_4007);
    assert ImageAt(m, d, SAMPLE, 0x40_1000) && ImageAt(m, d, SAMPLE, 0x40_5000);
  }

  /** exec_load, from the point where the file is in memory: 4 for a wrong magic number, otherwise the
      image is in place. The header is read before its buffer is given back. */
  method ExecLoad(mach: Machine, prog: Program, file: Bytes) returns (panic: bool, r: int)
    requires mach.Valid() && Settled(mach.owner) && |file| >= HEADER && HeaderOk(file)
    modifies prog, mach`mem, mach`owner, mach.pmm.bitmap
    ensures mach.Valid() && (!panic ==> r == if Number(file, 0) != 0x46414f4c then 4 else 0)
    ensures !panic && r == 4 ==> mach.mem == old(mach.mem) && mach.owner == old(mach.owner)
    ensures !panic && r == 0 ==> prog.pd / PAGE < |mach.mem| && old(mach.owner)[prog.pd / PAGE] == Free && Ready(mach, prog.pd / PAGE)
    ensures !panic && r == 0 ==> OnlySpace(old(mach.owner), mach.owner, prog.pd / PAGE) && Untouched(old(mach.mem), old(mach.owner), mach.mem, prog.pd / PAGE)
    ensures !panic && r == 0 ==> forall va: nat {:trigger ImageAt(mach.mem, prog.pd / PAGE, file, va)} :: va < KERNEL_BASE ==> ImageAt(mach.mem, prog.pd / PAGE, file, va)
    ensures !panic && r == 0 ==> prog.entry == Number(file, 4) && prog.stackTop == 0xBFFF_F000 && prog.heapMax == 0xBFFF_A000
    ensures !panic && r == 0 ==> prog.heapStart == prog.heapBreak == RoundUp(HeaderOf(file).bssAt + HeaderOf(file).bssSize)
    ensures panic ==> NoneFree(mach.owner)
  {
    panic, r := false, 0;
    HeaderBytes(file);
    var h := HeaderOf(file);
    if h.magic != MAGIC {
      return false, 4;
    }
    var pd;
    panic, pd := BuildImage(mach, file);
    if panic {
      return;
    }
    prog.pd := pd;
    prog.entry := h.entry;
    prog.stackTop := STACK_TOP;
    var heapStart := RoundUp(h.bssAt + h.bssSize);
    prog.heapStart := heapStart;
    prog.heapBreak := heapStart;
    prog.heapMax := HEAP_MAX;
  }

  /** A new address space with the segments and the stack of the program. */
  method BuildImage(mach: Machine, file: Bytes) returns (panic: bool, pd: nat)
    requires mach.Valid() && Settled(mach.owner) && |file| >= HEADER && HeaderOk(file)
    modifies mach`mem, mach`owner, mach.pmm.bitmap
    ensures mach.Valid()
    ensures !panic ==> pd / PAGE < |mach.mem| && old(mach.owner)[pd / PAGE] == Free && Ready(mach, pd / PAGE)
    ensures !panic ==> OnlySpace(old(mach.owner), mach.owner, pd / PAGE) && Untouched(old(mach.mem), old(mach.owner), mach.mem, pd / PAGE)
    ensures !panic ==> forall va: nat {:trigger ImageAt(mach.mem, pd / PAGE, file, va)} :: va < KERNEL_BASE ==> ImageAt(mach.mem, pd / PAGE, file, va)
    ensures panic ==> NoneFree(mach.owner)
  {
    hide Segment, AllUser, ImageAt, Untouched, OnlySpace, HeaderOk;
    ghost var m, o := mach.mem, mach.owner;
    panic, pd := mach.CreateAddressSpace();
    if panic {
      return;
    }
    NewSpace(m, o, mach.mem, mach.owner, pd / PAGE);
    ghost var m0, o0 := mach.mem, mach.owner;
    panic := LoadParts(mach, pd, file);
    if panic {
      return;
    }
    OnlyCompose(o, o0, mach.owner, pd / PAGE);
    UntouchedCompose(m, o, m0, o0, mach.mem, pd / PAGE);
  }

  /** Code, data, bss and stack, in this order, into an empty address space. */
  method LoadParts(mach: Machine, pd: nat, file: Bytes) returns (panic: bool)
    requires Ready(mach, pd / PAGE) && AllUser(mach.mem, pd / PAGE) && |file| >= HEADER && HeaderOk(file)
    requires forall va: nat {:trigger Mapped(mach.mem, pd / PAGE, va)} :: va < WORD && Pdx(va) < KERNEL_PDE ==> !Mapped(mach.mem, pd / PAGE, va)
    modifies mach`mem, mach`owner, mach.pmm.bitmap
    ensures mach.Valid()
    ensures !panic ==> Ready(mach, pd / PAGE) && OnlySpace(old(mach.owner), mach.owner, pd / PAGE) && Untouched(old(mach.mem), old(mach.owner), mach.mem, pd / PAGE)
    ensures !panic ==> forall va: nat {:trigger ImageAt(mach.mem, pd / PAGE, file, va)} :: va < KERNEL_BASE ==> ImageAt(mach.mem, pd / PAGE, file, va)
    ensures panic ==> NoneFree(mach.owner)
  {
    hide HeaderOf, CodeOf, DataOf, Segment, AllUser, ImageAt, Untouched, OnlySpace, Mapped;
    var h := HeaderOf(file);
    var r;
    ghost var m0, o0 := mach.mem, mach.owner;
    Nothing(m0, o0, pd / PAGE);
    panic, r := LoadSegment(mach, pd, h.codeAt, CodeOf(file), h.codeSize, RO);
    if panic {
      return;
    }
    ghost var m1, o1 := mach.mem, mach.owner;
    SegmentFrames(m0, o0, m0, o0, m1, o1, pd / PAGE, h.codeAt, CodeOf(file), h.codeSize, Writable(RO));
    panic, r := LoadSegment(mach, pd, h.dataAt, DataOf(file), h.dataSize, RW);
    if panic {
      return;
    }
    ghost var m2, o2 := mach.mem, mach.owner;
    SegmentFrames(m0, o0, m1, o1, m2, o2, pd / PAGE, h.dataAt, DataOf(file), h.dataSize, Writable(RW));
    panic, r := LoadSegment(mach, pd, h.bssAt, [], h.bssSize, RW);
    if panic {
      return;
    }
    ghost var m3, o3 := mach.mem, mach.owner;
    SegmentFrames(m0, o0, m2, o2, m3, o3, pd / PAGE, h.bssAt, [], h.bssSize, Writable(RW));
    panic, r := LoadSegment(mach, pd, STACK_TOP - STACK_SIZE, [], STACK_SIZE, RW);
    if panic {
      return;
    }
    SegmentFrames(m0, o0, m3, o3, mach.mem, mach.owner, pd / PAGE, STACK_TOP - STACK_SIZE, [], STACK_SIZE, Writable(RW));
    ImagesMade(m0, o0, m1, o1, m2, o2, m3, o3, mach.mem, mach.owner, pd / PAGE, file);
  }

  lemma Nothing(m: seq<Bytes>, o: seq<Owner>, d: int)
    requires |m| == |o|
    ensures OnlySpace(o, o, d) && Untouched(m, o, m, d)
  {
  }

  lemma ImagesMade(m0: seq<Bytes>, o0: seq<Owner>, m1: seq<Bytes>, o1: seq<Owner>, m2: seq<Bytes>, o2: seq<Owner>, m3: seq<Bytes>, o3: seq<Owner>, m4: seq<Bytes>, o4: seq<Owner>, d: nat, file: Bytes)
    requires |file| >= HEADER && HeaderOk(file) && d < |m0| == |m4| && |m0[d]| == |m4[d]| == PAGE
    requires forall va: nat {:trigger Mapped(m0, d, va)} :: va < WORD && Pdx(va) < KERNEL_PDE ==> !Mapped(m0, d, va)
    requires var h := HeaderOf(file); Segment(m0, o0, m1, o1, d, h.codeAt, CodeOf(file), h.codeSize, false)
    requires var h := HeaderOf(file); Segment(m1, o1, m2, o2, d, h.dataAt, DataOf(file), h.dataSize, true)
    requires var h := HeaderOf(file); Segment(m2, o2, m3, o3, d, h.bssAt, [], h.bssSize, true)
    requires Segment(m3, o3, m4, o4, d, STACK_TOP - STACK_SIZE, [], STACK_SIZE, true)
    ensures forall va: nat {:trigger ImageAt(m4, d, file, va)} :: va < KERNEL_BASE ==> ImageAt(m4, d, file, va)
  {
    hide Segment, ImageAt, HeaderOk;
    forall va: nat | va < KERNEL_BASE ensures ImageAt(m4, d, file, va) {
      UserIndex(va);
      ImageMade(m0, o0, m1, o1, m2, o2, m3, o3, m4, o4, d, file, va);
    }
  }

  lemma NewSpace(m: seq<Bytes>, o: seq<Owner>, m0: seq<Bytes>, o0: seq<Owner>, d: nat)
    requires |m0| == |m| == |o| && d < |m| && |m0[d]| == PAGE && o[d] == Free && o0 == o[d := Dir] && DataKept(m, o, m0, d)
    requires forall va: nat {:trigger Mapped(m0, d, va)} :: va < WORD && Pdx(va) < KERNEL_PDE ==> !Mapped(m0, d, va)
    ensures OnlySpace(o, o0, d) && Untouched(m, o, m0, d) && AllUser(m0, d)
  {
    EmptySpace(m0, d);
  }

  // ----- the program break -----

  /** No page from top up to the end of the heap is in use. */
  ghost predicate HeapClear(m: seq<Bytes>, d: nat, top: nat)
    requires d < |m| && |m[d]| == PAGE
  {
    forall va: nat {:trigger Pte(m, d, va)} :: top <= va < HEAP_MAX ==> !Mapped(m, d, va)
  }

  /** What sbrk relies on: a live address space whose pages are all the user's, and room above the break. */
  ghost predicate HeapOk(mach: Machine, prog: Program)
    reads mach, mach.pmm.bitmap, prog
  {
    && Ready(mach, prog.pd / PAGE) && AllUser(mach.mem, prog.pd / PAGE)
    && prog.heapStart <= prog.heapBreak <= prog.heapMax == HEAP_MAX
    && HeapClear(mach.mem, prog.pd / PAGE, RoundUp(prog.heapBreak))
  }

  /** After a load there is room above the break exactly if neither code nor data reach above the end of
      bss, page for page. */
  lemma HeapClearIff(m: seq<Bytes>, d: nat, file: Bytes)
    requires d < |m| && |m[d]| == PAGE && |file| >= HEADER && HeaderOk(file)
    requires forall va: nat {:trigger ImageAt(m, d, file, va)} :: va < KERNEL_BASE ==> ImageAt(m, d, file, va)
    ensures var h := HeaderOf(file);
            var top := RoundUp(h.bssAt + h.bssSize);
            HeapClear(m, d, top) <==>
              forall va: nat :: top <= va < HEAP_MAX ==> !Touched(h.codeAt, h.codeSize, va) && !Touched(h.dataAt, h.dataSize, va)
  {
    var h := HeaderOf(file);
    var top := RoundUp(h.bssAt + h.bssSize);
    forall va: nat | top <= va < HEAP_MAX
      ensures Mapped(m, d, va) <==> Touched(h.codeAt, h.codeSize, va) || Touched(h.dataAt, h.dataSize, va) {
      assert ImageAt(m, d, file, va);
      assert PageOf(va) >= PageEnd(h.bssAt, h.bssSize);
    }
    if HeapClear(m, d, top) {
      forall va: nat | top <= va < HEAP_MAX ensures !Touched(h.codeAt, h.codeSize, va) && !Touched(h.dataAt, h.dataSize, va) {
        assert !Present(Pte(m, d, va));
      }
    }
  }

  /** A program of one byte of code at 4 MiB, without data or bss. */
  const TINY: Bytes := [
    0x4c, 0x4f, 0x41, 0x46, 0, 0, 0x40, 0, 0, 0, 0x40, 0, 1, 0, 0, 0,
    0, 0, 0, 0, 0, 0, 0, 0, 0, 0, 0, 0, 0, 0, 0, 0, 0x90]

  lemma TinyHeader()
    ensures |TINY| == HEADER + 1 && HeaderOf(TINY) == Header(MAGIC, 0x40_0000, 0x40_0000, 1, 0, 0, 0, 0) && HeaderOk(TINY)
  {
  }

  /** Its heap starts at address 0, and the heap area contains its code. */
  lemma HeapUnderCode(m: seq<Bytes>, d: nat)
    requires d < |m| && |m[d]| == PAGE && |TINY| >= HEADER && HeaderOk(TINY)
    requires forall va: nat {:trigger ImageAt(m, d, TINY, va)} :: va < KERNEL_BASE ==> ImageAt(m, d, TINY, va)
    ensures RoundUp(HeaderOf(TINY).bssAt + HeaderOf(TINY).bssSize) == 0 && !HeapClear(m, d, 0) && Mapped(m, d, 0x40_0000)
  {
    TinyHeader();
    assert ImageAt(m, d, TINY, 0x40_0000);
    assert Present(Pte(m, d, 0x40_0000));
  }

  /** The loop that grows the heap by the pages from a to b - 1. */
  method GrowPages(mach: Machine, pd: nat, oldTop: nat, newTop: nat) returns (panic: bool)
    requires Ready(mach, pd / PAGE) && AllUser(mach.mem, pd / PAGE) && oldTop % PAGE == 0 && newTop % PAGE == 0
    requires oldTop <= newTop <= HEAP_MAX && HeapClear(mach.mem, pd / PAGE, oldTop)
    modifies mach`mem, mach`owner, mach.pmm.bitmap
    ensures mach.Valid()
    ensures !panic ==> Ready(mach, pd / PAGE)
    ensures !panic ==> LoadState(old(mach.mem), old(mach.owner), mach.mem, mach.owner, pd / PAGE, 0, [], true, oldTop / PAGE, newTop / PAGE)
    ensures panic ==> NoneFree(mach.owner)
  {
    hide LoadState, Provided;
    ghost var m0, o0, d := mach.mem, mach.owner, pd / PAGE;
    panic := false;
    LoadStart(m0, o0, mach.kdir, d, 0, [], true, oldTop / PAGE);
    var va := oldTop;
    while va < newTop
      invariant va % PAGE == 0 && oldTop <= va <= newTop && Ready(mach, d)
      invariant LoadState(m0, o0, mach.mem, mach.owner, d, 0, [], true, oldTop / PAGE, va / PAGE)
    {
      ghost var m, o := mach.mem, mach.owner;
      StillClear(m0, o0, m, o, d, oldTop, va);
      var frame;
      panic, frame := FreshPage(mach, pd, va, RW);
      if panic {
        return;
      }
      ZeroPage(m, d, va, frame / PAGE, RW);
      LoadStep(m0, o0, m, o, mach.mem, mach.owner, mach.kdir, d, 0, [], RW, oldTop / PAGE, va / PAGE, frame / PAGE);
      va := va + PAGE;
    }
  }

  lemma StillClear(m0: seq<Bytes>, o0: seq<Owner>, m: seq<Bytes>, o: seq<Owner>, d: nat, oldTop: nat, va: nat)
    requires LoadState(m0, o0, m, o, d, 0, [], true, oldTop / PAGE, va / PAGE) && oldTop <= va < HEAP_MAX && HeapClear(m0, d, oldTop)
    ensures |m[d]| == PAGE && !Mapped(m, d, va)
  {
    assert LoadedAt(m0, m, d, 0, [], true, oldTop / PAGE, va / PAGE, va);
    assert !Present(Pte(m0, d, va));
  }

  lemma ZeroPage(m: seq<Bytes>, d: nat, va: nat, f: nat, flags: nat)
    requires Sized(m) && d < |m| && va < WORD && va % PAGE == 0 && !Mapped(m, d, va)
    ensures NewEntry(m, d, va, f, flags) == Entry(f, flags) && va / PAGE * PAGE == va
    ensures |OldPage(m, d, va)| == PAGE && PageBytes(OldPage(m, d, va), 0, [], va / PAGE) == Zeros(PAGE)
  {
  }

  /** How the page at va reads after the pages a to b - 1 have been taken away. */
  ghost predicate ShrunkAt(m0: seq<Bytes>, m: seq<Bytes>, d: nat, a: nat, b: nat, va: nat)
    requires d < |m0| && |m| == |m0| && |m0[d]| == |m[d]| == PAGE && va < KERNEL_BASE
  {
    if a <= PageOf(va) < b then !Mapped(m, d, va)
    else Pte(m, d, va) == Pte(m0, d, va) && (Mapped(m0, d, va) ==> Byte(m, d, va) == Byte(m0, d, va))
  }

  /** The state between two rounds of the shrinking loop; directory entries do not change. */
  ghost predicate ShrinkState(m0: seq<Bytes>, o0: seq<Owner>, m: seq<Bytes>, o: seq<Owner>, d: nat, a: nat, b: nat) {
    && d < |m0| == |o0| && |m| == |m0| && |m0[d]| == PAGE && m[d] == m0[d]
    && (forall va: nat {:trigger ShrunkAt(m0, m, d, a, b, va)} :: va < KERNEL_BASE ==> ShrunkAt(m0, m, d, a, b, va))
    && OnlySpace(o0, o, d) && Untouched(m0, o0, m, d)
  }

  lemma ShrinkStart(m: seq<Bytes>, o: seq<Owner>, d: nat, a: nat)
    requires d < |m| == |o| && |m[d]| == PAGE
    ensures ShrinkState(m, o, m, o, d, a, a)
  {
    forall va: nat | va < KERNEL_BASE ensures ShrunkAt(m, m, d, a, a, va) { }
  }

  /** The page at va is gone, and no other page is affected. */
  ghost predicate PageGone(m: seq<Bytes>, m': seq<Bytes>, d: nat, va: nat)
    requires d < |m| && |m'| == |m| && |m[d]| == |m'[d]| == PAGE
  {
    forall u: nat {:trigger Pte(m', d, u)} :: u < KERNEL_BASE ==> if PageOf(u) == PageOf(va) then !Mapped(m', d, u) else Pte(m', d, u) == Pte(m, d, u)
  }

  lemma ShrinkStep(m0: seq<Bytes>, o0: seq<Owner>, m: seq<Bytes>, o: seq<Owner>, m': seq<Bytes>, o': seq<Owner>, kdir: int, d: nat, a: nat, p: nat)
    requires Owned(m, o, kdir) && ShrinkState(m0, o0, m, o, d, a, p) && a <= p && p * PAGE < KERNEL_BASE && o[d] == Dir
    requires Sized(m') && |m'| == |m| && m'[d] == m[d] && PageGone(m, m', d, p * PAGE) && DataKept(m, o, m', d) && OnlySpace(o, o', d)
    ensures ShrinkState(m0, o0, m', o', d, a, p + 1)
  {
    assert PageOf(p * PAGE) == p;
    var b := p + 1;
    forall va: nat | va < KERNEL_BASE ensures ShrunkAt(m0, m', d, a, b, va) {
      assert ShrunkAt(m0, m, d, a, p, va);
      assert if PageOf(va) == p then !Present(Pte(m', d, va)) else Pte(m', d, va) == Pte(m, d, va);
      if PageOf(va) != p && Mapped(m, d, va) { OwnFrame(m, o, kdir, d, va, 0); }
    }
    OnlyCompose(o0, o, o', d);
    UntouchedCompose(m0, o0, m, o, m', d);
  }

  /** The loop that takes the pages from a to b - 1 away and gives their frames back. */
  method ShrinkPages(mach: Machine, pd: nat, newTop: nat, oldTop: nat)
    requires Ready(mach, pd / PAGE) && newTop % PAGE == 0 && oldTop % PAGE == 0 && newTop <= oldTop <= HEAP_MAX
    modifies mach`mem, mach`owner, mach.pmm.bitmap
    ensures Ready(mach, pd / PAGE)
    ensures ShrinkState(old(mach.mem), old(mach.owner), mach.mem, mach.owner, pd / PAGE, newTop / PAGE, oldTop / PAGE)
  {
    hide ShrinkState;
    ghost var m0, o0, d := mach.mem, mach.owner, pd / PAGE;
    ShrinkStart(m0, o0, d, newTop / PAGE);
    var va := newTop;
    while va < oldTop
      invariant va % PAGE == 0 && newTop <= va <= oldTop && Ready(mach, d)
      invariant ShrinkState(m0, o0, mach.mem, mach.owner, d, newTop / PAGE, va / PAGE)
    {
      ghost var m, o := mach.mem, mach.owner;
      TakePage(mach, pd, va);
      assert va / PAGE * PAGE == va;
      ShrinkStep(m0, o0, m, o, mach.mem, mach.owner, mach.kdir, d, newTop / PAGE, va / PAGE);
      va := va + PAGE;
    }
  }

  /** One round: a page that is there is unmapped and its frame freed. */
  method TakePage(mach: Machine, pd: nat, va: nat)
    requires Ready(mach, pd / PAGE) && va < KERNEL_BASE
    modifies mach`mem, mach`owner, mach.pmm.bitmap
    ensures Ready(mach, pd / PAGE) && OnlySpace(old(mach.owner), mach.owner, pd / PAGE)
    ensures PageGone(old(mach.mem), mach.mem, pd / PAGE, va) && mach.mem[pd / PAGE] == old(mach.mem)[pd / PAGE]
    ensures DataKept(old(mach.mem), old(mach.owner), mach.mem, pd / PAGE)
  {
    hide OnePage, DataKept, PageGone;
    UserIndex(va);
    ghost var m, o, d := mach.mem, mach.owner, pd / PAGE;
    var found, pa := mach.Walk(pd, va);
    if found {
      OwnFrame(m, o, mach.kdir, d, va, 0);
      PageAddress(Target(Pte(m, d, va)), va % PAGE);
      RemovePage(mach, pd, va, pa / PAGE * PAGE);
    } else {
      NotThere(m, o, mach.kdir, d, va);
    }
  }

  /** A mapped page is unmapped and its frame freed. */
  method RemovePage(mach: Machine, pd: nat, va: nat, frame: nat)
    requires Ready(mach, pd / PAGE) && va < KERNEL_BASE && Mapped(mach.mem, pd / PAGE, va)
    requires InMem(mach.mem, frame / PAGE) && Target(Pte(mach.mem, pd / PAGE, va)) == frame / PAGE
    requires mach.owner[frame / PAGE] == Page(pd / PAGE, Pdx(va), Ptx(va))
    modifies mach`mem, mach`owner, mach.pmm.bitmap
    ensures Ready(mach, pd / PAGE) && OnlySpace(old(mach.owner), mach.owner, pd / PAGE)
    ensures PageGone(old(mach.mem), mach.mem, pd / PAGE, va) && mach.mem[pd / PAGE] == old(mach.mem)[pd / PAGE]
    ensures DataKept(old(mach.mem), old(mach.owner), mach.mem, pd / PAGE)
  {
    hide OnePage, DataKept, PageGone, Pte, UserPage, OnlySpace, Settled;
    UserIndex(va);
    ghost var m, o := mach.mem, mach.owner;
    PageReturned(o, frame / PAGE, pd / PAGE);
    mach.UnmapPage(pd, va);
    Vanished(m, mach.mem, o, mach.kdir, pd / PAGE, va);
    mach.FreeFrame(frame);
  }

  lemma PageReturned(o: seq<Owner>, f: nat, d: nat)
    requires f < |o| && o[f].Page? && o[f].d == d && Settled(o)
    ensures var o' := o[f := Pending][f := Free]; OnlySpace(o, o', d) && Settled(o')
  {
  }

  lemma NotThere(m: seq<Bytes>, o: seq<Owner>, kdir: int, d: nat, va: nat)
    requires Owned(m, o, kdir) && d < |m| && va < KERNEL_BASE && !Mapped(m, d, va)
    ensures DataKept(m, o, m, d) && PageGone(m, m, d, va)
  {
    forall u: nat | u < KERNEL_BASE && PageOf(u) == PageOf(va) ensures Pte(m, d, u) == Pte(m, d, va) { SamePagePte(m, d, va, u); }
  }

  lemma Vanished(m: seq<Bytes>, m': seq<Bytes>, o: seq<Owner>, kdir: int, d: nat, va: nat)
    requires Owned(m, o, kdir) && Sized(m') && |m'| == |m| && d < |m| && o[d] == Dir && va < KERNEL_BASE && OnePage(m, m', o, kdir, d, va, 0)
    ensures PageGone(m, m', d, va)
  {
  }

  /** How the page at va reads after the top of the heap has moved: pages gained read as zeros and may be
      written, pages lost are gone, every other page is as it was. */
  ghost predicate MovedAt(m0: seq<Bytes>, m: seq<Bytes>, d: nat, oldTop: nat, newTop: nat, va: nat)
    requires d < |m0| && |m| == |m0| && |m0[d]| == |m[d]| == PAGE && va < KERNEL_BASE
  {
    if oldTop <= va < newTop then UserPage(m, d, va, true) && Byte(m, d, va) == 0
    else if newTop <= va < oldTop then !Mapped(m, d, va)
    else Pte(m, d, va) == Pte(m0, d, va) && (Mapped(m0, d, va) ==> UserPage(m, d, va, false) && Byte(m, d, va) == Byte(m0, d, va))
  }

  ghost predicate Moved(m0: seq<Bytes>, m: seq<Bytes>, d: nat, oldTop: nat, newTop: nat)
    requires d < |m0| && |m| == |m0| && |m0[d]| == |m[d]| == PAGE
  {
    forall va: nat {:trigger MovedAt(m0, m, d, oldTop, newTop, va)} :: va < KERNEL_BASE ==> MovedAt(m0, m, d, oldTop, newTop, va)
  }

  lemma GrewMoved(m0: seq<Bytes>, o0: seq<Owner>, m: seq<Bytes>, o: seq<Owner>, d: nat, oldTop: nat, newTop: nat)
    requires LoadState(m0, o0, m, o, d, 0, [], true, oldTop / PAGE, newTop / PAGE) && oldTop % PAGE == 0 && newTop % PAGE == 0
    requires oldTop <= newTop <= HEAP_MAX && HeapClear(m0, d, oldTop)
    ensures Moved(m0, m, d, oldTop, newTop) && AllUser(m, d) && HeapClear(m, d, newTop)
  {
    forall va: nat | va < KERNEL_BASE ensures MovedAt(m0, m, d, oldTop, newTop, va) && (newTop <= va < HEAP_MAX ==> !Mapped(m, d, va)) {
      assert LoadedAt(m0, m, d, 0, [], true, oldTop / PAGE, newTop / PAGE, va);
      assert oldTop <= va < newTop <==> oldTop / PAGE <= PageOf(va) < newTop / PAGE;
      if oldTop <= va < HEAP_MAX { assert !Present(Pte(m0, d, va)); }
      if oldTop <= va < newTop { Writeable(m, d, va); }
    }
  }

  lemma Writeable(m: seq<Bytes>, d: nat, va: nat)
    requires d < |m| && |m[d]| == PAGE && va < KERNEL_BASE && UserPage(m, d, va, false) && Writable(Pte(m, d, va))
    ensures UserPage(m, d, va, true)
  {
  }

  lemma ShrankMoved(m0: seq<Bytes>, o0: seq<Owner>, m: seq<Bytes>, o: seq<Owner>, d: nat, oldTop: nat, newTop: nat)
    requires ShrinkState(m0, o0, m, o, d, newTop / PAGE, oldTop / PAGE) && oldTop % PAGE == 0 && newTop % PAGE == 0
    requires newTop <= oldTop <= HEAP_MAX && HeapClear(m0, d, oldTop) && AllUser(m0, d)
    ensures Moved(m0, m, d, oldTop, newTop) && AllUser(m, d) && HeapClear(m, d, newTop)
  {
    forall va: nat | va < KERNEL_BASE
      ensures MovedAt(m0, m, d, oldTop, newTop, va) && (newTop <= va < HEAP_MAX ==> !Mapped(m, d, va)) && (Mapped(m, d, va) ==> UserPage(m, d, va, false)) {
      assert ShrunkAt(m0, m, d, newTop / PAGE, oldTop / PAGE, va);
      assert newTop <= va < oldTop <==> newTop / PAGE <= PageOf(va) < oldTop / PAGE;
      if oldTop <= va < HEAP_MAX { assert !Present(Pte(m0, d, va)); }
      if Mapped(m0, d, va) { assert UserPage(m0, d, va, false); }
    }
  }

  /** The new break, in 32-bit arithmetic. */
  function NewBreak(brk: nat, delta: int): nat { (brk + delta) % WORD }

  /** The break asked for is refused when it leaves the heap area. */
  predicate Refused(start: nat, max: nat, brk: nat) { brk < start || brk > max }

  /** SYS_SBRK: -1 when the new break leaves the heap area; otherwise the old break, with the pages
      between the old and the new top added or taken away. */
  method Sbrk(mach: Machine, prog: Program, delta: int) returns (panic: bool, eax: nat)
    requires HeapOk(mach, prog) && -0x8000_0000 <= delta < 0x8000_0000
    modifies prog`heapBreak, mach`mem, mach`owner, mach.pmm.bitmap
    ensures mach.Valid() && (!panic ==> HeapOk(mach, prog))
    ensures !panic ==> OnlySpace(old(mach.owner), mach.owner, prog.pd / PAGE) && Untouched(old(mach.mem), old(mach.owner), mach.mem, prog.pd / PAGE)
    ensures !panic && Refused(prog.heapStart, prog.heapMax, NewBreak(old(prog.heapBreak), delta)) ==>
      eax == WORD - 1 && prog.heapBreak == old(prog.heapBreak) && mach.mem == old(mach.mem) && mach.owner == old(mach.owner)
    ensures !panic && !Refused(prog.heapStart, prog.heapMax, NewBreak(old(prog.heapBreak), delta)) ==>
      && eax == old(prog.heapBreak) && prog.heapBreak == NewBreak(old(prog.heapBreak), delta)
      && Moved(old(mach.mem), mach.mem, prog.pd / PAGE, RoundUp(old(prog.heapBreak)), RoundUp(prog.heapBreak))
    ensures panic ==> NoneFree(mach.owner)
  {
    hide LoadState, ShrinkState, Moved, AllUser, HeapClear, OnlySpace, Untouched;
    ghost var m0, o0, d := mach.mem, mach.owner, prog.pd / PAGE;
    panic := false;
    Nothing(m0, o0, d);
    var oldBreak := prog.heapBreak;
    var newBreak := (oldBreak + delta) % WORD;
    if newBreak < prog.heapStart || newBreak > prog.heapMax {
      return false, WORD - 1;
    }
    var oldTop, newTop := RoundUp(oldBreak), RoundUp(newBreak);
    TopBound(oldBreak);
    TopBound(newBreak);
    if newTop >= oldTop {
      panic := GrowPages(mach, prog.pd, oldTop, newTop);
      if panic {
        return true, 0;
      }
      GrewMoved(m0, o0, mach.mem, mach.owner, d, oldTop, newTop);
      LoadFrames(m0, o0, mach.mem, mach.owner, d, 0, [], true, oldTop / PAGE, newTop / PAGE);
    } else {
      ShrinkPages(mach, prog.pd, newTop, oldTop);
      ShrankMoved(m0, o0, mach.mem, mach.owner, d, oldTop, newTop);
      ShrinkFrames(m0, o0, mach.mem, mach.owner, d, newTop / PAGE, oldTop / PAGE);
    }
    prog.heapBreak := newBreak;
    eax := oldBreak;
  }

  lemma TopBound(brk: nat)
    requires brk <= HEAP_MAX
    ensures brk <= RoundUp(brk) <= HEAP_MAX && RoundUp(brk) % PAGE == 0
  {
  }

  lemma LoadFrames(m0: seq<Bytes>, o0: seq<Owner>, m: seq<Bytes>, o: seq<Owner>, d: nat, vaddr: nat, src: Bytes, rw: bool, a: nat, b: nat)
    requires LoadState(m0, o0, m, o, d, vaddr, src, rw, a, b)
    ensures OnlySpace(o0, o, d) && Untouched(m0, o0, m, d)
  {
  }

  lemma ShrinkFrames(m0: seq<Bytes>, o0: seq<Owner>, m: seq<Bytes>, o: seq<Owner>, d: nat, a: nat, b: nat)
    requires ShrinkState(m0, o0, m, o, d, a, b)
    ensures OnlySpace(o0, o, d) && Untouched(m0, o0, m, d)
  {
  }

  /** Without a wrap sbrk accepts exactly the breaks from the start of the heap to the page below the stack. */
  lemma BreakAccepted(start: nat, brk: nat, delta: int)
    requires 0 <= brk + delta < 0x1_0000_0000
    ensures !Refused(start, HEAP_MAX, NewBreak(brk, delta)) <==> start <= brk + delta <= 0xBFFF_A000
  {
  }

  /** An accepted sbrk moves the break by delta exactly when the sum does not wrap around. */
  lemma BreakMovesByDelta(brk: nat, delta: int, start: nat)
    requires start <= brk <= HEAP_MAX && -0x8000_0000 <= delta < 0x8000_0000 && !Refused(start, HEAP_MAX, NewBreak(brk, delta))
    ensures NewBreak(brk, delta) == brk + delta <==> 0 <= brk + delta < WORD
  {
  }

  /** It can: asked to lower an empty heap by 2 GiB, sbrk does not refuse but goes about raising it by 2 GiB. */
  lemma WrappedBreak()
    ensures var moved := NewBreak(0x40_0000, -0x8000_0000);
            !Refused(0x40_0000, HEAP_MAX, moved) && moved == 0x40_0000 + 0x8000_0000
  {
  }

  // ----- teardown -----

  /** A space that does not exist yet has no frames. */
  lemma NoFrames(m: seq<Bytes>, o: seq<Owner>, kdir: int, d: int)
    requires Owned(m, o, kdir) && InMem(m, d) && o[d] != Dir
    ensures Without(o, d) == o
  {
    forall f | 0 <= f < |o| ensures Without(o, d)[f] == o[f] { assert FrameOk(m, o, kdir, f); }
  }

  /** Seen with the frames of d taken out, a step of d changes nothing, and a step of another space
      changes only frames of that space. */
  lemma StepHidden(o: seq<Owner>, o': seq<Owner>, d: int, q: int)
    requires OnlySpace(o, o', q) && Settled(o) && Settled(o')
    ensures q == d ==> Without(o', d) == Without(o, d)
    ensures q != d ==> OnlySpace(Without(o, d), Without(o', d), q)
  {
    if q == d {
      forall f | 0 <= f < |o| ensures Without(o', d)[f] == Without(o, d)[f] { }
    }
  }

  /** A run: step k is one of address space ds[k]. */
  ghost predicate Run(os: seq<seq<Owner>>, ds: seq<int>) {
    && |os| == |ds| + 1
    && (forall k {:trigger os[k]} :: 0 <= k < |os| ==> Settled(os[k]))
    && (forall k {:trigger Step(os, ds, k)} :: 0 <= k < |ds| ==> Step(os, ds, k))
  }

  ghost predicate Step(os: seq<seq<Owner>>, ds: seq<int>, k: int)
    requires |os| == |ds| + 1 && 0 <= k < |ds|
  {
    OnlySpace(os[k], os[k + 1], ds[k])
  }

  /** Some other space took a step, and could own f as it is in o. */
  ghost predicate OthersOwn(o: seq<Owner>, ds: seq<int>, d: int, f: int)
    requires 0 <= f < |o|
  {
    exists k :: 0 <= k < |ds| && ds[k] != d && Mine(o[f], f, ds[k])
  }

  /** Whatever the spaces did in between, taking d down at the end of a run gives back every frame d took
      during it: what is left differs from the beginning only in frames that at both ends are free or
      belong to another space that took a step. */
  lemma {:induction false} RunHidden(os: seq<seq<Owner>>, ds: seq<int>, d: int, f: int)
    requires Run(os, ds) && 0 <= f < |os[0]|
    ensures |os[|ds|]| == |os[0]|
    ensures Without(os[|ds|], d)[f] == Without(os[0], d)[f] || (OthersOwn(Without(os[0], d), ds, d, f) && OthersOwn(Without(os[|ds|], d), ds, d, f))
    decreases |ds|
  {
    if ds != [] {
      var n := |ds| - 1;
      var os', ds' := os[..n + 1], ds[..n];
      forall k | 0 <= k < |os'| ensures Settled(os'[k]) { assert os'[k] == os[k]; }
      forall k | 0 <= k < |ds'| ensures Step(os', ds', k) { assert Step(os, ds, k); }
      RunHidden(os', ds', d, f);
      assert Step(os, ds, n) && os'[n] == os[n];
      assert Settled(os[n]) && Settled(os[n + 1]);
      StepHidden(os[n], os[n + 1], d, ds[n]);
      if OthersOwn(Without(os[0], d), ds', d, f) { OthersLonger(Without(os[0], d), ds, d, f); }
      if OthersOwn(Without(os[n], d), ds', d, f) { OthersLonger(Without(os[n], d), ds, d, f); }
      if ds[n] == d || Without(os[n + 1], d)[f] == Without(os[n], d)[f] {
        assert Without(os[n + 1], d)[f] == Without(os[n], d)[f];
      } else {
        assert Mine(Without(os[n], d)[f], f, ds[n]) && Mine(Without(os[n + 1], d)[f], f, ds[n]);
      }
    }
  }

  lemma OthersLonger(o: seq<Owner>, ds: seq<int>, d: int, f: int)
    requires 0 <= f < |o| && ds != [] && OthersOwn(o, ds[..|ds| - 1], d, f)
    ensures OthersOwn(o, ds, d, f)
  {
    var n := |ds| - 1;
    var k :| 0 <= k < n && ds[..n][k] != d && Mine(o[f], f, ds[..n][k]);
    assert ds[k] == ds[..n][k];
  }

  /** No frame of the kernel, and none of a space that took no step, is ever affected. */
  lemma RunKeepsOthers(os: seq<seq<Owner>>, ds: seq<int>, d: int, f: int, q: int)
    requires Run(os, ds) && 0 <= f < |os[0]| && 0 <= d != q && q !in ds
    requires os[0][f] == Kernel || (os[0][f] != Free && os[0][f] != Pending && Mine(os[0][f], f, q))
    ensures |os[|ds|]| == |os[0]| && Without(os[|ds|], d)[f] == os[0][f]
  {
    RunHidden(os, ds, d, f);
    var o := Without(os[0], d);
    assert o[f] == os[0][f];
  }

  /** Load a program, move its break any number of times, take the address space down: the bitmap is
      exactly what it was. */
  method LifeCycle(mach: Machine, prog: Program, file: Bytes, deltas: seq<int>) returns (panic: bool, r: int)
    requires mach.Valid() && Settled(mach.owner) && |file| >= HEADER && HeaderOk(file)
    requires BssLast(file) && forall k :: 0 <= k < |deltas| ==> -0x8000_0000 <= deltas[k] < 0x8000_0000
    modifies prog, mach, mach.pmm.bitmap
    ensures mach.Valid()
    ensures !panic ==> mach.owner == old(mach.owner) && mach.pmm.T() == old(mach.pmm.T())
    ensures panic ==> NoneFree(mach.owner)
  {
    ghost var o0, t0 := mach.owner, mach.pmm.T();
    ghost var m0 := mach.mem;
    panic, r := ExecLoad(mach, prog, file);
    if panic {
      return;
    }
    if r != 0 {
      SameBitmap(mach.pmm.T(), mach.owner, t0);
      return;
    }
    Fresh(mach.mem, prog.pd / PAGE, file);
    ghost var d := prog.pd / PAGE;
    NoFrames(m0, o0, mach.kdir, d);
    var i := 0;
    while i < |deltas|
      invariant i <= |deltas| && HeapOk(mach, prog) && prog.pd / PAGE == d && OnlySpace(o0, mach.owner, d)
    {
      ghost var o := mach.owner;
      var eax;
      panic, eax := Sbrk(mach, prog, deltas[i]);
      if panic {
        return;
      }
      OnlyCompose(o0, o, mach.owner, d);
      i := i + 1;
    }
    StepHidden(o0, mach.owner, d, d);
    mach.DestroyAddressSpace(prog.pd);
    SameBitmap(mach.pmm.T(), mach.owner, t0);
  }

  /** Bss ends last, page for page, and below the stack. */
  ghost predicate BssLast(file: Bytes)
    requires |file| >= HEADER && HeaderOk(file)
  {
    var h := HeaderOf(file);
    && h.bssAt + h.bssSize <= HEAP_MAX
    && forall va: nat :: RoundUp(h.bssAt + h.bssSize) <= va < HEAP_MAX ==> !Touched(h.codeAt, h.codeSize, va) && !Touched(h.dataAt, h.dataSize, va)
  }

  lemma Fresh(m: seq<Bytes>, d: nat, file: Bytes)
    requires d < |m| && |m[d]| == PAGE && |file| >= HEADER && HeaderOk(file) && BssLast(file)
    requires forall va: nat {:trigger ImageAt(m, d, file, va)} :: va < KERNEL_BASE ==> ImageAt(m, d, file, va)
    ensures var top := RoundUp(HeaderOf(file).bssAt + HeaderOf(file).bssSize);
            AllUser(m, d) && HeapClear(m, d, top) && HeapClear(m, d, RoundUp(top)) && top <= HEAP_MAX
  {
    HeapClearIff(m, d, file);
    TopBound(HeaderOf(file).bssAt + HeaderOf(file).bssSize);
    forall va: nat | va < KERNEL_BASE && Mapped(m, d, va) ensures UserPage(m, d, va, false) { assert ImageAt(m, d, file, va); }
  }

  lemma SameBitmap(t: seq<bool>, o: seq<Owner>, t0: seq<bool>)
    requires TakenIs(t, o) && TakenIs(t0, o)
    ensures t == t0
  {
  }
}
