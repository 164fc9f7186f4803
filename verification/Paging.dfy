/** Address spaces: creating and destroying them, mapping and unmapping pages, translating and checking
addresses. The frame bitmap and the page tables are changed in place; owner is a ghost record of who
every frame belongs to. */
module Paging {
  import opened Bits
  import opened Pmm
  import opened PageTables

  /** Between owner and owner' only frames of address space d have changed hands. */
  ghost predicate OnlySpace(owner: seq<Owner>, owner': seq<Owner>, d: int) {
    |owner'| == |owner| && forall f :: 0 <= f < |owner| ==> owner'[f] == owner[f] || (Mine(owner[f], f, d) && Mine(owner'[f], f, d))
  }

  /** Free, in hand, or part of address space d. */
  predicate Mine(o: Owner, f: int, d: int) {
    match o
    case Free => true
    case Pending => true
    case Kernel => false
    case Dir => f == d
    case Table(d1, _) => d1 == d
    case Page(d1, _, _) => d1 == d
  }

  /** Pages keep their contents, and so does every frame in use outside address space d. */
  ghost predicate DataKept(m: seq<Bytes>, owner: seq<Owner>, m': seq<Bytes>, d: int) {
    |m'| == |m| == |owner| && forall f :: 0 <= f < |m| && (owner[f].Page? || owner[f] == Pending || !Mine(owner[f], f, d)) ==> m'[f] == m[f]
  }

  /** Only the translation of the page at va in address space d has changed, to entry v. */
  ghost predicate OnePage(m: seq<Bytes>, m': seq<Bytes>, owner: seq<Owner>, kdir: int, d: int, va: nat, v: int)
    requires Sized(m) && Sized(m') && |m'| == |m|
  {
    forall d', va' {:trigger Pte(m', d', va')} :: IsDir(m, owner, kdir, d') && 0 <= va' < WORD ==>
      Pte(m', d', va') == if d' == d && PageOf(va') == PageOf(va) then v else Pte(m, d', va')
  }

  ghost predicate SamePages(m: seq<Bytes>, m': seq<Bytes>, owner: seq<Owner>, kdir: int)
    requires Sized(m) && Sized(m') && |m'| == |m|
  {
    forall d', va' {:trigger Pte(m', d', va')} :: IsDir(m, owner, kdir, d') && 0 <= va' < WORD ==> Pte(m', d', va') == Pte(m, d', va')
  }

  class Machine {
    const pmm: Frames
    const kdir: nat
    var mem: seq<Bytes>
    ghost var owner: seq<Owner>

    ghost predicate Valid()
      reads this, pmm.bitmap
    {
      pmm.Valid() && Owned(mem, owner, kdir) && TakenIs(pmm.T(), owner)
    }

    /** An arbitrary memory in which the kernel's frames are marked as taken, frame 0 among them. */
    constructor (p: Frames, m: seq<Bytes>, k: nat, ghost o: seq<Owner>)
      requires p.Valid() && Owned(m, o, k) && TakenIs(p.T(), o)
      ensures Valid() && pmm == p && mem == m && kdir == k && owner == o
    {
      pmm, mem, kdir, owner := p, m, k, o;
    }

    /** pmm_alloc_frame; the frame is now in hand. It is never frame 0. */
    method AllocFrame() returns (panic: bool, addr: nat)
      requires Valid()
      modifies this`owner, pmm.bitmap
      ensures Valid()
      ensures panic ==> owner == old(owner)
      ensures !panic ==> addr % PAGE == 0 && 0 < addr < WORD && addr / PAGE < |mem|
      ensures !panic ==> old(owner)[addr / PAGE] == Free && owner == old(owner)[addr / PAGE := Pending]
      ensures panic ==> NoneFree(owner)
    {
      panic, addr := pmm.AllocFrame();
      if !panic {
        Handed(mem, owner, kdir, addr / PAGE, Pending);
        owner := owner[addr / PAGE := Pending];
      }
    }

    /** pmm_free_frame, of a frame in hand. */
    method FreeFrame(addr: nat)
      requires Valid() && addr / PAGE < |mem| && owner[addr / PAGE] == Pending
      modifies this`owner, pmm.bitmap
      ensures Valid() && owner == old(owner)[addr / PAGE := Free]
    {
      pmm.FreeFrame(addr);
      Handed(mem, owner, kdir, addr / PAGE, Free);
      owner := owner[addr / PAGE := Free];
    }

    // ----- translation -----

    /** paging_walk */
    method Walk(pd: nat, va: nat) returns (found: bool, pa: int)
      requires Valid() && IsDir(mem, owner, kdir, pd / PAGE) && va < WORD
      ensures found == Mapped(mem, pd / PAGE, va)
      ensures found ==> pa == Phys(mem, pd / PAGE, va)
    {
      pa := 0;
      Indices(va);
      var d := pd / PAGE;
      var e := Word(mem[d], va / 0x40_0000);
      if !Present(e) {
        return false, 0;
      }
      PdeTarget(mem, owner, kdir, d, Pdx(va));
      var pte := Word(mem[Target(e)], va / PAGE % ENTRIES);
      if !Present(pte) {
        return false, 0;
      }
      return true, pte / PAGE * PAGE + va % PAGE;
    }

    /** One round of the loop of paging_validate_user_range. */
    method PageAllowed(pd: nat, page: nat, write: bool) returns (ok: bool)
      requires Valid() && IsDir(mem, owner, kdir, pd / PAGE) && page < WORD
      ensures ok == UserPage(mem, pd / PAGE, page, write)
    {
      Indices(page);
      var d := pd / PAGE;
      var e := Word(mem[d], page / 0x40_0000);
      if !Present(e) || !User(e) {
        return false;
      }
      PdeTarget(mem, owner, kdir, d, Pdx(page));
      var pte := Word(mem[Target(e)], page / PAGE % ENTRIES);
      return Present(pte) && User(pte) && (write ==> Writable(pte));
    }

    /** paging_validate_user_range, in 32-bit arithmetic. For a non-empty range it answers whether the
        range stays below 2^32 and every page it touches is there for the user. */
    method ValidateUserRange(pd: nat, vaddr: nat, size: nat, write: bool) returns (ok: bool)
      requires Valid() && IsDir(mem, owner, kdir, pd / PAGE) && vaddr < WORD && size < WORD
      ensures ok <==> size == 0 || (vaddr + size < WORD && RangeAllowed(mem, pd / PAGE, vaddr, size, write))
    {
      hide UserPage;
      if size == 0 {
        return true;
      }
      var start := vaddr / PAGE * PAGE;
      var end := (vaddr + size - 1) % WORD / PAGE * PAGE;
      if (vaddr + size) % WORD < vaddr {
        return false;
      }
      var page := start;
      while page <= end
        invariant page % PAGE == 0 && start <= page < WORD
        invariant vaddr + size < WORD && end == (vaddr + size - 1) / PAGE * PAGE
        invariant PagesThere(mem, pd / PAGE, vaddr / PAGE, page / PAGE, write)
        decreases WORD - page
      {
        var allowed := PageAllowed(pd, page, write);
        if !allowed {
          assert !PageThere(mem, pd / PAGE, page / PAGE, write);
          return false;
        }
        if page > 0xffff_f000 - PAGE {
          break;
        }
        page := page + PAGE;
      }
      return true;
    }

    // ----- mapping -----

    /** A frame in hand is cleared and becomes the table for entry i. */
    method LinkTable(d: nat, i: nat, pt: nat, flags: nat)
      requires Valid() && d < |mem| && owner[d] == Dir && i < KERNEL_PDE && !Present(Word(mem[d], i))
      requires pt % PAGE == 0 && pt / PAGE < |mem| && owner[pt / PAGE] == Pending
      modifies this`mem, this`owner
      ensures Valid() && HasTable(mem, owner, d, i) && SamePages(old(mem), mem, old(owner), kdir)
      ensures DirEntrySet(old(mem), mem, d, i, pt / PAGE) && User(Word(mem[d], i)) == User(flags) && owner == old(owner)[pt / PAGE := Table(d, i)]
    {
      hide SamePages, Entry, TableFlags, User;
      ghost var m0, o0 := mem, owner;
      var t := pt / PAGE;
      DataWritten(mem, owner, kdir, t, Zeros(PAGE));
      mem := mem[t := Zeros(PAGE)];
      var e := Entry(t, TableFlags(User(flags)));
      EntryFits(t, e, |mem|);
      assert InMem(mem, t);
      TableLinked(mem, owner, kdir, d, i, t, e);
      TableKeepsPages(m0, o0, kdir, d, i, t, e);
      WordSame(mem[d], i, e);
      OtherWords(mem[d], i, e);
      mem := mem[d := SetWord(mem[d], i, e)];
      owner := owner[t := Table(d, i)];
    }

    /** The entry of a table in place gets the user bit. */
    method OpenTable(d: nat, i: nat)
      requires Valid() && d < |mem| && owner[d] == Dir && i < KERNEL_PDE && Present(Word(mem[d], i))
      modifies this`mem
      ensures Valid() && HasTable(mem, owner, d, i) && SamePages(old(mem), mem, owner, kdir)
      ensures DirEntrySet(old(mem), mem, d, i, Target(Word(old(mem)[d], i))) && User(Word(mem[d], i))
    {
      var e := Word(mem[d], i);
      PdeTarget(mem, owner, kdir, d, i);
      WordFits(e, |mem|);
      PdeFlags(mem, owner, kdir, d, i, WithUser(e));
      FlagsKeepPages(mem, owner, kdir, d, i, WithUser(e));
      WordSame(mem[d], i, WithUser(e));
      OtherWords(mem[d], i, WithUser(e));
      mem := mem[d := SetWord(mem[d], i, WithUser(e))];
    }

    /** The first half of paging_map_page: the directory gets a table for vaddr, or opens the one it has. */
    method EnsureTable(d: nat, vaddr: nat, flags: nat) returns (panic: bool)
      requires Valid() && d < |mem| && owner[d] == Dir && vaddr < WORD && Pdx(vaddr) < KERNEL_PDE
      modifies this`mem, this`owner, pmm.bitmap
      ensures Valid() && (panic ==> mem == old(mem) && owner == old(owner))
      ensures !panic ==> HasTable(mem, owner, d, Pdx(vaddr)) && SamePages(old(mem), mem, old(owner), kdir)
      ensures !panic ==> DirGrown(old(mem), mem, d, Pdx(vaddr), User(flags)) && TableGained(old(owner), owner, d, Pdx(vaddr))
      ensures !panic ==> DataKept(old(mem), old(owner), mem, d)
      ensures panic ==> NoneFree(owner)
    {
      panic := false;
      Indices(vaddr);
      var i := vaddr / 0x40_0000;
      var e := Word(mem[d], i);
      if !Present(e) {
        var pt;
        panic, pt := AllocFrame();
        if panic {
          return;
        }
        LinkTable(d, i, pt, flags);
        return;
      }
      PdeTarget(mem, owner, kdir, d, i);
      if User(flags) {
        OpenTable(d, i);
      } else {
        assert FrameOk(mem, owner, kdir, d) && PdeOk(mem, owner, d, i);
        assert FrameOk(mem, owner, kdir, Target(e));
      }
    }

    /** The second half: the table entry is written. */
    method SetEntry(d: nat, vaddr: nat, v: nat, ghost owner': seq<Owner>)
      requires Valid() && d < |mem| && vaddr < WORD && HasTable(mem, owner, d, Pdx(vaddr)) && v < WORD
      requires EntryChange(mem, owner, owner', d, Pdx(vaddr), Ptx(vaddr), v) && TakenIs(pmm.T(), owner')
      modifies this`mem, this`owner
      ensures Valid() && owner == owner'
      ensures OnePage(old(mem), mem, old(owner), kdir, d, vaddr, v) && DataKept(old(mem), old(owner), mem, d) && mem[d] == old(mem)[d]
    {
      Indices(vaddr);
      var i, j := vaddr / 0x40_0000, vaddr / PAGE % ENTRIES;
      var t := Target(Word(mem[d], i));
      EntrySet(mem, owner, kdir, d, i, t, j, v, owner');
      SetChangesOnePage(mem, owner, kdir, d, i, t, j, v, vaddr);
      mem := mem[t := SetWord(mem[t], j, v)];
      owner := owner';
    }

    /** paging_map_page. The frame is one in hand, for a page not mapped yet, or the one the page has. */
    method MapPage(pd: nat, vaddr: nat, paddr: nat, flags: nat) returns (panic: bool, r: int)
      requires Valid() && pd / PAGE < |mem| && owner[pd / PAGE] == Dir && vaddr < WORD && Pdx(vaddr) < KERNEL_PDE
      requires paddr / PAGE < |mem| && Mappable(mem, owner, pd / PAGE, vaddr, paddr / PAGE)
      modifies this`mem, this`owner, pmm.bitmap
      ensures Valid() && (panic ==> mem == old(mem) && owner == old(owner)) && (!panic ==> r == 0)
      ensures !panic ==> OnePage(old(mem), mem, old(owner), kdir, pd / PAGE, vaddr, Entry(paddr / PAGE, flags))
      ensures !panic ==> DirGrown(old(mem), mem, pd / PAGE, Pdx(vaddr), User(flags)) && DataKept(old(mem), old(owner), mem, pd / PAGE)
      ensures !panic ==> PageGained(old(owner), owner, pd / PAGE, Pdx(vaddr), Ptx(vaddr), paddr / PAGE)
      ensures panic ==> NoneFree(owner)
    {
      hide SamePages, OnePage, EntryChange;
      r := 0;
      var d, f := pd / PAGE, paddr / PAGE;
      ghost var m0, o0 := mem, owner;
      panic := EnsureTable(d, vaddr, flags);
      if panic {
        return;
      }
      var v := Entry(f, flags);
      EntryFits(f, v, |mem|);
      MapEntry(m0, o0, mem, owner, kdir, d, vaddr, f, v);
      ghost var m1, o1 := mem, owner;
      ghost var owner' := owner[f := Page(d, Pdx(vaddr), Ptx(vaddr))];
      SetEntry(d, vaddr, v, owner');
      PagesCompose(m0, o0, m1, o1, mem, kdir, d, vaddr, v);
    }

    /** paging_unmap_page; the frame of a page that was mapped is in hand afterwards. */
    method UnmapPage(pd: nat, vaddr: nat)
      requires Valid() && pd / PAGE < |mem| && owner[pd / PAGE] == Dir && vaddr < WORD && Pdx(vaddr) < KERNEL_PDE
      modifies this`mem, this`owner
      ensures Valid() && OnePage(old(mem), mem, old(owner), kdir, pd / PAGE, vaddr, 0)
      ensures DataKept(old(mem), old(owner), mem, pd / PAGE) && mem[pd / PAGE] == old(mem)[pd / PAGE]
      ensures Mapped(old(mem), pd / PAGE, vaddr) ==> InMem(mem, Target(Pte(old(mem), pd / PAGE, vaddr)))
      ensures owner == if Mapped(old(mem), pd / PAGE, vaddr) then old(owner)[Target(Pte(old(mem), pd / PAGE, vaddr)) := Pending] else old(owner)
    {
      var d := pd / PAGE;
      Indices(vaddr);
      MappedOwner(mem, owner, kdir, d, vaddr);
      var e := Word(mem[d], vaddr / 0x40_0000);
      if !Present(e) {
        NoTable(mem, owner, kdir, d, vaddr);
        return;
      }
      PdeTarget(mem, owner, kdir, d, Pdx(vaddr));
      assert FrameOk(mem, owner, kdir, d) && PdeOk(mem, owner, d, Pdx(vaddr));
      assert FrameOk(mem, owner, kdir, Target(e));
      ghost var owner' := if Mapped(mem, d, vaddr) then owner[Target(Pte(mem, d, vaddr)) := Pending] else owner;
      SetEntry(d, vaddr, 0, owner');
    }

    // ----- whole address spaces -----

    /** paging_create_address_space: an empty space that shares the kernel's upper part. */
    method CreateAddressSpace() returns (panic: bool, pd: nat)
      requires Valid()
      modifies this`mem, this`owner, pmm.bitmap
      ensures Valid() && (panic ==> mem == old(mem) && owner == old(owner))
      ensures !panic ==> pd % PAGE == 0 && pd / PAGE < |mem| && old(owner)[pd / PAGE] == Free && owner == old(owner)[pd / PAGE := Dir]
      ensures !panic ==> OnlySpace(old(owner), owner, pd / PAGE) && (Settled(old(owner)) ==> Settled(owner))
      ensures !panic ==> SamePages(old(mem), mem, old(owner), kdir) && DataKept(old(mem), old(owner), mem, pd / PAGE)
      ensures !panic ==> forall va: nat {:trigger Mapped(mem, pd / PAGE, va)} :: va < WORD && Pdx(va) < KERNEL_PDE ==> !Mapped(mem, pd / PAGE, va)
      ensures !panic ==> forall i :: 0 <= i < KERNEL_PDE ==> Word(mem[pd / PAGE], i) == 0
      ensures panic ==> NoneFree(owner)
    {
      panic, pd := AllocFrame();
      if panic {
        return;
      }
      var d := pd / PAGE;
      forall i | 0 <= i < ENTRIES ensures 0 <= Word(mem[kdir], i) < WORD { assert KernelPdeOk(mem, owner, kdir, i); }
      var b := NewDirectory(mem[kdir]);
      DirMade(mem, owner, kdir, d, b);
      DirKeepsPages(mem, owner, kdir, d, b);
      NothingMapped(mem[d := b], d);
      mem := mem[d := b];
      owner := owner[d := Dir];
    }

    /** The frame is cleared and the kernel's entries are copied. */
    method NewDirectory(kpd: Bytes) returns (b: Bytes)
      requires |kpd| == PAGE && forall i :: 0 <= i < ENTRIES ==> 0 <= Word(kpd, i) < WORD
      ensures |b| == PAGE && forall i :: 0 <= i < ENTRIES ==> Word(b, i) == if i < KERNEL_PDE then 0 else Word(kpd, i)
    {
      b := Zeros(PAGE);
      var i := KERNEL_PDE;
      while i < ENTRIES
        invariant KERNEL_PDE <= i <= ENTRIES && |b| == PAGE
        invariant forall k :: 0 <= k < ENTRIES ==> Word(b, k) == if k < KERNEL_PDE || k >= i then 0 else Word(kpd, k)
      {
        WordSame(b, i, Word(kpd, i));
        OtherWords(b, i, Word(kpd, i));
        b := SetWord(b, i, Word(kpd, i));
        i := i + 1;
      }
    }

    /** The inner loop of paging_destroy_address_space: the pages of table i. */
    method FreePages(d: nat, i: nat, t: nat, ghost o: seq<Owner>)
      requires pmm.Valid() && Owned(mem, o, kdir) && TableAt(mem, o, d, i, t) && o[t] == Table(d, i)
      requires TakenIs(pmm.T(), Released(o, d, i, 0))
      modifies pmm.bitmap
      ensures pmm.Valid() && TakenIs(pmm.T(), Released(o, d, i, ENTRIES))
    {
      var j := 0;
      while j < ENTRIES
        invariant j <= ENTRIES && pmm.Valid() && TakenIs(pmm.T(), Released(o, d, i, j))
      {
        PageReleased(mem, o, kdir, d, i, t, j);
        var pte := Word(mem[t], j);
        if Present(pte) {
          TargetAddress(pte, |mem|);
          pmm.FreeFrame(pte / PAGE * PAGE);
        }
        j := j + 1;
      }
    }

    /** paging_destroy_address_space: every frame of the address space is given back, and no other. */
    method DestroyAddressSpace(pd: nat)
      requires Valid() && pd / PAGE < |mem| && owner[pd / PAGE] == Dir
      modifies this`owner, pmm.bitmap
      ensures Valid() && owner == Without(old(owner), pd / PAGE)
      ensures OnlySpace(old(owner), owner, pd / PAGE) && (Settled(old(owner)) ==> Settled(owner))
    {
      var d := pd / PAGE;
      ghost var o := owner;
      NoneReleased(o, d);
      var i := 0;
      while i < ENTRIES
        invariant i <= ENTRIES && pmm.Valid() && TakenIs(pmm.T(), Released(o, d, i, 0))
      {
        var pde := Word(mem[d], i);
        TableReleased(mem, o, kdir, d, i);
        if Present(pde) && i < KERNEL_PDE {
          FreePages(d, i, Target(pde), o);
          TargetAddress(pde, |mem|);
          pmm.FreeFrame(pde / PAGE * PAGE);
        }
        i := i + 1;
      }
      AllReleased(mem, o, kdir, d);
      pmm.FreeFrame(pd);
      owner := Without(o, d);
      WithoutOwned(mem, o, kdir, d);
      WithoutIsStep(o, d);
    }
  }

  /** The owners after address space d has been taken down. */
  function Without(owner: seq<Owner>, d: int): (r: seq<Owner>)
    ensures |r| == |owner| && forall f :: 0 <= f < |owner| ==> r[f] == if SpaceOf(owner, f) == d && owner[f] != Free then Free else owner[f]
  {
    seq(|owner|, f requires 0 <= f < |owner| => if SpaceOf(owner, f) == d && owner[f] != Free then Free else owner[f])
  }

  /** Taking d down is a step of d. */
  lemma WithoutIsStep(o: seq<Owner>, d: int)
    requires d >= 0
    ensures OnlySpace(o, Without(o, d), d) && (Settled(o) ==> Settled(Without(o, d)))
  {
  }

  /** A frame the take-down of d has reached before entry j of table i. */
  predicate Gone(o: Owner, d: int, i: int, j: int) {
    (o.Table? && o.d == d && o.i < i) || (o.Page? && o.d == d && (o.i < i || (o.i == i && o.j < j)))
  }

  function Released(owner: seq<Owner>, d: int, i: int, j: int): (r: seq<Owner>)
    ensures |r| == |owner| && forall f :: 0 <= f < |owner| ==> r[f] == if Gone(owner[f], d, i, j) then Free else owner[f]
  {
    seq(|owner|, f requires 0 <= f < |owner| => if Gone(owner[f], d, i, j) then Free else owner[f])
  }

  lemma TargetAddress(e: int, n: nat)
    requires 0 <= Target(e) < n
    ensures 0 <= e / PAGE * PAGE && e / PAGE * PAGE / PAGE == Target(e)
  {
  }

  lemma NoneReleased(owner: seq<Owner>, d: int)
    ensures Released(owner, d, 0, 0) == owner
  {
    forall f | 0 <= f < |owner| ensures Released(owner, d, 0, 0)[f] == owner[f] { }
  }

  /** Entry j of table i is behind exactly the frame that becomes free with it. */
  lemma PageReleased(m: seq<Bytes>, owner: seq<Owner>, kdir: int, d: nat, i: nat, t: int, j: nat)
    requires Owned(m, owner, kdir) && TableAt(m, owner, d, i, t) && owner[t] == Table(d, i) && j < ENTRIES
    ensures var f := Target(Word(m[t], j));
            if Present(Word(m[t], j)) then InMem(m, f) && Released(owner, d, i, j + 1) == Released(owner, d, i, j)[f := Free]
            else Released(owner, d, i, j + 1) == Released(owner, d, i, j)
  {
    assert FrameOk(m, owner, kdir, t);
    assert PteOk(m, owner, t, d, i, j);
    forall f | InMem(m, f) ensures owner[f] == Page(d, i, j) ==> Present(Word(m[t], j)) && Target(Word(m[t], j)) == f {
      assert FrameOk(m, owner, kdir, f);
    }
  }

  lemma TableReleased(m: seq<Bytes>, owner: seq<Owner>, kdir: int, d: nat, i: nat)
    requires Owned(m, owner, kdir) && d < |m| && owner[d] == Dir && i < ENTRIES
    ensures var t := Target(Word(m[d], i));
            if Present(Word(m[d], i)) && i < KERNEL_PDE then
              TableAt(m, owner, d, i, t) && owner[t] == Table(d, i) && Released(owner, d, i + 1, 0) == Released(owner, d, i, ENTRIES)[t := Free]
            else Released(owner, d, i + 1, 0) == Released(owner, d, i, 0)
  {
    assert FrameOk(m, owner, kdir, d);
    if i < KERNEL_PDE { assert PdeOk(m, owner, d, i); }
    forall f | InMem(m, f)
      ensures owner[f] == Table(d, i) ==> i < KERNEL_PDE && Present(Word(m[d], i)) && Target(Word(m[d], i)) == f
      ensures owner[f].Page? && owner[f].d == d && owner[f].i == i ==> i < KERNEL_PDE && Present(Word(m[d], i)) && owner[f].j < ENTRIES {
      assert FrameOk(m, owner, kdir, f);
    }
  }

  lemma AllReleased(m: seq<Bytes>, owner: seq<Owner>, kdir: int, d: nat)
    requires Owned(m, owner, kdir) && d < |m| && owner[d] == Dir
    ensures Released(owner, d, ENTRIES, 0)[d := Free] == Without(owner, d)
  {
    forall f | InMem(m, f) ensures Released(owner, d, ENTRIES, 0)[d := Free][f] == Without(owner, d)[f] {
      assert FrameOk(m, owner, kdir, f);
    }
  }

  lemma WithoutOwned(m: seq<Bytes>, owner: seq<Owner>, kdir: int, d: nat)
    requires Owned(m, owner, kdir) && d < |m| && owner[d] == Dir
    ensures Owned(m, Without(owner, d), kdir)
  {
    var o := Without(owner, d);
    forall i | 0 <= i < ENTRIES ensures KernelPdeOk(m, o, kdir, i) { assert KernelPdeOk(m, owner, kdir, i); }
    forall g | InMem(m, g) ensures FrameOk(m, o, kdir, g) {
      assert FrameOk(m, owner, kdir, g);
      match o[g]
      case Dir =>
        forall i | 0 <= i < KERNEL_PDE ensures PdeOk(m, o, g, i) { assert PdeOk(m, owner, g, i); }
      case Table(d1, i1) =>
        forall j | 0 <= j < ENTRIES ensures PteOk(m, o, g, d1, i1, j) { assert PteOk(m, owner, g, d1, i1, j); }
      case _ =>
    }
  }

  lemma NoTable(m: seq<Bytes>, owner: seq<Owner>, kdir: int, d: nat, vaddr: nat)
    requires Owned(m, owner, kdir) && d < |m| && vaddr < WORD && Pdx(vaddr) < ENTRIES && !Present(Word(m[d], Pdx(vaddr)))
    ensures OnePage(m, m, owner, kdir, d, vaddr, 0) && !Mapped(m, d, vaddr)
  {
    Indices(vaddr);
    forall d', va | IsDir(m, owner, kdir, d') && 0 <= va < WORD
      ensures Pte(m, d', va) == if d' == d && PageOf(va) == PageOf(vaddr) then 0 else Pte(m, d', va) {
      Indices(va);
    }
  }

  lemma DirKeepsPages(m: seq<Bytes>, owner: seq<Owner>, kdir: int, f: int, b: Bytes)
    requires Owned(m, owner, kdir) && InMem(m, f) && owner[f] == Pending && |b| == PAGE
    ensures SamePages(m, m[f := b], owner, kdir)
  {
    forall d', va | IsDir(m, owner, kdir, d') && 0 <= va < WORD ensures Pte(m[f := b], d', va) == Pte(m, d', va) {
      PteAfterData(m, owner, kdir, f, b, d', va);
    }
  }

  lemma NothingMapped(m: seq<Bytes>, d: nat)
    requires d < |m| && |m[d]| == PAGE && forall i :: 0 <= i < KERNEL_PDE ==> Word(m[d], i) == 0
    ensures forall va: nat {:trigger Mapped(m, d, va)} :: va < WORD && Pdx(va) < KERNEL_PDE ==> !Mapped(m, d, va)
  {
    forall va: nat | va < WORD && Pdx(va) < KERNEL_PDE ensures !Mapped(m, d, va) { Indices(va); }
  }

  lemma MapEntry(m0: seq<Bytes>, o0: seq<Owner>, m: seq<Bytes>, owner: seq<Owner>, kdir: int, d: nat, va: nat, f: int, v: int)
    requires Owned(m0, o0, kdir) && Owned(m, owner, kdir) && |m| == |m0| && d < |m| && o0[d] == Dir && va < WORD && Pdx(va) < KERNEL_PDE
    requires InMem(m, f) && Mappable(m0, o0, d, va, f) && SamePages(m0, m, o0, kdir) && TableGained(o0, owner, d, Pdx(va))
    requires Present(v) && Target(v) == f
    ensures EntryChange(m, owner, owner[f := Page(d, Pdx(va), Ptx(va))], d, Pdx(va), Ptx(va), v) && owner[f] != Free
  {
    MappedOwner(m0, o0, kdir, d, va);
    MappedOwner(m, owner, kdir, d, va);
    assert Pte(m, d, va) == Pte(m0, d, va);
  }

  lemma PagesCompose(m0: seq<Bytes>, o0: seq<Owner>, m1: seq<Bytes>, o1: seq<Owner>, m2: seq<Bytes>, kdir: int, d: nat, va: nat, v: int)
    requires Owned(m0, o0, kdir) && Owned(m1, o1, kdir) && Sized(m2) && |m0| == |m1| == |m2| && va < WORD && TableGained(o0, o1, d, Pdx(va))
    requires SamePages(m0, m1, o0, kdir) && OnePage(m1, m2, o1, kdir, d, va, v)
    ensures OnePage(m0, m2, o0, kdir, d, va, v)
  {
    forall d', va' | IsDir(m0, o0, kdir, d') && 0 <= va' < WORD
      ensures Pte(m2, d', va') == if d' == d && PageOf(va') == PageOf(va) then v else Pte(m0, d', va') {
      assert IsDir(m1, o1, kdir, d');
      assert Pte(m1, d', va') == Pte(m0, d', va');
    }
  }

  /** What a page may be mapped to. */
  ghost predicate Mappable(m: seq<Bytes>, owner: seq<Owner>, d: nat, va: nat, f: int)
    requires Sized(m) && |owner| == |m| && d < |m| && va < WORD && InMem(m, f)
  {
    if Mapped(m, d, va) then Target(Pte(m, d, va)) == f else owner[f] == Pending
  }

  /** The owners after entry (d, i, j) has been set to v. */
  ghost predicate EntryChange(m: seq<Bytes>, owner: seq<Owner>, owner': seq<Owner>, d: nat, i: nat, j: nat, v: int) {
    && |owner'| == |owner| == |m|
    && (forall h :: InMem(m, h) ==> owner'[h] == owner[h] || (Loose(owner[h], d, i, j) && Loose(owner'[h], d, i, j)))
    && (Present(v) ==> InMem(m, Target(v)) && owner'[Target(v)] == Page(d, i, j))
    && (forall h :: InMem(m, h) && owner'[h] == Page(d, i, j) ==> Present(v) && Target(v) == h)
  }

  lemma SetChangesOnePage(m: seq<Bytes>, owner: seq<Owner>, kdir: int, d: int, i: int, t: int, j: nat, v: nat, vaddr: nat)
    requires Owned(m, owner, kdir) && TableAt(m, owner, d, i, t) && owner[t] == Table(d, i) && j < ENTRIES && v < WORD
    requires vaddr < WORD && i == Pdx(vaddr) && j == Ptx(vaddr)
    ensures OnePage(m, m[t := SetWord(m[t], j, v)], owner, kdir, d, vaddr, v)
  {
    Indices(vaddr);
    forall d', va | IsDir(m, owner, kdir, d') && 0 <= va < WORD
      ensures Pte(m[t := SetWord(m[t], j, v)], d', va) == if d' == d && PageOf(va) == PageOf(vaddr) then v else Pte(m, d', va) {
      Indices(va);
      PteAfterSet(m, owner, kdir, d, i, t, j, v, d', va);
    }
  }

  /** A table for entry i of directory d may have been taken from the free frames. */
  ghost predicate TableGained(owner: seq<Owner>, owner': seq<Owner>, d: nat, i: nat) {
    |owner'| == |owner| && forall h :: 0 <= h < |owner| ==> owner'[h] == owner[h] || (owner[h] == Free && owner'[h] == Table(d, i))
  }

  /** Frame f has become the page behind entry (d, i, j); a table may have been added for it. */
  ghost predicate PageGained(owner: seq<Owner>, owner': seq<Owner>, d: nat, i: nat, j: nat, f: int) {
    && |owner'| == |owner| && 0 <= f < |owner| && owner'[f] == Page(d, i, j)
    && forall h :: 0 <= h < |owner| && h != f ==> owner'[h] == owner[h] || (owner[h] == Free && owner'[h] == Table(d, i))
  }

  /** The entries of directory d but number i are as they were; that one is present now, and open to the
      user if it was or if asked. */
  ghost predicate DirGrown(m: seq<Bytes>, m': seq<Bytes>, d: nat, i: nat, user: bool)
    requires Sized(m) && Sized(m')
  {
    && |m'| == |m| && d < |m| && i < ENTRIES
    && (forall k :: 0 <= k < ENTRIES && k != i ==> Word(m'[d], k) == Word(m[d], k))
    && Present(Word(m'[d], i)) && User(Word(m'[d], i)) == ((Present(Word(m[d], i)) && User(Word(m[d], i))) || user)
  }

  /** Present and writable, and open to the user if asked. */
  function TableFlags(user: bool): (r: nat)
    ensures User(r) == user && Writable(r) && Present(r)
  {
    if user then 7 else 3
  }

  /** The entry of a table: present and writable, and open to the user if asked for. */
  lemma TableEntry(frame: nat, user: bool)
    ensures Entry(frame, TableFlags(user)) == frame * 4096 + if user then 7 else 3
  {
    EntryIs(frame, TableFlags(user));
  }

  lemma EntryFits(t: nat, e: nat, n: nat)
    requires t < n <= 0x10_0000 && Target(e) == t
    ensures e < WORD
  {
  }

  lemma WordFits(e: int, n: nat)
    requires 0 <= Target(e) < n <= 0x10_0000
    ensures 0 <= e < WORD
  {
  }

  lemma OtherWords(b: Bytes, i: nat, v: nat)
    requires |b| == PAGE && i < ENTRIES
    ensures forall k :: 0 <= k < ENTRIES && k != i ==> Word(SetWord(b, i, v), k) == Word(b, k)
  {
    forall k | 0 <= k < ENTRIES && k != i ensures Word(SetWord(b, i, v), k) == Word(b, k) { WordOther(b, i, v, k); }
  }

  /** From m to m' directory d got an entry i for frame t, and nothing else has changed but frame t. */
  ghost predicate DirEntrySet(m: seq<Bytes>, m': seq<Bytes>, d: int, i: int, t: int)
    requires Sized(m) && Sized(m')
  {
    && |m'| == |m| && InMem(m, d) && 0 <= i < ENTRIES && Present(Word(m'[d], i)) && Target(Word(m'[d], i)) == t
    && (forall k :: 0 <= k < ENTRIES && k != i ==> Word(m'[d], k) == Word(m[d], k))
    && (forall f :: 0 <= f < |m| && f != d && f != t ==> m'[f] == m[f])
  }

  lemma TableKeepsPages(m: seq<Bytes>, owner: seq<Owner>, kdir: int, d: int, i: nat, t: int, e: nat)
    requires Owned(m, owner, kdir) && InMem(m, d) && owner[d] == Dir && i < KERNEL_PDE && !Present(Word(m[d], i))
    requires InMem(m, t) && owner[t] == Pending && Present(e) && Target(e) == t && e < WORD
    ensures var m1 := m[t := Zeros(PAGE)]; SamePages(m, m1[d := SetWord(m1[d], i, e)], owner, kdir)
  {
    var m1 := m[t := Zeros(PAGE)];
    DataWritten(m, owner, kdir, t, Zeros(PAGE));
    forall d', va | IsDir(m, owner, kdir, d') && 0 <= va < WORD ensures Pte(m1[d := SetWord(m1[d], i, e)], d', va) == Pte(m, d', va) {
      PteAfterData(m, owner, kdir, t, Zeros(PAGE), d', va);
      PteAfterPde(m1, owner, kdir, d, i, e, d', va);
    }
  }

  lemma FlagsKeepPages(m: seq<Bytes>, owner: seq<Owner>, kdir: int, d: int, i: nat, e: nat)
    requires Owned(m, owner, kdir) && InMem(m, d) && owner[d] == Dir && i < KERNEL_PDE && Present(Word(m[d], i))
    requires Present(e) && Target(e) == Target(Word(m[d], i)) && e < WORD
    ensures SamePages(m, m[d := SetWord(m[d], i, e)], owner, kdir)
  {
    PdeTarget(m, owner, kdir, d, i);
    forall d', va | IsDir(m, owner, kdir, d') && 0 <= va < WORD ensures Pte(m[d := SetWord(m[d], i, e)], d', va) == Pte(m, d', va) {
      PteAfterPde(m, owner, kdir, d, i, e, d', va);
    }
  }

  /** Entry i of directory d leads to a table of that directory. */
  ghost predicate HasTable(m: seq<Bytes>, owner: seq<Owner>, d: int, i: int)
    requires Sized(m) && |owner| == |m|
  {
    InMem(m, d) && 0 <= i < ENTRIES && TableAt(m, owner, d, i, Target(Word(m[d], i))) && owner[Target(Word(m[d], i))] == Table(d, i)
  }

  /** Page number p is there for the user. */
  predicate PageThere(m: seq<Bytes>, d: nat, p: nat, write: bool)
    requires d < |m| && |m[d]| == PAGE
  {
    p * PAGE < WORD && UserPage(m, d, p * PAGE, write)
  }

  ghost predicate PagesThere(m: seq<Bytes>, d: nat, first: nat, end: nat, write: bool)
    requires d < |m| && |m[d]| == PAGE
  {
    forall p: nat {:trigger PageThere(m, d, p, write)} :: first <= p < end ==> PageThere(m, d, p, write)
  }

  /** Every page of a non-empty range is there for the user. */
  ghost predicate RangeAllowed(m: seq<Bytes>, d: nat, vaddr: nat, size: nat, write: bool)
    requires d < |m| && |m[d]| == PAGE && size > 0
  {
    PagesThere(m, d, vaddr / PAGE, (vaddr + size - 1) / PAGE + 1, write)
  }

  /** That is: the user may access every byte of the range, and write it if asked. */
  lemma RangeIs(m: seq<Bytes>, d: nat, vaddr: nat, size: nat, write: bool)
    requires d < |m| && |m[d]| == PAGE && 0 < size && vaddr + size <= 0x1_0000_0000
    ensures RangeAllowed(m, d, vaddr, size, write) <==> forall va :: vaddr <= va < vaddr + size ==> UserPage(m, d, va, write)
  {
    hide UserPage;
    if RangeAllowed(m, d, vaddr, size, write) {
      forall va | vaddr <= va < vaddr + size ensures UserPage(m, d, va, write) {
        PageAddress(m, d, va, write);
        PageBetween(vaddr, va, vaddr + size - 1);
        assert PageThere(m, d, va / PAGE, write);
      }
    } else {
      var p: nat :| vaddr / PAGE <= p < (vaddr + size - 1) / PAGE + 1 && !PageThere(m, d, p, write);
      var va := if p * PAGE < vaddr then vaddr else p * PAGE;
      AddressIn(vaddr, size, p, va);
      PageAddress(m, d, va, write);
    }
  }

  lemma PageBetween(a: nat, b: nat, c: nat)
    requires a <= b <= c
    ensures a / PAGE <= b / PAGE <= c / PAGE
  {
  }

  lemma AddressIn(vaddr: nat, size: nat, p: nat, va: nat)
    requires size > 0 && vaddr / PAGE <= p < (vaddr + size - 1) / PAGE + 1 && va == if p * PAGE < vaddr then vaddr else p * PAGE
    ensures vaddr <= va < vaddr + size && va / PAGE == p
  {
  }

  lemma PageAddress(m: seq<Bytes>, d: nat, va: nat, write: bool)
    requires d < |m| && |m[d]| == PAGE && va < WORD
    ensures va / PAGE * PAGE < WORD && UserPage(m, d, va / PAGE * PAGE, write) == UserPage(m, d, va, write)
  {
    var p := va / PAGE * PAGE;
    assert p / 0x40_0000 == va / 0x40_0000 && p / PAGE == va / PAGE;
  }
}
