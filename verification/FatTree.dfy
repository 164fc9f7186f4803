/** Deleting files, making and removing directories. */
module FatTree {
  import opened FatTable
  import opened Dirent
  import opened FatInvariant
  import opened FatContent
  import opened FatDisk
  import opened FatPath
  import opened FatDirectory
  import opened FatUpdate
  import opened FatVolume
  import opened FatFiles
  import opened FatWrite

  // ----- taking an entry out -----

  /** The volume after the entry in slot x has been marked as deleted and its chain freed. */
  ghost function Without(g: Geo, v: View, x: Slot, chain: seq<int>): View
    requires g.Ok() && |v.cl| == g.max && (x.a == 0 || 2 <= x.a < g.max) && 0 <= x.k < g.Slots(x.a)
    requires |v.cl[x.a]| == SIZE * g.Slots(x.a)
  {
    Store(g, v.(t := FreedT(v.t, chain)), x, Ent(g, v, x)[0 := DELETED])
  }

  /** The witness without the chain headed by f (0: there is none). */
  ghost function WithoutW(g: Geo, w: Witness, f: int): Witness
    requires |w.chain| == |w.home| == |w.isDir| == g.max
  {
    if f == 0 then w else DetachW(g, w, f)
  }

  /** An entry that is not the one of a non-empty directory can be taken out. */
  lemma TakeOut(g: Geo, v: View, w: Witness, d: int, name: Bytes, x: Slot)
    requires Inv(g, v, w) && Named(g, v, w, d, name, x)
    requires var f := First(Ent(g, v, x)); 2 <= f < g.max && w.isDir[f] ==> Barren(g, v, w, f)
    ensures var f := First(Ent(g, v, x)); f == 0 || 2 <= f < g.max
    ensures var e, w' := Ent(g, v, x), WithoutW(g, w, First(Ent(g, v, x)));
            var v' := Without(g, v, x, EntryChain(g, w, e));
            Inv(g, v', w') && Others(g, v, w, v', w', First(e), x) && w'.lost == w.lost
  {
    hide Tree, Strays;
    var e := Ent(g, v, x);
    var f := First(e);
    assert SlotOk(g, v, w, NONE, x);
    OthersRefl(g, v, w, f, x);
    if f == 0 {
      Exempt(g, v, w, x);
      assert FreedT(v.t, []) == v.t;
      UsedFrontFull(g, v, w, x, x, []);
      Kill(g, v, w, x, [], e[0 := DELETED]);
      OthersStore(g, v, w, v, w, f, x, e[0 := DELETED]);
    } else {
      TakeOutChain(g, v, w, x);
    }
  }

  lemma TakeOutChain(g: Geo, v: View, w: Witness, x: Slot)
    requires Inv(g, v, w) && LiveAt(g, v, w, NONE, x) && First(Ent(g, v, x)) != 0
    requires var f := First(Ent(g, v, x)); 2 <= f < g.max && w.isDir[f] ==> Barren(g, v, w, f)
    ensures var f := First(Ent(g, v, x)); 2 <= f < g.max
    ensures var f := First(Ent(g, v, x));
            var v' := Without(g, v, x, w.chain[f]);
            Inv(g, v', DetachW(g, w, f)) && Others(g, v, w, v', DetachW(g, w, f), f, x) && DetachW(g, w, f).lost == w.lost
  {
    hide Tree, Strays;
    var e := Ent(g, v, x);
    var f := First(e);
    Detach(g, v, w, x);
    BarrenTree(g, v, w, f);
    var w', p := DetachW(g, w, f), w.chain[f];
    OthersDetach(g, v, w, f, x);
    FreePend(g, v, w', x, p);
    var v1 := v.(t := FreedT(v.t, p));
    OthersPend(g, v, w, v, v1, w', f, x);
    UsedFrontFull(g, v1, w', x, x, []);
    Kill(g, v1, w', x, [], e[0 := DELETED]);
    OthersStore(g, v, w, v1, w', f, x, e[0 := DELETED]);
  }

  lemma NameGone(g: Geo, v: View, w: Witness, d: int, name: Bytes, x: Slot)
    requires Inv(g, v, w) && Named(g, v, w, d, name, x)
    requires var f := First(Ent(g, v, x)); f == 0 || 2 <= f < g.max
    requires Inv(g, Without(g, v, x, EntryChain(g, w, Ent(g, v, x))), WithoutW(g, w, First(Ent(g, v, x))))
    ensures Lookup(g, Without(g, v, x, EntryChain(g, w, Ent(g, v, x))), WithoutW(g, w, First(Ent(g, v, x))), d, name) == NONE
  {
    var e := Ent(g, v, x);
    var f := First(e);
    var v1 := v.(t := FreedT(v.t, EntryChain(g, w, e)));
    var v', w' := Without(g, v, x, EntryChain(g, w, e)), WithoutW(g, w, f);
    forall s ensures !Named(g, v', w', d, name, s) {
      assert PairOk(g, v, w, NONE, s, x);
      if Named(g, v', w', d, name, s) {
        if f != 0 { DetachSlots(g, v, w, f, s); }
        StoreEnt(g, v1, w, x, e[0 := DELETED], s);
      }
    }
  }

  /** From (v0, w0) to (v, w) the file or directory the path denoted has been removed: its entry is marked
      as deleted, its clusters are free, and nothing else has changed or is lost. */
  ghost predicate Removed(g: Geo, v0: View, w0: Witness, v: View, w: Witness, path: Bytes)
    requires Shape(g, v0, w0) && Shape(g, v, w)
  {
    var x := FileSlot(g, v0, w0, path);
    && x != NONE && Resolve(g, v, w, path) == Resolve(g, v0, w0, path) && FileSlot(g, v, w, path) == NONE
    && v.t == FreedT(v0.t, EntryChain(g, w0, Ent(g, v0, x)))
    && Ent(g, v, x) == Ent(g, v0, x)[0 := 0xE5]
    && Others(g, v0, w0, v, w, First(Ent(g, v0, x)), x) && w.lost == w0.lost
  }

  lemma RemoveDone(g: Geo, v: View, w: Witness, path: Bytes, d: int, name: Bytes, x: Slot) returns (w': Witness)
    requires Inv(g, v, w) && Named(g, v, w, d, name, x) && Resolve(g, v, w, path) == At(d, name)
    requires var f := First(Ent(g, v, x)); 2 <= f < g.max && w.isDir[f] ==> Barren(g, v, w, f)
    ensures Inv(g, Without(g, v, x, EntryChain(g, w, Ent(g, v, x))), w')
    ensures Removed(g, v, w, Without(g, v, x, EntryChain(g, w, Ent(g, v, x))), w', path)
  {
    TakeOut(g, v, w, d, name, x);
    NameGone(g, v, w, d, name, x);
    w' := WithoutW(g, w, First(Ent(g, v, x)));
    var v' := Without(g, v, x, EntryChain(g, w, Ent(g, v, x)));
    LookupUnique(g, v, w, d, name, x);
    WalkToParent(g, v, w, v', w', First(Ent(g, v, x)), x, 0, Comps(path, 0));
  }

  /** The chain of an entry is what fat_free_chain frees from its first cluster. */
  lemma EntryFreed(g: Geo, v: View, w: Witness, x: Slot)
    requires Inv(g, v, w) && LiveAt(g, v, w, NONE, x)
    ensures var f := First(Ent(g, v, x)); f == 0 || 2 <= f < g.max
    ensures var e := Ent(g, v, x);
            if First(e) == 0 then FreedT(v.t, EntryChain(g, w, e)) == v.t
            else InRange(v.t) && Cleared(v.t, First(e)) == FreedT(v.t, EntryChain(g, w, e))
  {
    var e := Ent(g, v, x);
    assert SlotOk(g, v, w, NONE, x);
    if First(e) != 0 {
      TableInRange(g, v, w, NONE, []);
      assert HeadOk(g, v, w, NONE, First(e));
      forall c | 0 <= c < |v.t| ensures Cleared(v.t, First(e))[c] == FreedT(v.t, w.chain[First(e)])[c] {
        ChainCleared(v.t, w.chain[First(e)], c);
      }
    }
  }

  // ----- fat_delete_file -----

  /** The chain of an entry is freed, if it has one. */
  method FreeEntry(vol: Volume, e: Bytes, ghost x: Slot)
    requires vol.Valid() && LiveAt(vol.l.G(), vol.V(), vol.w, NONE, x) && e == Ent(vol.l.G(), vol.V(), x)
    modifies vol.fat.buf
    ensures vol.Ready() && vol.V() == old(vol.V()).(t := FreedT(old(vol.V()).t, EntryChain(vol.l.G(), vol.w, e)))
  {
    EntryFreed(vol.l.G(), vol.V(), vol.w, x);
    if First(e) >= 2 {
      vol.fat.FreeChain(First(e));
    }
  }

  /** fat_delete_file */
  method DeleteFile(vol: Volume, path: Bytes) returns (r: int)
    requires vol.Valid()
    modifies vol`w, vol.fat.buf, vol.dsk
    ensures r == 0 || r == 1 || r == 2 || r == 3 || r == 4
    ensures r == 0 ==> vol.Valid() && vol.Synced() && Removed(vol.l.G(), old(vol.V()), old(vol.w), vol.V(), vol.w, path)
    ensures r == 0 ==> !IsDirectory(Ent(vol.l.G(), old(vol.V()), FileSlot(vol.l.G(), old(vol.V()), old(vol.w), path)))
    ensures r >= 2 ==> vol.Valid() && vol.V() == old(vol.V()) && vol.w == old(vol.w)
    ensures r == 2 ==> FileSlot(vol.l.G(), vol.V(), vol.w, path) == NONE
    ensures r == 3 ==> FileSlot(vol.l.G(), vol.V(), vol.w, path) != NONE && IsDirectory(Ent(vol.l.G(), vol.V(), FileSlot(vol.l.G(), vol.V(), vol.w, path)))
    ensures r == 4 ==> Resolve(vol.l.G(), vol.V(), vol.w, path) == Root
    ensures r == 1 ==> vol.dsk.faulty || NoWay(vol.l.G(), old(vol.V()), old(vol.w), path)
  {
    var d, target, isRoot;
    r, d, target, isRoot := ResolvePath(vol, path);
    if r != 0 {
      return 1;
    }
    if isRoot {
      return 4;
    }
    var slot, e;
    ghost var x;
    r, slot, e, x := Locate(vol, d, target);
    if r != 0 {
      return;
    }
    if e[11] / 16 % 2 == 1 {
      return 3;
    }
    r := RemoveFile(vol, slot, e, path, d, target, x);
  }

  /** Free the chain, mark the entry as deleted, write the tables back. */
  method RemoveFile(vol: Volume, slot: DirSlot, e: Bytes, ghost path: Bytes, ghost d: int, ghost name: Bytes, ghost x: Slot) returns (r: int)
    requires vol.Valid() && Named(vol.l.G(), vol.V(), vol.w, d, name, x) && Resolve(vol.l.G(), vol.V(), vol.w, path) == At(d, name)
    requires Places(vol.l, slot, x) && e == Ent(vol.l.G(), vol.V(), x) && !IsDirectory(e)
    modifies vol`w, vol.fat.buf, vol.dsk
    ensures r == 0 || r == 1
    ensures r == 0 ==> vol.Valid() && vol.Synced() && Removed(vol.l.G(), old(vol.V()), old(vol.w), vol.V(), vol.w, path)
    ensures r == 1 ==> vol.dsk.faulty
  {
    hide Volume.V, Volume.Synced, Areas, Removed;
    assert SlotOk(vol.l.G(), vol.V(), vol.w, NONE, x);
    ghost var w' := RemoveDone(vol.l.G(), vol.V(), vol.w, path, d, name, x);
    FreeEntry(vol, e, x);
    var err := vol.StoreEntry(slot, e[0 := DELETED], x);
    if err {
      return 1;
    }
    err := vol.Flush();
    if err {
      return 1;
    }
    vol.w := w';
    r := 0;
  }

  // ----- fat_rmdir -----

  /** What dir_is_empty passes over. */
  predicate Ignored(e: Bytes)
    requires |e| == SIZE
  {
    IsFree(e) || e[11] == ATTR_LONG_NAME || IsDots(e)
  }

  lemma IgnoredBytes(e: Bytes)
    requires |e| == 32
    ensures Ignored(e) <==> e[0] == 0 || e[0] == 0xE5 || e[11] == 0x0F || e[..2] == [0x2E, 0x20] || e[..3] == [0x2E, 0x2E, 0x20]
  {
  }

  ghost predicate AllIgnored(b: Bytes, n: nat)
    requires SIZE * n <= |b|
  {
    forall k :: 0 <= k < n ==> Ignored(EntryAt(b, k))
  }

  method SectorIsEmpty(sec: Bytes) returns (empty: bool)
    requires |sec| == SECTOR
    ensures empty <==> AllIgnored(sec, 16)
  {
    var i := 0;
    while i < 16
      invariant 0 <= i <= 16 && AllIgnored(sec, i)
    {
      if !Ignored(EntryAt(sec, i)) {
        return false;
      }
      i := i + 1;
    }
    return true;
  }

  lemma IgnoredMore(b: Bytes, s: nat)
    requires SECTOR * (s + 1) <= |b| && AllIgnored(b, 16 * s)
    ensures AllIgnored(b, 16 * (s + 1)) <==> AllIgnored(b[SECTOR * s..SECTOR * s + SECTOR], 16)
  {
    var sec := b[SECTOR * s..SECTOR * s + SECTOR];
    forall i | 0 <= i < 16 ensures EntryAt(sec, i) == EntryAt(b, 16 * s + i) { SliceEntry(b, s, i); }
    if AllIgnored(sec, 16) {
      forall k | 16 * s <= k < 16 * (s + 1) ensures Ignored(EntryAt(b, k)) { assert EntryAt(sec, k - 16 * s) == EntryAt(b, 16 * s + (k - 16 * s)); }
    }
  }

  lemma IgnoredLess(b: Bytes, m: nat, n: nat)
    requires m <= n && SIZE * n <= |b|
    ensures AllIgnored(b, n) ==> AllIgnored(b, m)
  {
  }

  method ClusterIsEmpty(vol: Volume, c: nat) returns (err: bool, empty: bool)
    requires vol.Ready() && 2 <= c < vol.l.Clusters()
    ensures !err ==> (empty <==> AllIgnored(vol.V().cl[c], vol.l.G().perCluster))
    ensures err ==> vol.dsk.faulty
  {
    ghost var b := vol.V().cl[c];
    var s := 0;
    while s < vol.l.sectorsPerCluster
      invariant s <= vol.l.sectorsPerCluster && AllIgnored(b, 16 * s)
    {
      SectorSlice(vol.l, vol.dsk.data, c, s);
      var sec;
      err, sec := vol.dsk.ReadLba(vol.l.DataStart() + (c - 2) * vol.l.sectorsPerCluster + s, 1);
      if err {
        return true, false;
      }
      IgnoredMore(b, s);
      empty := SectorIsEmpty(sec);
      if !empty {
        IgnoredLess(b, 16 * (s + 1), vol.l.G().perCluster);
        return false, false;
      }
      s := s + 1;
    }
    return false, true;
  }

  /** Every entry of directory d is passed over. */
  ghost predicate NothingIn(g: Geo, v: View, w: Witness, d: int)
    requires Shape(g, v, w)
  {
    forall s :: InDir(g, w, d, s) ==> Ignored(Ent(g, v, s))
  }

  ghost predicate IgnoredTo(g: Geo, v: View, w: Witness, d: int, j: int)
    requires Shape(g, v, w)
  {
    forall s :: InDir(g, w, d, s) && AreaPos(w, s.a) < j ==> Ignored(Ent(g, v, s))
  }

  /** dir_is_empty: 1, 0, or -1 on a disk error. */
  method DirIsEmpty(vol: Volume, d: nat) returns (r: int)
    requires vol.Valid() && IsDirNo(vol.l.G(), vol.w, d) && d != 0
    ensures r == -1 || r == 0 || r == 1
    ensures r != -1 ==> (r == 1 <==> NothingIn(vol.l.G(), vol.V(), vol.w, d))
    ensures r == -1 ==> vol.dsk.faulty
  {
    ghost var g, v, w := vol.l.G(), vol.V(), vol.w;
    NoCluster(g, v, w, d);
    var cluster: int := d;
    ghost var j: nat := 0;
    while cluster >= 2 && cluster < EOC
      invariant j <= AreaCount(w, d) && IgnoredTo(g, v, w, d, j)
      invariant if j < AreaCount(w, d) then cluster == AreaAt(w, d, j) && 2 <= cluster < EOC else !(2 <= cluster < EOC)
      decreases AreaCount(w, d) - j
    {
      AreaAtOk(g, v, w, d, j);
      var err, empty := ClusterIsEmpty(vol, cluster);
      if err {
        return -1;
      }
      if !empty {
        FullCluster(g, v, w, d, j);
        return 0;
      }
      EmptyCluster(g, v, w, d, j);
      cluster := vol.NextArea(d, cluster, j);
      j := j + 1;
    }
    AllClusters(g, v, w, d);
    return 1;
  }

  lemma NoCluster(g: Geo, v: View, w: Witness, d: int)
    requires Inv(g, v, w) && IsDirNo(g, w, d) && d != 0
    ensures AreaCount(w, d) > 0 && AreaAt(w, d, 0) == d && IgnoredTo(g, v, w, d, 0)
  {
    ScanStart(g, v, w, d, seq(NAME_LEN, _ => 0));
    forall s | InDir(g, w, d, s) ensures AreaPos(w, s.a) >= 0 { DirAreaIs(g, v, w, d, s.a); }
  }

  lemma AllClusters(g: Geo, v: View, w: Witness, d: int)
    requires Inv(g, v, w) && IsDirNo(g, w, d) && IgnoredTo(g, v, w, d, AreaCount(w, d))
    ensures NothingIn(g, v, w, d)
  {
    forall s | InDir(g, w, d, s) ensures Ignored(Ent(g, v, s)) { DirAreaIs(g, v, w, d, s.a); }
  }

  lemma EmptyCluster(g: Geo, v: View, w: Witness, d: int, j: nat)
    requires Inv(g, v, w) && IsDirNo(g, w, d) && d != 0 && j < AreaCount(w, d) && 2 <= AreaAt(w, d, j) < g.max
    requires IgnoredTo(g, v, w, d, j) && AllIgnored(v.cl[AreaAt(w, d, j)], g.perCluster)
    ensures IgnoredTo(g, v, w, d, j + 1)
  {
    forall s | InDir(g, w, d, s) && AreaPos(w, s.a) < j + 1 ensures Ignored(Ent(g, v, s)) { DirAreaIs(g, v, w, d, s.a); }
  }

  lemma FullCluster(g: Geo, v: View, w: Witness, d: int, j: nat)
    requires Inv(g, v, w) && IsDirNo(g, w, d) && d != 0 && j < AreaCount(w, d) && 2 <= AreaAt(w, d, j) < g.max
    requires !AllIgnored(v.cl[AreaAt(w, d, j)], g.perCluster)
    ensures !NothingIn(g, v, w, d)
  {
    AreaAtOk(g, v, w, d, j);
    var a := AreaAt(w, d, j);
    var k :| 0 <= k < g.perCluster && !Ignored(EntryAt(v.cl[a], k));
    assert InDir(g, w, d, Slot(a, k)) && !Ignored(Ent(g, v, Slot(a, k)));
  }

  /** The directory a path names, by its first cluster. */
  ghost function DirectoryAt(g: Geo, v: View, w: Witness, path: Bytes): int
    requires Shape(g, v, w) && FileSlot(g, v, w, path) != NONE
  {
    First(Ent(g, v, FileSlot(g, v, w, path)))
  }

  /** fat_rmdir */
  method Rmdir(vol: Volume, path: Bytes) returns (r: int)
    requires vol.Valid()
    modifies vol`w, vol.fat.buf, vol.dsk
    ensures r == 0 || r == 1 || r == 2 || r == 3 || r == 5 || r == 6
    ensures r == 0 ==> vol.Valid() && vol.Synced() && Removed(vol.l.G(), old(vol.V()), old(vol.w), vol.V(), vol.w, path)
    ensures r == 0 ==> NothingIn(vol.l.G(), old(vol.V()), old(vol.w), DirectoryAt(vol.l.G(), old(vol.V()), old(vol.w), path))
    ensures r >= 2 ==> vol.Valid() && vol.V() == old(vol.V()) && vol.w == old(vol.w)
    ensures r == 2 ==> FileSlot(vol.l.G(), vol.V(), vol.w, path) == NONE
    ensures r == 3 || r == 5 ==> FileSlot(vol.l.G(), vol.V(), vol.w, path) != NONE
    ensures r == 3 ==> !IsDirectory(Ent(vol.l.G(), vol.V(), FileSlot(vol.l.G(), vol.V(), vol.w, path)))
    ensures r == 5 ==> !NothingIn(vol.l.G(), vol.V(), vol.w, DirectoryAt(vol.l.G(), vol.V(), vol.w, path))
    ensures r == 6 ==> Resolve(vol.l.G(), vol.V(), vol.w, path) == Root
    ensures r == 1 ==> vol.dsk.faulty || NoWay(vol.l.G(), old(vol.V()), old(vol.w), path)
  {
    var d, target, isRoot;
    r, d, target, isRoot := ResolvePath(vol, path);
    if r != 0 {
      return 1;
    }
    if isRoot {
      return 6;
    }
    var slot, e;
    ghost var x;
    r, slot, e, x := Locate(vol, d, target);
    if r != 0 {
      return;
    }
    if e[11] / 16 % 2 == 0 {
      return 3;
    }
    SubDirectory(vol.l.G(), vol.V(), vol.w, x);
    if First(e) < 2 {
      return 4;
    }
    var empty := DirIsEmpty(vol, First(e));
    if empty < 0 {
      return 1;
    }
    if empty == 0 {
      return 5;
    }
    r := RemoveDir(vol, slot, e, path, d, target, x);
  }

  /** Free the chain, write the tables back, mark the entry as deleted. */
  method RemoveDir(vol: Volume, slot: DirSlot, e: Bytes, ghost path: Bytes, ghost d: int, ghost name: Bytes, ghost x: Slot) returns (r: int)
    requires vol.Valid() && Named(vol.l.G(), vol.V(), vol.w, d, name, x) && Resolve(vol.l.G(), vol.V(), vol.w, path) == At(d, name)
    requires Places(vol.l, slot, x) && e == Ent(vol.l.G(), vol.V(), x) && NothingIn(vol.l.G(), vol.V(), vol.w, First(e))
    modifies vol`w, vol.fat.buf, vol.dsk
    ensures r == 0 || r == 1
    ensures r == 0 ==> vol.Valid() && vol.Synced() && Removed(vol.l.G(), old(vol.V()), old(vol.w), vol.V(), vol.w, path)
    ensures r == 1 ==> vol.dsk.faulty
  {
    hide Volume.Synced, Areas;
    ghost var w' := RemoveDone(vol.l.G(), vol.V(), vol.w, path, d, name, x);
    FreeEntry(vol, e, x);
    var err := FlushAndStore(vol, slot, e[0 := DELETED], x);
    if err {
      return 1;
    }
    vol.w := w';
    r := 0;
  }

  // ----- fat_mkdir -----

  function Spaces(n: nat): (r: Bytes) ensures |r| == n { seq(n, _ => SPACE) }

  /** The first cluster of a new directory: its "." and ".." entries, and zeros. */
  function DotCluster(c: nat, parent: nat, cs: nat): (b: Bytes)
    requires cs >= 2 * SIZE
    ensures |b| == cs
  {
    Make([DOT] + Spaces(10), ATTR_DIRECTORY, c, 0) + Make([DOT, DOT] + Spaces(9), ATTR_DIRECTORY, parent, 0) + seq(cs - 2 * SIZE, _ => 0)
  }

  /** Such a cluster reads as an empty directory. */
  lemma DotClusterFresh(g: Geo, c: nat, parent: nat)
    requires g.Ok()
    ensures FreshDir(g, DotCluster(c, parent, g.ClusterSize()))
    ensures forall k :: 0 <= k < g.perCluster ==> Ignored(EntryAt(DotCluster(c, parent, g.ClusterSize()), k))
  {
    var b := DotCluster(c, parent, g.ClusterSize());
    var dot, dots := Make([DOT] + Spaces(10), ATTR_DIRECTORY, c, 0), Make([DOT, DOT] + Spaces(9), ATTR_DIRECTORY, parent, 0);
    assert EntryAt(b, 0) == dot && EntryAt(b, 1) == dots;
    assert dot[0] == Name(dot)[0] && dot[1] == Name(dot)[1];
    assert dots[0] == Name(dots)[0] && dots[1] == Name(dots)[1] && dots[2] == Name(dots)[2];
    forall k | 2 <= k < g.perCluster ensures IsEnd(EntryAt(b, k)) { assert EntryAt(b, k)[0] == b[SIZE * k]; }
  }

  /** From (v0, w0) to (v, w) an empty directory has been made at the path, and nothing else has changed. */
  ghost predicate Made(g: Geo, v0: View, w0: Witness, v: View, w: Witness, path: Bytes)
    requires Shape(g, v0, w0) && Shape(g, v, w)
  {
    var x := FileSlot(g, v, w, path);
    FileSlot(g, v0, w0, path) == NONE && x != NONE && MadeBy(g, v0, w0, v, w, path, Ent(g, v, x))
  }

  ghost predicate MadeBy(g: Geo, v0: View, w0: Witness, v: View, w: Witness, path: Bytes, e: Bytes)
    requires Shape(g, v0, w0) && Shape(g, v, w) && |e| == SIZE
  {
    var t := Resolve(g, v0, w0, path);
    && t.At? && t.d >= 0 && |t.name| == NAME_LEN && 2 <= First(e) < g.max
    && e == Make(t.name, ATTR_DIRECTORY, First(e), 0)
    && EntryChain(g, w, e) == [First(e)]
    && Updated(g, v0, w0, v, w, path, e, DotCluster(First(e), t.d, g.ClusterSize()))
  }

  /** The new cluster is linked to nothing yet and holds an empty directory. */
  lemma DirBuilt(g: Geo, v0: View, w0: Witness, v: View, w: Witness, path: Bytes, d: nat, name: Bytes, x: Slot, c: nat)
    requires Underway(g, v0, w0, v, w, path, d, name, x, []) && 2 <= c < g.max && v.t[c] == FREE && name[0] != 0
    ensures var v' := View(v.t[c := EOC_MARK], v.cl[c := DotCluster(c, d, g.ClusterSize())]);
            var e := Make(name, ATTR_DIRECTORY, c, 0);
            && Underway(g, v0, w0, v', w, path, d, name, x, [c]) && CanFinish(g, v', w, x, name, [c], e) && First(e) == c && FileSize(e) == 0
            && OnVolume(g, v', [c]) && Content(g, v', [c]) == DotCluster(c, d, g.ClusterSize())
  {
    var f := OldFirst(g, v0, w0, path);
    var b := DotCluster(c, d, g.ClusterSize());
    MidExtend(g, v0, w0, v, w, f, x, name, [], c);
    assert [] + [c] == [c];
    var v1 := v.(t := Extended(v.t, [], c));
    WholeCluster(g, v0, w0, v1, w, f, x, name, [], c, b);
    DotClusterFresh(g, c, d);
    DirRecord(name, c);
  }

  lemma DirRecord(name: Bytes, c: nat)
    requires |name| == NAME_LEN && name[0] != DOT && name[0] != 0 && c < 0x1_0000
    ensures var e := Make(name, ATTR_DIRECTORY, c, 0);
            && IsDirectory(e) && First(e) == c && FileSize(e) == 0 && Name(e) == name
            && if name[0] == DELETED then IsFree(e) && !IsEnd(e) else Live(e)
  {
    WithFieldsRead(name + [ATTR_DIRECTORY] + seq(20, _ => 0), c, 0);
    var e := Make(name, ATTR_DIRECTORY, c, 0);
    assert e[0] == Name(e)[0];
  }

  /** A directory just made is one fat_rmdir takes for empty. */
  lemma MadeIsEmpty(g: Geo, v0: View, w0: Witness, v: View, w: Witness, path: Bytes)
    requires Shape(g, v0, w0) && Inv(g, v, w) && Made(g, v0, w0, v, w, path)
    ensures NothingIn(g, v, w, DirectoryAt(g, v, w, path))
  {
    var x := FileSlot(g, v, w, path);
    var e := Ent(g, v, x);
    var c := First(e);
    assert SlotOk(g, v, w, NONE, x);
    ContentAppend(g, v, [], c);
    assert [] + [c] == [c];
    var b := DotCluster(c, Resolve(g, v0, w0, path).d, g.ClusterSize());
    assert v.cl[c] == b && w.chain[c] == [c];
    DotClusterFresh(g, c, Resolve(g, v0, w0, path).d);
    forall s | InDir(g, w, c, s) ensures Ignored(Ent(g, v, s)) {
      DirAreaIs(g, v, w, c, s.a);
      assert s.a == c && Ent(g, v, s) == EntryAt(b, s.k);
    }
  }

  /** The new cluster is the lowest free one, or the next one when the directory took that to grow. */
  ghost predicate TakesLowest(g: Geo, v0: View, v: View, w: Witness, path: Bytes, n: nat)
    requires Shape(g, v, w)
  {
    n < |FreeList(v0.t, 2)| && OldFirst(g, v, w, path) == FreeList(v0.t, 2)[n]
  }

  lemma TookRest(v0: View, v: View, n: nat)
    requires Took(v0, v, n)
    ensures n <= |FreeList(v0.t, 2)| && FreeList(v.t, 2) == FreeList(v0.t, 2)[n..]
  {
  }

  /** A directory record as fat_mkdir writes it: name, directory bit, first cluster, zeros. */
  predicate DirectoryBytes(e: Bytes, name: Bytes, first: int) {
    && |e| == 32 && |name| == 11 && e[..11] == name && e[11] == 0x10 && (forall i :: 12 <= i < 26 ==> e[i] == 0)
    && 0 <= e[26] < 256 && 0 <= e[27] < 256 && e[26] + 256 * e[27] == first && e[28] == e[29] == e[30] == e[31] == 0
  }

  lemma RecordIs(name: Bytes, first: nat)
    requires |name| == 11 && first < 0x1_0000
    ensures DirectoryBytes(Make(name, ATTR_DIRECTORY, first, 0), name, first)
  {
    RecordBytes(name, ATTR_DIRECTORY, first, 0);
    var e := Make(name, ATTR_DIRECTORY, first, 0);
    assert e[28] + 256 * e[29] + 65536 * e[30] + 16777216 * e[31] == 0;
  }

  /** The bytes of a directory just made: the entry "." leads to its own cluster, ".." to the directory it
      is in, and the rest of the cluster is zero; the new entry leads to the cluster. */
  lemma MadeBytes(g: Geo, v0: View, w0: Witness, v: View, w: Witness, path: Bytes)
    requires Inv(g, v0, w0) && Inv(g, v, w) && Made(g, v0, w0, v, w, path)
    ensures Shape(g, v0, w0) && Shape(g, v, w) && Resolve(g, v0, w0, path).At? && FileSlot(g, v, w, path) != NONE
    ensures var t, c := Resolve(g, v0, w0, path), OldFirst(g, v, w, path);
            && 2 <= c < g.max && v.t[c] >= 0xFF8 && DirectoryBytes(Ent(g, v, FileSlot(g, v, w, path)), t.name, c)
            && |v.cl[c]| >= 64
            && DirectoryBytes(v.cl[c][..32], [0x2E, 0x20, 0x20, 0x20, 0x20, 0x20, 0x20, 0x20, 0x20, 0x20, 0x20], c)
            && DirectoryBytes(v.cl[c][32..64], [0x2E, 0x2E, 0x20, 0x20, 0x20, 0x20, 0x20, 0x20, 0x20, 0x20, 0x20], t.d)
            && forall i :: 64 <= i < |v.cl[c]| ==> v.cl[c][i] == 0
  {
    hide HeadOk, PairOk, ClusterOk, Others, Make;
    var x := FileSlot(g, v, w, path);
    var t, c := Resolve(g, v0, w0, path), First(Ent(g, v, x));
    assert SlotOk(g, v, w, NONE, x);
    LastOfOne(g, v, w, c);
    ContentOne(g, v, c);
    RecordIs(t.name, c);
    DotClusterBytes(c, t.d, g.ClusterSize());
  }

  lemma LastOfOne(g: Geo, v: View, w: Witness, c: int)
    requires Inv(g, v, w) && 2 <= c < g.max && w.chain[c] == [c]
    ensures v.t[c] >= EOC
  {
    assert HeadOk(g, v, w, NONE, c);
    assert Links(v.t, w.chain[c], 0);
  }

  lemma DotClusterBytes(c: nat, parent: nat, cs: nat)
    requires c < 0x1_0000 && parent < 0x1_0000 && cs >= 64
    ensures var b := DotCluster(c, parent, cs);
            && DirectoryBytes(b[..32], [0x2E, 0x20, 0x20, 0x20, 0x20, 0x20, 0x20, 0x20, 0x20, 0x20, 0x20], c)
            && DirectoryBytes(b[32..64], [0x2E, 0x2E, 0x20, 0x20, 0x20, 0x20, 0x20, 0x20, 0x20, 0x20, 0x20], parent)
            && forall i :: 64 <= i < cs ==> b[i] == 0
  {
    hide Make, DirectoryBytes;
    RecordIs([DOT] + Spaces(10), c);
    RecordIs([DOT, DOT] + Spaces(9), parent);
    assert [DOT] + Spaces(10) == [0x2E, 0x20, 0x20, 0x20, 0x20, 0x20, 0x20, 0x20, 0x20, 0x20, 0x20];
    assert [DOT, DOT] + Spaces(9) == [0x2E, 0x2E, 0x20, 0x20, 0x20, 0x20, 0x20, 0x20, 0x20, 0x20, 0x20];
    var dot, dots, b := Make([DOT] + Spaces(10), ATTR_DIRECTORY, c, 0), Make([DOT, DOT] + Spaces(9), ATTR_DIRECTORY, parent, 0), DotCluster(c, parent, cs);
    assert b[..32] == dot && b[32..64] == dots;
  }

  /** fat_mkdir */
  method Mkdir(vol: Volume, path: Bytes) returns (r: int)
    requires vol.Valid() && 0 !in path
    modifies vol`w, vol.fat.buf, vol.dsk
    ensures r == 0 || r == 1 || r == 2 || r == 3 || r == 4 || r == 5
    ensures r == 0 ==> vol.Valid() && vol.Synced()
    ensures r == 0 ==> if StorableName(vol.l.G(), old(vol.V()), old(vol.w), path)
                       then Made(vol.l.G(), old(vol.V()), old(vol.w), vol.V(), vol.w, path)
                            && TakesLowest(vol.l.G(), old(vol.V()), vol.V(), vol.w, path, Growth(vol.l.G(), old(vol.V()), old(vol.w), path))
                       else Buried(vol.l.G(), old(vol.V()), old(vol.w), vol.V(), vol.w, path, 1)
    ensures r == 0 ==> (VolumeOk(vol.l.G(), vol.V()) <==> VolumeOk(vol.l.G(), old(vol.V())) && StorableName(vol.l.G(), old(vol.V()), old(vol.w), path))
    ensures r == 2 || r == 3 || r == 5 ==> vol.Valid() && vol.V() == old(vol.V()) && vol.w == old(vol.w)
    ensures r == 2 ==> DirectoryFull(vol.l.G(), vol.V(), vol.w, path)
    ensures r == 2 ==> !HasPlace(vol.l.G(), vol.V(), vol.w, path) || Room(vol.V().t) == 0
    ensures r == 3 ==> FileSlot(vol.l.G(), vol.V(), vol.w, path) != NONE
    ensures r == 4 ==> vol.Valid() && Room(vol.V().t) == 0 && FileSlot(vol.l.G(), old(vol.V()), old(vol.w), path) == NONE
    ensures r == 4 ==> Room(old(vol.V()).t) == Growth(vol.l.G(), old(vol.V()), old(vol.w), path)
    ensures r == 4 ==> RestKept(vol.l.G(), old(vol.V()), old(vol.w), vol.V(), vol.w, path) && vol.w.lost == old(vol.w).lost
    ensures r == 0 ==> Room(vol.V().t) == Room(old(vol.V()).t) - Growth(vol.l.G(), old(vol.V()), old(vol.w), path) - 1
    ensures r == 5 ==> Resolve(vol.l.G(), vol.V(), vol.w, path) == Root
    ensures r == 1 ==> vol.dsk.faulty || NoWay(vol.l.G(), old(vol.V()), old(vol.w), path)
  {
    hide Volume.Synced, Volume.V, Areas, Underway, LookupDone, Made, Buried, VolumeOk, RestKept, Took, Room, HasPlace, Growth, DirectoryFull, OldFirst, FreeList, GInv;
    ghost var g, v0, w0 := vol.l.G(), vol.V(), vol.w;
    var d, target, isRoot;
    r, d, target, isRoot := ResolvePath(vol, path);
    if r != 0 {
      return 1;
    }
    if isRoot {
      return 5;
    }
    var slot;
    ghost var x;
    r, slot, x := vol.DirLookup(d, target, true);
    if r == 1 {
      return;
    }
    LookedUp(vol.l, v0, w0, vol.V(), vol.w, path, d, target, r, slot, x);
    if r == 2 || r == 3 {
      return 2;
    }
    if slot.found {
      return 3;
    }
    StartCreate(g, v0, w0, vol.V(), vol.w, path, d, target, x);
    NameOf(g, v0, w0, vol.V(), vol.w, path, d, target, x, []);
    RestIsKept(g, v0, w0, vol.V(), vol.w, path, d, target, x, []);
    TookRest(v0, vol.V(), Growth(g, v0, w0, path));
    r := MakeDir(vol, slot, v0, w0, path, d, target, x);
    if r == 0 { MkdirLoss(g, v0, w0, vol.V(), vol.w, path); }
  }

  /** A successful fat_mkdir leaves a consistent volume exactly when the name can be stored. */
  lemma MkdirLoss(g: Geo, v0: View, w0: Witness, v: View, w: Witness, path: Bytes)
    requires Inv(g, v0, w0) && Inv(g, v, w)
    requires if StorableName(g, v0, w0, path) then Made(g, v0, w0, v, w, path) else Buried(g, v0, w0, v, w, path, 1)
    ensures VolumeOk(g, v) <==> VolumeOk(g, v0) && StorableName(g, v0, w0, path)
  {
    hide VolumeOk, Updated, RestKept, Buried, DotCluster;
    if StorableName(g, v0, w0, path) {
      var e := Ent(g, v, FileSlot(g, v, w, path));
      UpdatedLoss(g, v0, w0, v, w, path, e, DotCluster(First(e), Resolve(g, v0, w0, path).d, g.ClusterSize()));
    } else {
      BuriedLoss(g, v0, w0, v, w, path, 1);
    }
  }

  /** The lowest free cluster, marked as the end of a chain; 0 when there is none. */
  method TakeCluster(vol: Volume) returns (c: nat)
    requires vol.Ready()
    modifies vol.fat.buf
    ensures vol.Ready() && |old(vol.V()).t| == |old(vol.V()).cl| == vol.l.Clusters()
    ensures c == 0 ==> vol.V() == old(vol.V()) && Room(vol.V().t) == 0
    ensures c != 0 ==> 2 <= c < |old(vol.V()).t| && old(vol.V()).t[c] == FREE && vol.V() == old(vol.V()).(t := old(vol.V()).t[c := EOC_MARK])
    ensures c != 0 ==> Room(vol.V().t) == Room(old(vol.V()).t) - 1 && FreeList(old(vol.V()).t, 2) == [c] + FreeList(vol.V().t, 2)
  {
    ghost var t := vol.V().t;
    UsedLimit(t, 2);
    c := vol.fat.AllocCluster();
    if c != 0 {
      UsedUpdate(t, c, EOC_MARK, 2);
      FreeHead(t, t[c := EOC_MARK], 2, c);
    }
  }

  /** The rest of fat_mkdir: a cluster with the two dot entries, and the entry that leads to it. */
  method MakeDir(vol: Volume, slot: DirSlot, ghost v0: View, ghost w0: Witness, ghost path: Bytes, d: nat, target: Bytes, ghost x: Slot) returns (r: int)
    requires vol.Valid() && Underway(vol.l.G(), v0, w0, vol.V(), vol.w, path, d, target, x, []) && Places(vol.l, slot, x)
    requires target[0] != 0 && FileSlot(vol.l.G(), v0, w0, path) == NONE
    modifies vol`w, vol.fat.buf, vol.dsk
    ensures r == 0 || r == 1 || r == 4
    ensures r == 0 ==> vol.Valid() && vol.Synced()
    ensures r == 0 ==> if target[0] != DELETED then Made(vol.l.G(), v0, w0, vol.V(), vol.w, path) && TakesLowest(vol.l.G(), old(vol.V()), vol.V(), vol.w, path, 0)
                       else Buried(vol.l.G(), v0, w0, vol.V(), vol.w, path, 1)
    ensures r == 4 ==> vol.Valid() && vol.V() == old(vol.V()) && vol.w == old(vol.w) && Room(vol.V().t) == 0
    ensures r == 0 ==> Room(vol.V().t) == Room(old(vol.V()).t) - 1
    ensures r == 1 ==> vol.dsk.faulty
  {
    hide CanFinish, Underway, Finished, Updated, Buried, DotCluster, Volume.Synced, Areas, Made, FileSlot, OldFirst, FreeList, GInv, Volume.V;
    ghost var g, v := vol.l.G(), vol.V();
    var newc := TakeCluster(vol);
    if newc == 0 {
      return 4;
    }
    DirBuilt(g, v0, w0, v, vol.w, path, d, target, x, newc);
    SealChain(vol, newc);
    var err := vol.WriteCluster(newc, DotCluster(newc, d, SECTOR * vol.l.sectorsPerCluster));
    if err {
      return 1;
    }
    var e := Make(target, ATTR_DIRECTORY, newc, 0);
    ghost var v2, w2 := vol.V(), vol.w;
    r := FinishWrite(vol, slot, e, v0, w0, path, d, target, x, [newc]);
    if r == 0 { MadeNow(g, v0, w0, v2, w2, vol.V(), vol.w, path, d, target, x, e, newc); }
  }

  lemma MadeNow(g: Geo, v0: View, w0: Witness, v1: View, w1: Witness, v: View, w: Witness, path: Bytes, d: nat, name: Bytes, x: Slot, e: Bytes, c: nat)
    requires Underway(g, v0, w0, v1, w1, path, d, name, x, [c]) && FileSlot(g, v0, w0, path) == NONE && 2 <= c < g.max
    requires e == Make(name, ATTR_DIRECTORY, c, 0) && First(e) == c && |e| == SIZE && FileSize(e) == 0
    requires Finished(g, v0, w0, v, w, path, name, [c], e, DotCluster(c, d, g.ClusterSize()))
    ensures Inv(g, v, w)
    ensures if name[0] != DELETED then Made(g, v0, w0, v, w, path) && OldFirst(g, v, w, path) == c else Buried(g, v0, w0, v, w, path, 1)
  {
    hide GInv, Others, Tree, Buried, DotCluster;
    InvShape(g, v, w);
  }
}