/** The FAT12 driver.

Ready() is the shape of the driver state, V() its abstract value (the table and the areas), and w
the ghost witness of the invariant. Every routine is proved against V(). A disk error makes a
routine return 1 and promises nothing about the volume. */
module FatVolume {
  import opened Bits
  import opened FatTable
  import opened FatBuffer
  import opened Dirent
  import opened FatInvariant
  import opened FatContent
  import opened FatDisk
  import opened FatPath
  import opened FatDirectory

  /** dir_slot_t: the sector and byte offset of an entry. */
  datatype DirSlot = DirSlot(sector: nat, offset: nat, found: bool)

  /** slot is the disk position of entry x. */
  ghost predicate Places(l: Layout, slot: DirSlot, x: Slot)
    requires l.Ok()
  {
    && (x.a == 0 || 2 <= x.a < l.Clusters()) && 0 <= x.k < l.G().Slots(x.a)
    && slot.sector == l.Lba(x.a) + x.k / 16 && slot.offset == x.k % 16 * SIZE
  }

  lemma SlotInSector(l: Layout, slot: DirSlot, x: Slot)
    requires l.Ok() && Places(l, slot, x)
    ensures slot.offset + SIZE <= SECTOR && l.RootStart() <= slot.sector < l.total
  {
    AreaOnDisk(l, x.a);
  }

  /** The sector of slot x holds its entry. */
  lemma LoadFromSlot(l: Layout, disk: Bytes, slot: DirSlot, x: Slot)
    requires l.Ok() && Places(l, slot, x) && |disk| == SECTOR * l.total
    ensures slot.offset + SIZE <= SECTOR && slot.sector + 1 <= MAX_LBA && SECTOR * (slot.sector + 1) <= |disk|
    ensures Sectors(disk, slot.sector, 1)[slot.offset..slot.offset + SIZE] == EntryAt(Areas(l, disk)[x.a], x.k)
  {
    SectorEntry(l, disk, x.a, x.k / 16, x.k % 16);
    AreaOnDisk(l, x.a);
  }

  /** Writing back the sector of slot x with its entry replaced. */
  lemma StoreAtSlot(l: Layout, disk: Bytes, slot: DirSlot, x: Slot, e: Bytes, sec: Bytes)
    requires l.Ok() && Places(l, slot, x) && |e| == SIZE && |disk| == SECTOR * l.total
    requires slot.offset + SIZE <= SECTOR && slot.sector < l.total
    requires sec == Sectors(disk, slot.sector, 1)[..slot.offset] + e + Sectors(disk, slot.sector, 1)[slot.offset + SIZE..]
    ensures |sec| == SECTOR
    ensures Areas(l, Written(disk, slot.sector, sec)) == Areas(l, disk)[x.a := WithEntry(Areas(l, disk)[x.a], x.k, e)]
  {
    hide Areas, Sectors, Written;
    StoreSector(l, disk, x.a, x.k / 16, x.k % 16, e, sec);
    AreaOnDisk(l, x.a);
  }

  /** Copy i of the allocation table on disk equals the buffer. */
  ghost predicate CopyOk(l: Layout, disk: Bytes, buf: Bytes, i: int)
    requires l.Ok() && |disk| == SECTOR * l.total && 4608 <= |buf| && 0 <= i < l.fatCount
  {
    CopyStart(l, i);
    Sectors(disk, l.fatStart + i * l.sectorsPerFat, l.sectorsPerFat) == buf[..SECTOR * l.sectorsPerFat]
  }

  lemma CopyStart(l: Layout, i: int)
    requires l.Ok() && 0 <= i < l.fatCount
    ensures 0 <= i * l.sectorsPerFat && l.fatStart + i * l.sectorsPerFat + l.sectorsPerFat <= l.RootStart()
  {
    MulMono(0, i, l.sectorsPerFat);
    MulMono(i + 1, l.fatCount, l.sectorsPerFat);
    assert (i + 1) * l.sectorsPerFat == i * l.sectorsPerFat + l.sectorsPerFat;
  }

  ghost predicate CopiesOk(l: Layout, disk: Bytes, buf: Bytes)
    requires l.Ok() && |disk| == SECTOR * l.total && 4608 <= |buf|
  {
    forall i {:trigger CopyOk(l, disk, buf, i)} :: 0 <= i < l.fatCount ==> CopyOk(l, disk, buf, i)
  }

  /** Writing behind the tables leaves the copies alone. */
  lemma CopiesKept(l: Layout, disk: Bytes, buf: Bytes, lba: int, data: Bytes)
    requires l.Ok() && |disk| == SECTOR * l.total && 4608 <= |buf|
    requires l.RootStart() <= lba && SECTOR * lba + |data| <= |disk|
    requires CopiesOk(l, disk, buf)
    ensures CopiesOk(l, Written(disk, lba, data), buf)
  {
    forall i | 0 <= i < l.fatCount ensures CopyOk(l, Written(disk, lba, data), buf, i) {
      assert CopyOk(l, disk, buf, i);
      CopyStart(l, i);
      SectorsApart(disk, lba, data, l.fatStart + i * l.sectorsPerFat, l.sectorsPerFat);
    }
  }

  /** Writing copy i leaves the earlier copies alone. */
  lemma CopyWritten(l: Layout, disk: Bytes, buf: Bytes, i: int, j: int)
    requires l.Ok() && |disk| == SECTOR * l.total && 4608 <= |buf| && 0 <= j <= i < l.fatCount
    requires j < i ==> CopyOk(l, disk, buf, j)
    ensures SECTOR * (l.fatStart + i * l.sectorsPerFat) + SECTOR * l.sectorsPerFat <= |disk| && 0 <= l.fatStart + i * l.sectorsPerFat
    ensures CopyOk(l, Written(disk, l.fatStart + i * l.sectorsPerFat, buf[..SECTOR * l.sectorsPerFat]), buf, j)
  {
    CopyStart(l, i);
    CopyStart(l, j);
    if j < i {
      MulMono(j + 1, i, l.sectorsPerFat);
      assert (j + 1) * l.sectorsPerFat == j * l.sectorsPerFat + l.sectorsPerFat;
      SectorsApart(disk, l.fatStart + i * l.sectorsPerFat, buf[..SECTOR * l.sectorsPerFat], l.fatStart + j * l.sectorsPerFat, l.sectorsPerFat);
    }
  }

  /** From v0 to v the n lowest free clusters have been taken; those still free hold what they held. */
  ghost predicate Took(v0: View, v: View, n: nat) {
    && n <= |FreeList(v0.t, 2)| && FreeList(v.t, 2) == FreeList(v0.t, 2)[n..]
    && |v0.t| == |v0.cl| == |v.t| == |v.cl| && |v.t| >= 2
    && (forall c :: 2 <= c < |v.t| && v.t[c] == FREE ==> v.cl[c] == v0.cl[c])
  }

  lemma TookRoom(v0: View, v: View, n: nat)
    requires Took(v0, v, n)
    ensures Room(v.t) == Room(v0.t) - n
  {
    FreeCount(v0.t, 2);
    FreeCount(v.t, 2);
  }

  class Volume {
    const l: Layout
    const fat: Fat
    const dsk: Disk
    ghost var w: Witness

    ghost predicate Ready()
      reads fat.buf, dsk
    {
      l.Ok() && fat.Valid() && fat.max == l.Clusters() && |dsk.data| == SECTOR * l.total
    }

    ghost function V(): (v: View)
      requires Ready()
      reads fat.buf, dsk
    {
      View(fat.T(), Areas(l, dsk.data))
    }

    ghost predicate Valid()
      reads this, fat.buf, dsk
    {
      Ready() && Inv(l.G(), V(), w)
    }

    /** Every on-disk copy equals the table in memory. */
    ghost predicate Synced()
      requires Ready()
      reads fat.buf, dsk
    {
      CopiesOk(l, dsk.data, fat.buf[..])
    }

    /** The state fat_init leaves for a volume that satisfies the invariant. */
    constructor (layout: Layout, f: Fat, d: Disk, ghost wit: Witness)
      requires layout.Ok() && f.Valid() && f.max == layout.Clusters() && |d.data| == SECTOR * layout.total
      requires Inv(layout.G(), View(f.T(), Areas(layout, d.data)), wit)
      ensures Valid() && l == layout && fat == f && dsk == d && w == wit
    {
      l, fat, dsk, w := layout, f, d, wit;
    }

    // ----- single transfers -----

    /** Read the sector of a slot and take its entry. */
    method LoadEntry(slot: DirSlot, ghost x: Slot) returns (err: bool, e: Bytes)
      requires Ready() && Places(l, slot, x)
      ensures |e| == SIZE
      ensures !err ==> e == Ent(l.G(), V(), x)
      ensures err ==> dsk.faulty
    {
      LoadFromSlot(l, dsk.data, slot, x);
      var sec;
      err, sec := dsk.ReadLba(slot.sector, 1);
      if err {
        return true, seq(SIZE, _ => 0);
      }
      return false, sec[slot.offset..slot.offset + SIZE];
    }

    /** Read the sector of a slot, replace its entry, write the sector back. */
    method StoreEntry(slot: DirSlot, e: Bytes, ghost x: Slot) returns (err: bool)
      requires Ready() && Places(l, slot, x) && |e| == SIZE
      modifies dsk
      ensures Ready()
      ensures !err ==> V() == Store(l.G(), old(V()), x, e)
      ensures !err && old(Synced()) ==> Synced()
      ensures err ==> dsk.faulty
    {
      SectorSlice(l, dsk.data, x.a, x.k / 16);
      var err1, sec := dsk.ReadLba(slot.sector, 1);
      if err1 {
        return true;
      }
      err := WriteBack(slot, sec, e, x);
    }

    /** The second half of a store: the sector with the entry in place goes back to the disk. */
    method WriteBack(slot: DirSlot, sec: Bytes, e: Bytes, ghost x: Slot) returns (err: bool)
      requires Ready() && Places(l, slot, x) && |e| == SIZE
      requires SECTOR * (slot.sector + 1) <= |dsk.data| && slot.sector + 1 <= MAX_LBA && sec == Sectors(dsk.data, slot.sector, 1)
      modifies dsk
      ensures Ready()
      ensures !err ==> V() == Store(l.G(), old(V()), x, e)
      ensures !err && old(Synced()) ==> Synced()
      ensures err ==> dsk.faulty
    {
      ghost var d0 := dsk.data;
      SlotInSector(l, slot, x);
      var sec' := sec[..slot.offset] + e + sec[slot.offset + SIZE..];
      StoreAtSlot(l, d0, slot, x, e, sec');
      err := dsk.WriteLba(slot.sector, 1, sec');
      if !err && old(Synced()) {
        CopiesKept(l, d0, fat.buf[..], slot.sector, sec');
      }
    }

    method ReadCluster(c: nat) returns (err: bool, b: Bytes)
      requires Ready() && 2 <= c < l.Clusters()
      ensures !err ==> b == V().cl[c]
      ensures err ==> dsk.faulty
    {
      AreaOnDisk(l, c);
      var lba := l.DataStart() + (c - 2) * l.sectorsPerCluster;
      err, b := dsk.ReadLba(lba, l.sectorsPerCluster);
    }

    method WriteCluster(c: nat, b: Bytes) returns (err: bool)
      requires Ready() && 2 <= c < l.Clusters() && |b| == SECTOR * l.sectorsPerCluster
      modifies dsk
      ensures Ready()
      ensures !err ==> V() == old(V()).(cl := old(V()).cl[c := b])
      ensures !err && old(Synced()) ==> Synced()
      ensures err ==> dsk.faulty
    {
      AreaOnDisk(l, c);
      WriteInArea(l, dsk.data, c, 0, b);
      var lba := l.DataStart() + (c - 2) * l.sectorsPerCluster;
      ghost var d0 := dsk.data;
      assert Areas(l, d0)[c][..0] + b + Areas(l, d0)[c][|b|..] == b;
      err := dsk.WriteLba(lba, l.sectorsPerCluster, b);
      if !err && old(Synced()) {
        CopiesKept(l, d0, fat.buf[..], lba, b);
      }
    }

    /** fat_flush */
    method Flush() returns (err: bool)
      requires Ready()
      modifies dsk
      ensures Ready()
      ensures !err ==> V() == old(V()) && Synced()
      ensures err ==> dsk.faulty
    {
      var i := 0;
      while i < l.fatCount
        invariant i <= l.fatCount && Ready() && Areas(l, dsk.data) == Areas(l, old(dsk.data))
        invariant forall j {:trigger CopyOk(l, dsk.data, fat.buf[..], j)} :: 0 <= j < i ==> CopyOk(l, dsk.data, fat.buf[..], j)
      {
        CopyStart(l, i);
        ghost var d0 := dsk.data;
        var lba := l.fatStart + i * l.sectorsPerFat;
        WriteOutsideAreas(l, d0, lba, fat.buf[..SECTOR * l.sectorsPerFat]);
        forall j | 0 <= j <= i ensures CopyOk(l, Written(d0, lba, fat.buf[..SECTOR * l.sectorsPerFat]), fat.buf[..], j) {
          CopyWritten(l, d0, fat.buf[..], i, j);
        }
        var e := dsk.WriteLba(lba, l.sectorsPerFat, fat.buf[..SECTOR * l.sectorsPerFat]);
        if e {
          return true;
        }
        i := i + 1;
      }
      return false;
    }

    // ----- dir_lookup -----

    /** The entries of one sector. */
    method ScanSector(a: nat, s: nat, target: Bytes, free0: MaybeSlot, ghost fx0: Slot, ghost start0: MaybeSlot, ghost start: Slot)
      returns (err: bool, res: Scan, slot: DirSlot, free: MaybeSlot, ghost fx: Slot, ghost k: nat)
      requires Ready() && (a == 0 || 2 <= a < l.Clusters()) && s < l.Len(a) && |target| == NAME_LEN
      requires Clear(l.G(), V(), a, target, 16 * s) && FreeKept(l, V(), a, start0, start, free0, fx0, 16 * s)
      ensures !err ==> Clear(l.G(), V(), a, target, k) && FreeKept(l, V(), a, start0, start, free, fx, k)
      ensures !err ==> StopOk(l.G(), V(), a, target, res, k) && (res == Through ==> k == 16 * s + 16)
      ensures !err && res == Match ==> Places(l, slot, Slot(a, k)) && slot.found
      ensures !err && res == End ==> free.Here?
      ensures err ==> dsk.faulty
    {
      res, slot, free, fx, k := Through, DirSlot(0, 0, false), free0, fx0, 16 * s;
      SectorSlice(l, dsk.data, a, s);
      var sec;
      err, sec := dsk.ReadLba(l.Lba(a) + s, 1);
      if err {
        return;
      }
      res, slot, free, fx, k := ScanEntries(sec, a, s, target, free0, fx0, start0, start);
    }

    method ScanEntries(sec: Bytes, a: nat, s: nat, target: Bytes, free0: MaybeSlot, ghost fx0: Slot, ghost start0: MaybeSlot, ghost start: Slot)
      returns (res: Scan, slot: DirSlot, free: MaybeSlot, ghost fx: Slot, ghost k: nat)
      requires Ready() && (a == 0 || 2 <= a < l.Clusters()) && s < l.Len(a) && |target| == NAME_LEN
      requires sec == V().cl[a][SECTOR * s..SECTOR * s + SECTOR]
      requires Clear(l.G(), V(), a, target, 16 * s) && FreeKept(l, V(), a, start0, start, free0, fx0, 16 * s)
      ensures Clear(l.G(), V(), a, target, k) && FreeKept(l, V(), a, start0, start, free, fx, k)
      ensures StopOk(l.G(), V(), a, target, res, k) && (res == Through ==> k == 16 * s + 16)
      ensures res == Match ==> Places(l, slot, Slot(a, k)) && slot.found
      ensures res == End ==> free.Here?
    {
      hide Clear, FreeKept, Places;
      res, slot, free, fx, k := Through, DirSlot(0, 0, false), free0, fx0, 16 * s;
      ghost var v := V();
      var i := 0;
      while i < 16
        invariant 0 <= i <= 16 && k == 16 * s + i && res == Through
        invariant Clear(l.G(), v, a, target, k) && FreeKept(l, v, a, start0, start, free, fx, k)
      {
        SliceEntry(v.cl[a], s, i);
        res, slot, free, fx := ScanEntry(EntryAt(sec, i), a, s, i, target, free, fx, start0, start);
        if res != Through {
          return;
        }
        i := i + 1;
        k := k + 1;
      }
    }

    /** The tests dir_lookup makes on one entry. */
    method ScanEntry(e: Bytes, a: nat, s: nat, i: nat, target: Bytes, free0: MaybeSlot, ghost fx0: Slot, ghost start0: MaybeSlot, ghost start: Slot)
      returns (res: Scan, slot: DirSlot, free: MaybeSlot, ghost fx: Slot)
      requires Ready() && (a == 0 || 2 <= a < l.Clusters()) && s < l.Len(a) && i < 16 && |target| == NAME_LEN
      requires e == Ent(l.G(), V(), Slot(a, 16 * s + i))
      requires Clear(l.G(), V(), a, target, 16 * s + i) && FreeKept(l, V(), a, start0, start, free0, fx0, 16 * s + i)
      ensures StopOk(l.G(), V(), a, target, res, 16 * s + i)
      ensures res == Through ==> Clear(l.G(), V(), a, target, 16 * s + i + 1)
      ensures FreeKept(l, V(), a, start0, start, free, fx, if res == Through then 16 * s + i + 1 else 16 * s + i)
      ensures res == Match ==> Places(l, slot, Slot(a, 16 * s + i)) && slot.found
      ensures res == End ==> free.Here?
    {
      SlotPlace(l, a, s, i);
      var here := DirSlot(l.Lba(a) + s, i * SIZE, false);
      res, slot, free, fx := Through, here, free0, fx0;
      if e[0] == 0 || e[0] == DELETED {
        if free.Nowhere? {
          free, fx := Here(here), Slot(a, 16 * s + i);
        }
        if e[0] == 0 {
          res := End;
        }
        return;
      }
      if e[11] == ATTR_LONG_NAME {
        return;
      }
      if e[11] / 8 % 2 == 1 {
        return;
      }
      if e[..NAME_LEN] == target {
        slot := here.(found := true);
        res := Match;
      }
    }

    /** The scan of one area, as both halves of dir_lookup perform it: stop at an end entry or at a
        match, and remember the first free slot. */
    method ScanArea(a: nat, target: Bytes, free0: MaybeSlot, ghost fx0: Slot)
      returns (err: bool, res: Scan, slot: DirSlot, free: MaybeSlot, ghost fx: Slot, ghost k: nat)
      requires Ready() && (a == 0 || 2 <= a < l.Clusters()) && |target| == NAME_LEN
      ensures !err ==> Clear(l.G(), V(), a, target, k) && FreeKept(l, V(), a, free0, fx0, free, fx, k)
      ensures !err ==> StopOk(l.G(), V(), a, target, res, k) && (res == Through ==> k == l.G().Slots(a))
      ensures !err && res == Match ==> Places(l, slot, Slot(a, k)) && slot.found
      ensures !err && res == End ==> free.Here?
      ensures err ==> dsk.faulty
    {
      err, free, fx, k, slot, res := false, free0, fx0, 0, DirSlot(0, 0, false), Through;
      var s := 0;
      while s < l.Len(a)
        invariant s <= l.Len(a) && k == 16 * s && res == Through && !err
        invariant Clear(l.G(), V(), a, target, k) && FreeKept(l, V(), a, free0, fx0, free, fx, k)
      {
        err, res, slot, free, fx, k := ScanSector(a, s, target, free, fx, free0, fx0);
        if err || res != Through {
          return;
        }
        s := s + 1;
      }
    }

    /** dir_lookup: 0 with the slot of the name or of a place for it, 1 on a disk error, 2 when the name
        is absent and no place is free, 3 when the directory would have to grow but the disk is full. */
    method DirLookup(d: nat, target: Bytes, create: bool) returns (r: int, slot: DirSlot, ghost x: Slot)
      requires Valid() && IsDirNo(l.G(), w, d) && |target| == NAME_LEN && target[0] != DOT
      modifies this`w, fat.buf, dsk
      ensures r != 1 ==> Valid() && LookupDone(l, old(V()), old(w), V(), w, d, target, create, r, slot, x)
      ensures r != 1 && old(Synced()) ==> Synced()
      ensures !create ==> Valid() && V() == old(V()) && w == old(w) && Synced() == old(Synced())
      ensures r == 1 ==> dsk.faulty
    {
      hide Volume.V, Volume.Synced, Areas;
      var free := Nowhere;
      ghost var fx := NONE;
      var cluster: int := d;
      ghost var j: nat := 0;
      ScanStart(l.G(), V(), w, d, target);
      FreeStart(l, V(), w, d);
      hide ScannedTo, FreeOk, LookupDone;
      while true
        invariant Valid() && V() == old(V()) && w == old(w) && old(Synced()) == Synced()
        invariant j < AreaCount(w, d) && cluster == AreaAt(w, d, j)
        invariant ScannedTo(l.G(), V(), w, d, target, j)
        invariant FreeOk(l, V(), w, d, free, fx, j)
        decreases AreaCount(w, d) - j
      {
        var done;
        done, r, slot, x, free, fx := LookupArea(d, cluster, target, create, free, fx, j);
        if done {
          return;
        }
        var next := NextArea(d, cluster, j);
        if next >= 2 && next < EOC {
          cluster := next;
          j := j + 1;
        } else {
          r, slot, x := LookupEnd(d, cluster, target, create, free, fx);
          return;
        }
      }
    }

    /** One area of the scan; done when it settles the lookup. */
    method LookupArea(d: nat, cluster: int, target: Bytes, create: bool, free0: MaybeSlot, ghost fx0: Slot, ghost j: nat)
      returns (done: bool, r: int, slot: DirSlot, ghost x: Slot, free: MaybeSlot, ghost fx: Slot)
      requires Valid() && IsDirNo(l.G(), w, d) && |target| == NAME_LEN && target[0] != DOT
      requires j < AreaCount(w, d) && cluster == AreaAt(w, d, j)
      requires ScannedTo(l.G(), V(), w, d, target, j) && FreeOk(l, V(), w, d, free0, fx0, j)
      ensures done && r != 1 ==> LookupDone(l, V(), w, V(), w, d, target, create, r, slot, x)
      ensures !done ==> ScannedTo(l.G(), V(), w, d, target, j + 1) && FreeOk(l, V(), w, d, free, fx, j + 1)
      ensures done && r == 1 ==> dsk.faulty
    {
      ghost var g, v := l.G(), V();
      AreaAtOk(g, v, w, d, j);
      var err, res;
      ghost var k;
      err, res, slot, free, fx, k := ScanArea(cluster, target, free0, fx0);
      if err {
        return true, 1, slot, NONE, free, fx;
      }
      FreeOkMore(l, v, w, d, target, j, free0, fx0, free, fx, k, res);
      if res == Match {
        MatchFound(g, v, w, d, target, Slot(cluster, k));
        return true, 0, slot, Slot(cluster, k), free, fx;
      }
      if res == End {
        AbsentAtEnd(g, v, w, d, target, j, k);
        return true, 0, free.s, fx, free, fx;
      }
      ScanMore(g, v, w, d, target, j);
      return false, 0, slot, NONE, free, fx;
    }

    /** The cluster after the j-th area of a directory; the root directory has a single area. */
    method NextArea(d: nat, cluster: int, ghost j: nat) returns (next: int)
      requires Valid() && IsDirNo(l.G(), w, d) && j < AreaCount(w, d) && cluster == AreaAt(w, d, j)
      ensures if j + 1 < AreaCount(w, d) then 2 <= next < EOC && next == AreaAt(w, d, j + 1) else !(2 <= next < EOC)
    {
      next := EOC;
      AreaAtOk(l.G(), V(), w, d, j);
      if cluster != 0 {
        ChainMember(l.G(), V(), w, NONE, [], d, j);
        if j + 1 < AreaCount(w, d) { ChainMember(l.G(), V(), w, NONE, [], d, j + 1); }
        next := fat.Next(cluster);
      }
    }

    /** The end of the directory is reached without a match: take the free slot, give up, or grow. */
    method LookupEnd(d: nat, cluster: int, target: Bytes, create: bool, free: MaybeSlot, ghost fx: Slot)
      returns (r: int, slot: DirSlot, ghost x: Slot)
      requires Valid() && IsDirNo(l.G(), w, d) && AreaCount(w, d) > 0 && cluster == AreaAt(w, d, AreaCount(w, d) - 1)
      requires ScannedTo(l.G(), V(), w, d, target, AreaCount(w, d)) && FreeOk(l, V(), w, d, free, fx, AreaCount(w, d))
      modifies this`w, fat.buf, dsk
      ensures r != 1 ==> Valid() && LookupDone(l, old(V()), old(w), V(), w, d, target, create, r, slot, x)
      ensures r != 1 && old(Synced()) ==> Synced()
      ensures !create ==> Valid() && V() == old(V()) && w == old(w) && Synced() == old(Synced())
      ensures r == 1 ==> dsk.faulty
    {
      AbsentThrough(l.G(), V(), w, d, target);
      if free.Here? {
        return 0, free.s, fx;
      }
      NoFreeSlot(l.G(), V(), w, d);
      if !create || d == 0 {
        return 2, DirSlot(0, 0, false), NONE;
      }
      AreaAtOk(l.G(), V(), w, d, AreaCount(w, d) - 1);
      r, slot, x := GrowDirectory(d, cluster, target);
    }

    /** Allocate a cluster, link it to the last cluster of a directory, fill it with zeros and write the
        tables back: 3 when the disk is full. */
    method LinkCluster(cluster: nat) returns (r: int, newc: nat, ghost b: Bytes)
      requires Ready() && 2 <= cluster < l.Clusters()
      modifies fat.buf, dsk
      ensures Ready() && (r == 0 || r == 1 || r == 3)
      ensures r == 3 ==> V() == old(V()) && FirstFree(V().t, 2) == l.Clusters() && (old(Synced()) ==> Synced())
      ensures r == 0 ==> 2 <= newc == FirstFree(old(V()).t, 2) < l.Clusters() && Synced()
      ensures r == 0 ==> |b| == l.G().ClusterSize() && forall i :: 0 <= i < |b| ==> b[i] == 0
      ensures r == 0 ==> V() == View(old(V()).t[newc := EOC_MARK][cluster := newc], old(V()).cl[newc := b])
      ensures r == 1 ==> dsk.faulty
    {
      var zeros := seq(SECTOR * l.sectorsPerCluster, _ => 0);
      b := zeros;
      newc := fat.AllocLinked(cluster);
      if newc == 0 {
        return 3, 0, b;
      }
      var e := WriteCluster(newc, zeros);
      if e {
        return 1, newc, b;
      }
      e := Flush();
      r := if e then 1 else 0;
    }

    /** The last part of dir_lookup: the directory is full and has to grow. */
    method GrowDirectory(d: nat, cluster: nat, target: Bytes) returns (r: int, slot: DirSlot, ghost x: Slot)
      requires Valid() && IsDirNo(l.G(), w, d) && d != 0 && AreaCount(w, d) > 0 && cluster == AreaAt(w, d, AreaCount(w, d) - 1)
      requires NoFreeTo(l.G(), V(), w, d, AreaCount(w, d)) && Lookup(l.G(), V(), w, d, target) == NONE
      modifies this`w, fat.buf, dsk
      ensures r != 1 ==> Valid() && LookupDone(l, old(V()), old(w), V(), w, d, target, true, r, slot, x)
      ensures r != 1 && old(Synced()) ==> Synced()
      ensures r == 1 ==> dsk.faulty
    {
      slot, x := DirSlot(0, 0, false), NONE;
      ghost var v0, w0 := V(), w;
      AreaAtOk(l.G(), v0, w0, d, AreaCount(w0, d) - 1);
      NoFreeSlot(l.G(), v0, w0, d);
      var newc;
      ghost var b;
      r, newc, b := LinkCluster(cluster);
      if r != 0 {
        return;
      }
      x := Slot(newc, 0);
      AreaOnDisk(l, newc);
      slot := DirSlot(l.DataStart() + (newc - 2) * l.sectorsPerCluster, 0, false);
      GrowthDone(l, v0, w0, d, newc, b, target, slot);
      w := GrowW(w0, d, newc);
    }
  }

  lemma NoFreeSlot(g: Geo, v: View, w: Witness, d: int)
    requires Inv(g, v, w) && IsDirNo(g, w, d) && NoFreeTo(g, v, w, d, AreaCount(w, d))
    ensures NoFree(g, v, w, d)
  {
    forall s | InDir(g, w, d, s) ensures !IsFree(Ent(g, v, s)) { DirAreaIs(g, v, w, d, s.a); }
  }

  /** The view after cluster c, filled with b, has been linked to the end of directory d. */
  ghost function GrownV(v: View, w: Witness, d: int, c: int, b: Bytes): View
    requires 0 <= d < |w.chain| && |w.chain[d]| > 0 && 0 <= w.chain[d][|w.chain[d]| - 1] < |v.t| && 0 <= c < |v.t| == |v.cl|
  {
    View(v.t[c := EOC_MARK][w.chain[d][|w.chain[d]| - 1] := c], v.cl[c := b])
  }

  lemma GrowthKeepsInv(g: Geo, v: View, w: Witness, d: int, c: int, b: Bytes)
    requires Inv(g, v, w) && IsDirNo(g, w, d) && d != 0 && 2 <= c < g.max && v.t[c] == FREE
    requires |b| == g.ClusterSize() && forall i :: 0 <= i < |b| ==> b[i] == 0
    ensures |w.chain[d]| > 0 && 2 <= w.chain[d][|w.chain[d]| - 1] < g.max
    ensures Inv(g, GrownV(v, w, d, c, b), GrowW(w, d, c))
    ensures forall x: Slot :: Others(g, v, w, GrownV(v, w, d, c, b), GrowW(w, d, c), 0, x)
  {
    assert HeadOk(g, v, w, NONE, d);
    ChainMember(g, v, w, NONE, [], d, |w.chain[d]| - 1);
    ExtendPend(g, v, w, NONE, [], c);
    var v1 := v.(t := Extended(v.t, [], c));
    assert [] + [c] == [c];
    WritePend(g, v1, w, NONE, [c], c, b);
    var v2 := v1.(cl := v1.cl[c := b]);
    forall k | 0 <= k < g.perCluster ensures IsEnd(EntryAt(v2.cl[c], k)) { assert EntryAt(b, k)[0] == b[SIZE * k]; }
    GrowDir(g, v2, w, d, c);
    assert GrowV(v2, w, d, c) == GrownV(v, w, d, c, b);
    PendAway(g, v2, w, NONE, [c], 0);
    forall x: Slot ensures Others(g, v, w, GrownV(v, w, d, c, b), GrowW(w, d, c), 0, x) {
      OthersRefl(g, v, w, 0, x);
      OthersPend(g, v, w, v, v2, w, 0, x);
      OthersGrow(g, v, w, v2, w, 0, x, d, c);
    }
  }

  /** The first slot of the new cluster is the first free one, and the name is still absent. */
  lemma GrownCreatable(g: Geo, v: View, w: Witness, d: int, c: int, b: Bytes, target: Bytes)
    requires Inv(g, v, w) && IsDirNo(g, w, d) && d != 0 && 2 <= c < g.max && v.t[c] == FREE
    requires |b| == g.ClusterSize() && forall i :: 0 <= i < |b| ==> b[i] == 0
    requires NoFreeTo(g, v, w, d, AreaCount(w, d)) && Lookup(g, v, w, d, target) == NONE
    ensures |w.chain[d]| > 0 && 2 <= w.chain[d][|w.chain[d]| - 1] < g.max
    ensures Inv(g, GrownV(v, w, d, c, b), GrowW(w, d, c)) && IsDirNo(g, GrowW(w, d, c), d) && !DirArea(g, w, c)
    ensures Creatable(g, GrownV(v, w, d, c, b), GrowW(w, d, c), d, target, Slot(c, 0))
  {
    GrowthKeepsInv(g, v, w, d, c, b);
    var v', w', x := GrownV(v, w, d, c, b), GrowW(w, d, c), Slot(c, 0);
    assert ClusterOk(g, v, w, [], c);
    assert EntryAt(b, 0)[0] == b[0];
    forall s | InDir(g, w', d, s) && Precedes(w', s, x) ensures !IsFree(Ent(g, v', s)) {
      GrownSlot(g, v, w, d, c, b, s);
      if s.a != c { DirAreaIs(g, v, w, d, s.a); }
    }
    forall s ensures !Named(g, v', w', d, target, s) {
      if InDir(g, w', d, s) {
        GrownSlot(g, v, w, d, c, b, s);
        assert s.a != c ==> s != NONE && !Named(g, v, w, d, target, s);
      }
    }
  }

  lemma GrowthDone(l: Layout, v: View, w: Witness, d: int, c: int, b: Bytes, target: Bytes, slot: DirSlot)
    requires l.Ok() && Inv(l.G(), v, w) && IsDirNo(l.G(), w, d) && d != 0 && 2 <= c < l.Clusters() && v.t[c] == FREE
    requires |b| == l.G().ClusterSize() && forall i :: 0 <= i < |b| ==> b[i] == 0
    requires NoFreeTo(l.G(), v, w, d, AreaCount(w, d)) && Lookup(l.G(), v, w, d, target) == NONE && c == FirstFree(v.t, 2)
    requires slot.sector == l.Lba(c) && slot.offset == 0 && !slot.found
    ensures |w.chain[d]| > 0 && 2 <= w.chain[d][|w.chain[d]| - 1] < l.Clusters()
    ensures Inv(l.G(), GrownV(v, w, d, c, b), GrowW(w, d, c))
    ensures LookupDone(l, v, w, GrownV(v, w, d, c, b), GrowW(w, d, c), d, target, true, 0, slot, Slot(c, 0))
  {
    GrownCreatable(l.G(), v, w, d, c, b, target);
    GrowthKeepsInv(l.G(), v, w, d, c, b);
    NoFreeSlot(l.G(), v, w, d);
    GrowthTakesOne(l.G(), v, w, d, c, b);
  }

  lemma GrowthTakesOne(g: Geo, v: View, w: Witness, d: int, c: int, b: Bytes)
    requires Inv(g, v, w) && IsDirNo(g, w, d) && d != 0 && 2 <= c < g.max && v.t[c] == FREE && c == FirstFree(v.t, 2)
    ensures |w.chain[d]| > 0 && 2 <= w.chain[d][|w.chain[d]| - 1] < g.max
    ensures Took(v, GrownV(v, w, d, c, b), 1)
  {
    assert HeadOk(g, v, w, NONE, d);
    var n := |w.chain[d]| - 1;
    ChainMember(g, v, w, NONE, [], d, n);
    FreeHead(v.t, GrownV(v, w, d, c, b).t, 2, c);
  }

  lemma GrownSlot(g: Geo, v: View, w: Witness, d: int, c: int, b: Bytes, s: Slot)
    requires Inv(g, v, w) && IsDirNo(g, w, d) && d != 0 && 2 <= c < g.max && v.t[c] == FREE
    requires |b| == g.ClusterSize() && forall i :: 0 <= i < |b| ==> b[i] == 0
    requires |w.chain[d]| > 0 && 2 <= w.chain[d][|w.chain[d]| - 1] < g.max
    requires InDir(g, GrowW(w, d, c), d, s)
    ensures Shape(g, GrownV(v, w, d, c, b), GrowW(w, d, c))
    ensures if s.a == c then IsEnd(Ent(g, GrownV(v, w, d, c, b), s))
            else InDir(g, w, d, s) && Ent(g, GrownV(v, w, d, c, b), s) == Ent(g, v, s) && AreaPos(GrowW(w, d, c), s.a) == AreaPos(w, s.a)
  {
    GrowthKeepsInv(g, v, w, d, c, b);
    assert ClusterOk(g, v, w, [], c);
    if s.a == c { assert EntryAt(b, s.k)[0] == b[SIZE * s.k]; }
  }

  /** The outcome of dir_lookup on a volume (v0, w0). */
  ghost predicate LookupDone(l: Layout, v0: View, w0: Witness, v: View, w: Witness, d: int, target: Bytes, create: bool, r: int, slot: DirSlot, x: Slot)
    requires l.Ok() && Shape(l.G(), v0, w0) && Shape(l.G(), v, w)
  {
    var g := l.G();
    && (r == 0 || r == 2 || r == 3)
    && (r == 0 ==> Places(l, slot, x))
    && (r == 0 && slot.found ==> v == v0 && w == w0 && x != NONE && Lookup(g, v, w, d, target) == x)
    && (r == 0 && !slot.found ==>
          && Lookup(g, v0, w0, d, target) == NONE && Creatable(g, v, w, d, target, x) && IsDirNo(g, w, d)
          && ((v == v0 && w == w0)
              || (create && d != 0 && !LiveAt(g, v0, w0, NONE, x) && Others(g, v0, w0, v, w, 0, x)
                  && NoFree(g, v0, w0, d) && Took(v0, v, 1) && w.lost == w0.lost)))
    && (r == 2 || r == 3 ==>
          && v == v0 && w == w0 && Lookup(g, v, w, d, target) == NONE && NoFree(g, v, w, d))
    && (r == 2 ==> !create || d == 0)
    && (r == 3 ==> create && d != 0 && FirstFree(v.t, 2) == g.max)
  }

  /** The free slot remembered after j areas. */
  ghost predicate FreeOk(l: Layout, v: View, w: Witness, d: int, free: MaybeSlot, fx: Slot, j: nat)
    requires l.Ok() && Shape(l.G(), v, w)
  {
    if free.Nowhere? then fx == NONE && NoFreeTo(l.G(), v, w, d, j)
    else FirstFreeSlot(l.G(), v, w, d, fx) && Places(l, free.s, fx) && !free.s.found
  }

  lemma FreeStart(l: Layout, v: View, w: Witness, d: int)
    requires l.Ok() && Shape(l.G(), v, w) && NoFreeTo(l.G(), v, w, d, 0)
    ensures FreeOk(l, v, w, d, Nowhere, NONE, 0)
  {
  }

  lemma FreeOkMore(l: Layout, v: View, w: Witness, d: int, target: Bytes, j: nat, free0: MaybeSlot, fx0: Slot, free: MaybeSlot, fx: Slot, k: nat, res: Scan)
    requires l.Ok() && Inv(l.G(), v, w) && IsDirNo(l.G(), w, d) && j < AreaCount(w, d)
    requires AreaAt(w, d, j) == 0 || 2 <= AreaAt(w, d, j) < l.Clusters()
    requires FreeOk(l, v, w, d, free0, fx0, j)
    requires FreeKept(l, v, AreaAt(w, d, j), free0, fx0, free, fx, k) && StopOk(l.G(), v, AreaAt(w, d, j), target, res, k)
    requires res == Through ==> k == l.G().Slots(AreaAt(w, d, j))
    ensures res == Through ==> FreeOk(l, v, w, d, free, fx, j + 1)
    ensures res == End && free.Here? ==> FreeOk(l, v, w, d, free, fx, j + 1)
  {
    if free0.Nowhere? && free.Here? && fx.k < l.G().Slots(AreaAt(w, d, j)) {
      FirstFreeFound(l.G(), v, w, d, j, fx.k);
    }
    if free.Nowhere? && res == Through {
      NoFreeMore(l.G(), v, w, d, j);
    }
  }

  lemma SlotPlace(l: Layout, a: int, s: nat, i: nat)
    requires l.Ok() && (a == 0 || 2 <= a < l.Clusters()) && s < l.Len(a) && i < 16
    ensures 0 <= l.Lba(a) + s && Places(l, DirSlot(l.Lba(a) + s, i * SIZE, false), Slot(a, 16 * s + i))
    ensures Places(l, DirSlot(l.Lba(a) + s, i * SIZE, true), Slot(a, 16 * s + i))
  {
    AreaOnDisk(l, a);
    assert (16 * s + i) / 16 == s && (16 * s + i) % 16 == i;
  }

  datatype Scan = Through | Match | End
  datatype MaybeSlot = Nowhere | Here(s: DirSlot)

  /** The first k entries of area a neither end the scan nor match. */
  ghost predicate Clear(g: Geo, v: View, a: int, target: Bytes, k: nat)
    requires g.Ok() && |v.cl| == g.max && (a == 0 || 2 <= a < g.max) && |v.cl[a]| == SIZE * g.Slots(a)
  {
    k <= g.Slots(a) && forall j :: 0 <= j < k ==> !IsEnd(Ent(g, v, Slot(a, j))) && !Matches(Ent(g, v, Slot(a, j)), target)
  }

  /** Why the scan stopped at entry k. */
  ghost predicate StopOk(g: Geo, v: View, a: int, target: Bytes, res: Scan, k: nat)
    requires g.Ok() && |v.cl| == g.max && (a == 0 || 2 <= a < g.max) && |v.cl[a]| == SIZE * g.Slots(a)
  {
    res != Through ==>
      k < g.Slots(a) && (if res == Match then Matches(Ent(g, v, Slot(a, k)), target) else IsEnd(Ent(g, v, Slot(a, k))))
  }

  /** A free slot found earlier is kept; otherwise the first free one among the entries up to k. */
  ghost predicate FreeKept(l: Layout, v: View, a: int, free0: MaybeSlot, fx0: Slot, free: MaybeSlot, fx: Slot, k: nat)
    requires l.Ok() && |v.cl| == l.Clusters() && (a == 0 || 2 <= a < l.Clusters()) && |v.cl[a]| == SIZE * l.G().Slots(a)
  {
    && k <= l.G().Slots(a)
    && (if free0.Here? then free == free0 && fx == fx0
        else if free.Nowhere? then fx == fx0 && forall j :: 0 <= j < k ==> !IsFree(Ent(l.G(), v, Slot(a, j)))
        else fx.a == a && 0 <= fx.k <= k && Places(l, free.s, fx) && !free.s.found && IsFree(Ent(l.G(), v, fx))
             && forall j :: 0 <= j < fx.k ==> !IsFree(Ent(l.G(), v, Slot(a, j))))
  }
}
