/** Where the parts of a FAT12 volume lie on the disk, and the sector store under the driver.

The disk is a sequence of bytes, 512 to a sector. The driver addresses it by sector number, which
lba_to_chs turns into the cylinder, head and sector the drive wants. */
module FatDisk {
  import opened Bits
  import opened FatTable
  import opened Dirent
  import opened FatInvariant

  const SECTOR: nat := 512
  const SECTORS_PER_TRACK: nat := 63
  const HEADS: nat := 16
  const MAX_LBA: nat := 66060288

  // ----- the address map -----

  datatype Chs = Chs(cylinder: nat, head: nat, sector: nat)

  /** lba_to_chs, with the widths of its output parameters: 16, 8 and 8 bits. */
  function LbaToChs(lba: nat): Chs {
    Chs((lba / SECTORS_PER_TRACK) / HEADS % 0x1_0000, (lba / SECTORS_PER_TRACK) % HEADS, lba % SECTORS_PER_TRACK + 1)
  }

  /** The sector a drive with 16 heads and 63 sectors per track selects. */
  function ChsToLba(p: Chs): int {
    (p.cylinder * HEADS + p.head) * SECTORS_PER_TRACK + p.sector - 1
  }

  /** The drive finds the sector meant exactly when the cylinder fits 16 bits. */
  lemma ChsRoundTrip(lba: nat)
    ensures ChsToLba(LbaToChs(lba)) == lba <==> lba < 0x1_0000 * 16 * 63
    ensures 1 <= LbaToChs(lba).sector <= 63 && LbaToChs(lba).head < 16 && LbaToChs(lba).cylinder < 0x1_0000
    ensures ChsToLba(LbaToChs(lba)) == (LbaToChs(lba).cylinder * 16 + LbaToChs(lba).head) * 63 + LbaToChs(lba).sector - 1
  {
    var t := lba / SECTORS_PER_TRACK;
    assert lba == t * SECTORS_PER_TRACK + lba % SECTORS_PER_TRACK;
    assert t == (t / HEADS) * HEADS + t % HEADS;
    var c := t / HEADS;
    assert lba < MAX_LBA <==> c < 0x1_0000;
    if c >= 0x1_0000 {
      assert c % 0x1_0000 < c;
    }
  }

  // ----- layout -----

  /** The fields fat_init derives from the parameter block. */
  datatype Layout = Layout(fatStart: nat, fatCount: nat, sectorsPerFat: nat, rootSectors: nat, sectorsPerCluster: nat, total: nat) {
    function RootStart(): nat { fatStart + fatCount * sectorsPerFat }
    function DataStart(): nat { RootStart() + rootSectors }

    /** fat_total_clusters */
    function Clusters(): nat
      requires Ok()
    {
      (total - DataStart()) / sectorsPerCluster + 2
    }

    /** The volume fits the disk, the drive's addresses and the driver's table buffer. */
    predicate Ok() {
      && 0 < sectorsPerCluster < 256 && DataStart() <= total < MAX_LBA
      && sectorsPerFat * SECTOR <= 4608
      && Off((total - DataStart()) / sectorsPerCluster + 1) + 1 < sectorsPerFat * SECTOR
    }

    function G(): Geo
      requires Ok()
    {
      Geo(Clusters(), 16 * sectorsPerCluster, 16 * rootSectors)
    }

    /** First sector and number of sectors of an area. */
    function Lba(a: int): int { if a == 0 then RootStart() else DataStart() + (a - 2) * sectorsPerCluster }
    function Len(a: int): nat { if a == 0 then rootSectors else sectorsPerCluster }
  }

  /** Every area lies on the disk, behind the allocation tables. */
  lemma AreaOnDisk(l: Layout, a: int)
    requires l.Ok() && (a == 0 || 2 <= a < l.Clusters())
    ensures l.RootStart() <= l.Lba(a) && l.Lba(a) + l.Len(a) <= l.total
    ensures a != 0 ==> l.DataStart() <= l.Lba(a)
  {
    var n := (l.total - l.DataStart()) / l.sectorsPerCluster;
    assert n * l.sectorsPerCluster <= l.total - l.DataStart();
    if a != 0 {
      MulMono(a - 1, n, l.sectorsPerCluster);
      assert (a - 2) * l.sectorsPerCluster + l.sectorsPerCluster == (a - 1) * l.sectorsPerCluster;
      MulMono(0, a - 2, l.sectorsPerCluster);
    }
  }

  /** Different areas occupy disjoint sectors. */
  lemma AreasDisjoint(l: Layout, a: int, b: int)
    requires l.Ok() && a != b && (a == 0 || 2 <= a < l.Clusters()) && (b == 0 || 2 <= b < l.Clusters())
    ensures l.Lba(a) + l.Len(a) <= l.Lba(b) || l.Lba(b) + l.Len(b) <= l.Lba(a)
  {
    AreaOnDisk(l, a);
    AreaOnDisk(l, b);
    if a != 0 && b != 0 {
      var x, y := if a < b then a else b, if a < b then b else a;
      MulMono(x - 1, y - 2, l.sectorsPerCluster);
      assert (x - 2) * l.sectorsPerCluster + l.sectorsPerCluster == (x - 1) * l.sectorsPerCluster;
    }
  }

  /** The areas follow each other without a gap: the copies of the table, the root directory, and the
      clusters from number 2 on; behind the last one there is no room for another. */
  lemma AreasTile(l: Layout, a: int)
    requires l.Ok() && 2 <= a < l.Clusters()
    ensures l.Lba(0) == l.fatStart + l.fatCount * l.sectorsPerFat && l.Len(0) == l.rootSectors
    ensures l.Lba(2) == l.Lba(0) + l.Len(0) && l.Lba(a + 1) == l.Lba(a) + l.sectorsPerCluster && l.Len(a) == l.sectorsPerCluster
    ensures l.Lba(l.Clusters()) <= l.total < l.Lba(l.Clusters()) + l.sectorsPerCluster
    ensures l.G().ClusterSize() == 512 * l.sectorsPerCluster && l.G().rootSlots * 32 == 512 * l.rootSectors && l.G().max == l.Clusters()
  {
    assert (a + 1 - 2) * l.sectorsPerCluster == (a - 2) * l.sectorsPerCluster + l.sectorsPerCluster;
    QuotientRemainder(l.total - l.DataStart(), l.sectorsPerCluster);
  }

  lemma QuotientRemainder(x: nat, d: nat)
    requires d > 0
    ensures x / d * d <= x < x / d * d + d
  {
  }

  // ----- contents -----

  /** The bytes of n sectors from lba on. */
  function Sectors(disk: Bytes, lba: int, n: nat): (r: Bytes)
    requires 0 <= lba && SECTOR * (lba + n) <= |disk|
    ensures |r| == SECTOR * n
  {
    disk[SECTOR * lba..SECTOR * (lba + n)]
  }

  /** The disk after data has been written from sector lba on. */
  function Written(disk: Bytes, lba: int, data: Bytes): (r: Bytes)
    requires 0 <= lba && SECTOR * lba + |data| <= |disk|
    ensures |r| == |disk|
    ensures forall i :: 0 <= i < |disk| ==> r[i] == if SECTOR * lba <= i < SECTOR * lba + |data| then data[i - SECTOR * lba] else disk[i]
  {
    disk[..SECTOR * lba] + data + disk[SECTOR * lba + |data|..]
  }

  ghost function Area(l: Layout, disk: Bytes, a: int): (r: Bytes)
    requires l.Ok() && |disk| == SECTOR * l.total && (a == 0 || 2 <= a < l.Clusters())
    ensures |r| == SIZE * l.G().Slots(a)
  {
    AreaOnDisk(l, a);
    Sectors(disk, l.Lba(a), l.Len(a))
  }

  ghost function Areas(l: Layout, disk: Bytes): (r: seq<Bytes>)
    requires l.Ok() && |disk| == SECTOR * l.total
    ensures |r| == l.Clusters() && forall a :: a == 0 || 2 <= a < l.Clusters() ==> r[a] == Area(l, disk, a)
  {
    seq(l.Clusters(), a requires 0 <= a < l.Clusters() => if a == 1 then [] else Area(l, disk, a))
  }

  /** A write inside area a changes that area and no other. */
  lemma WriteInArea(l: Layout, disk: Bytes, a: int, s: nat, data: Bytes)
    requires l.Ok() && |disk| == SECTOR * l.total && (a == 0 || 2 <= a < l.Clusters())
    requires SECTOR * s + |data| <= SECTOR * l.Len(a)
    ensures 0 <= l.Lba(a) + s && SECTOR * (l.Lba(a) + s) + |data| <= |disk|
    ensures Areas(l, Written(disk, l.Lba(a) + s, data))
         == Areas(l, disk)[a := Areas(l, disk)[a][..SECTOR * s] + data + Areas(l, disk)[a][SECTOR * s + |data|..]]
  {
    AreaOnDisk(l, a);
    var d' := Written(disk, l.Lba(a) + s, data);
    var r := Areas(l, disk)[a := Areas(l, disk)[a][..SECTOR * s] + data + Areas(l, disk)[a][SECTOR * s + |data|..]];
    forall b: int | 0 <= b < l.Clusters() ensures Areas(l, d')[b] == r[b] {
      if b != 1 && b != a { WriteOtherArea(l, disk, a, s, data, b); }
      if b == a { SectorsInside(disk, l.Lba(a), l.Len(a), s, data); }
    }
  }

  lemma WriteOtherArea(l: Layout, disk: Bytes, a: int, s: nat, data: Bytes, b: int)
    requires l.Ok() && |disk| == SECTOR * l.total && (a == 0 || 2 <= a < l.Clusters()) && (b == 0 || 2 <= b < l.Clusters()) && a != b
    requires SECTOR * s + |data| <= SECTOR * l.Len(a) && 0 <= l.Lba(a) + s && SECTOR * (l.Lba(a) + s) + |data| <= |disk|
    ensures Area(l, Written(disk, l.Lba(a) + s, data), b) == Area(l, disk, b)
  {
    AreaOnDisk(l, a);
    AreaOnDisk(l, b);
    AreasDisjoint(l, a, b);
    SectorsApart(disk, l.Lba(a) + s, data, l.Lba(b), l.Len(b));
  }

  lemma SectorsApart(disk: Bytes, lba: int, data: Bytes, other: int, n: nat)
    requires 0 <= lba && SECTOR * lba + |data| <= |disk| && 0 <= other && SECTOR * (other + n) <= |disk|
    requires SECTOR * lba + |data| <= SECTOR * other || SECTOR * (other + n) <= SECTOR * lba
    ensures Sectors(Written(disk, lba, data), other, n) == Sectors(disk, other, n)
  {
  }

  lemma SectorsInside(disk: Bytes, lba: int, n: nat, s: nat, data: Bytes)
    requires 0 <= lba && SECTOR * (lba + n) <= |disk| && SECTOR * s + |data| <= SECTOR * n
    ensures var b := Sectors(disk, lba, n);
            Sectors(Written(disk, lba + s, data), lba, n) == b[..SECTOR * s] + data + b[SECTOR * s + |data|..]
  {
  }

  /** A write to the allocation tables changes no area. */
  lemma WriteOutsideAreas(l: Layout, disk: Bytes, lba: int, data: Bytes)
    requires l.Ok() && |disk| == SECTOR * l.total && 0 <= lba && SECTOR * lba + |data| <= SECTOR * l.RootStart()
    ensures SECTOR * lba + |data| <= |disk| && Areas(l, Written(disk, lba, data)) == Areas(l, disk)
  {
    AreaOnDisk(l, 0);
    forall b: int | 0 <= b < l.Clusters() ensures Areas(l, Written(disk, lba, data))[b] == Areas(l, disk)[b] {
      if b != 1 {
        AreaOnDisk(l, b);
        SectorsApart(disk, lba, data, l.Lba(b), l.Len(b));
      }
    }
  }

  lemma SectorSlice(l: Layout, disk: Bytes, a: int, s: nat)
    requires l.Ok() && |disk| == SECTOR * l.total && (a == 0 || 2 <= a < l.Clusters()) && s < l.Len(a)
    ensures 0 <= l.Lba(a) + s && SECTOR * (l.Lba(a) + s + 1) <= |disk| && l.Lba(a) + s + 1 <= MAX_LBA
    ensures Sectors(disk, l.Lba(a) + s, 1) == Areas(l, disk)[a][SECTOR * s..SECTOR * s + SECTOR]
  {
    AreaOnDisk(l, a);
    SectorOf(disk, l.Lba(a), l.Len(a), s);
  }

  lemma SectorOf(disk: Bytes, lba: int, n: nat, s: nat)
    requires 0 <= lba && SECTOR * (lba + n) <= |disk| && s < n
    ensures Sectors(disk, lba + s, 1) == Sectors(disk, lba, n)[SECTOR * s..SECTOR * s + SECTOR]
  {
    SliceOfSlice(disk, SECTOR * lba, SECTOR * (lba + n), SECTOR * s, SECTOR * s + SECTOR);
  }

  lemma SliceOfSlice(b: Bytes, i: nat, j: nat, p: nat, q: nat)
    requires i <= j <= |b| && p <= q <= j - i
    ensures b[i..j][p..q] == b[i + p..i + q]
  {
    forall k | 0 <= k < q - p ensures b[i..j][p..q][k] == b[i + p..i + q][k] { }
  }

  /** Entry i of sector s of an area is entry 16 * s + i of the area. */
  lemma SectorEntry(l: Layout, disk: Bytes, a: int, s: nat, i: nat)
    requires l.Ok() && |disk| == SECTOR * l.total && (a == 0 || 2 <= a < l.Clusters()) && s < l.Len(a) && i < 16
    ensures 0 <= l.Lba(a) + s && SECTOR * (l.Lba(a) + s + 1) <= |disk| && SIZE * (16 * s + i) + SIZE <= |Areas(l, disk)[a]|
    ensures EntryAt(Sectors(disk, l.Lba(a) + s, 1), i) == EntryAt(Areas(l, disk)[a], 16 * s + i)
  {
    SectorSlice(l, disk, a, s);
    SliceEntry(Areas(l, disk)[a], s, i);
  }

  lemma SliceEntry(b: Bytes, s: nat, i: nat)
    requires SECTOR * (s + 1) <= |b| && i < 16
    ensures EntryAt(b[SECTOR * s..SECTOR * s + SECTOR], i) == EntryAt(b, 16 * s + i)
  {
    var sub := b[SECTOR * s..SECTOR * s + SECTOR];
    forall j | 0 <= j < SIZE ensures EntryAt(sub, i)[j] == EntryAt(b, 16 * s + i)[j] {
      assert sub[SIZE * i + j] == b[SECTOR * s + SIZE * i + j];
    }
  }

  /** Writing back sector s of an area with one entry replaced replaces that entry of the area. */
  lemma StoreSector(l: Layout, disk: Bytes, a: int, s: nat, i: nat, e: Bytes, sec: Bytes)
    requires l.Ok() && |disk| == SECTOR * l.total && (a == 0 || 2 <= a < l.Clusters()) && s < l.Len(a) && i < 16 && |e| == SIZE
    requires 0 <= l.Lba(a) + s && SECTOR * (l.Lba(a) + s + 1) <= |disk|
    requires sec == WithEntry(Sectors(disk, l.Lba(a) + s, 1), i, e)
    ensures Areas(l, Written(disk, l.Lba(a) + s, sec)) == Areas(l, disk)[a := WithEntry(Areas(l, disk)[a], 16 * s + i, e)]
  {
    SectorSlice(l, disk, a, s);
    WriteInArea(l, disk, a, s, sec);
    EntryInSector(Areas(l, disk)[a], s, i, e);
  }

  lemma EntryInSector(b: Bytes, s: nat, i: nat, e: Bytes)
    requires SECTOR * (s + 1) <= |b| && i < 16 && |e| == SIZE
    ensures b[..SECTOR * s] + WithEntry(b[SECTOR * s..SECTOR * s + SECTOR], i, e) + b[SECTOR * s + SECTOR..] == WithEntry(b, 16 * s + i, e)
  {
  }

  // ----- the sector store -----

  /** The drive. A transfer may fail; a failed write leaves the addressed sector in any state. */
  class Disk {
    var data: Bytes

    /** Whether a transfer may fail. Without that, a report of a disk error is wrong. */
    const faulty: bool

    method AtaRead(p: Chs) returns (err: bool, buf: Bytes)
      requires 0 <= ChsToLba(p) && SECTOR * (ChsToLba(p) + 1) <= |data|
      ensures !err ==> buf == Sectors(data, ChsToLba(p), 1)
      ensures |buf| == SECTOR
      ensures err ==> faulty
    {
      var fails: bool := *;
      err := faulty && fails;
      buf := Sectors(data, ChsToLba(p), 1);
    }

    method AtaWrite(p: Chs, buf: Bytes) returns (err: bool)
      requires 0 <= ChsToLba(p) && SECTOR * (ChsToLba(p) + 1) <= |data| && |buf| == SECTOR
      modifies this
      ensures |data| == |old(data)|
      ensures !err ==> data == Written(old(data), ChsToLba(p), buf)
      ensures err ==> faulty
    {
      data := Written(data, ChsToLba(p), buf);
      var fails: bool := *;
      err := faulty && fails;
    }

    /** One round of the loops below: convert the address, transfer one sector. */
    method ReadOne(lba: nat) returns (err: bool, buf: Bytes)
      requires lba < MAX_LBA && SECTOR * (lba + 1) <= |data|
      ensures !err ==> buf == Sectors(data, lba, 1)
      ensures |buf| == SECTOR
      ensures err ==> faulty
    {
      ChsRoundTrip(lba);
      err, buf := AtaRead(LbaToChs(lba));
    }

    method WriteOne(lba: nat, buf: Bytes) returns (err: bool)
      requires lba < MAX_LBA && SECTOR * (lba + 1) <= |data| && |buf| == SECTOR
      modifies this
      ensures |data| == |old(data)|
      ensures !err ==> data == Written(old(data), lba, buf)
      ensures err ==> faulty
    {
      ChsRoundTrip(lba);
      err := AtaWrite(LbaToChs(lba), buf);
    }

    /** read_lba */
    method ReadLba(lba: nat, count: nat) returns (err: bool, buf: Bytes)
      requires lba + count <= MAX_LBA && SECTOR * (lba + count) <= |data|
      ensures !err ==> buf == Sectors(data, lba, count)
      ensures err ==> faulty
    {
      buf := [];
      var i := 0;
      while i < count
        invariant i <= count && buf == Sectors(data, lba, i)
      {
        var e, b := ReadOne(lba + i);
        if e {
          return true, buf;
        }
        buf := buf + b;
        i := i + 1;
      }
      return false, buf;
    }

    /** write_lba */
    method WriteLba(lba: nat, count: nat, buf: Bytes) returns (err: bool)
      requires lba + count <= MAX_LBA && SECTOR * (lba + count) <= |data| && |buf| == SECTOR * count
      modifies this
      ensures |data| == |old(data)|
      ensures !err ==> data == Written(old(data), lba, buf)
      ensures err ==> faulty
    {
      ghost var d0 := data;
      WrittenNone(d0, lba, buf);
      var i := 0;
      while i < count
        invariant i <= count && |data| == |d0| && data == WrittenPart(d0, lba, buf, i)
      {
        WrittenMore(d0, lba, buf, i);
        var e := WriteOne(lba + i, Chunk(buf, i));
        if e {
          return true;
        }
        i := i + 1;
      }
      return false;
    }
  }

  /** The i-th sector of a buffer. */
  function Chunk(buf: Bytes, i: nat): (r: Bytes)
    requires SECTOR * (i + 1) <= |buf|
    ensures |r| == SECTOR
  {
    buf[SECTOR * i..SECTOR * (i + 1)]
  }

  /** The disk after the first i sectors of the buffer have been written. */
  function WrittenPart(d0: Bytes, lba: nat, buf: Bytes, i: nat): (r: Bytes)
    requires SECTOR * i <= |buf| && SECTOR * lba + |buf| <= |d0|
    ensures |r| == |d0|
    ensures SECTOR * i == |buf| ==> r == Written(d0, lba, buf)
  {
    assert SECTOR * i == |buf| ==> buf[..SECTOR * i] == buf;
    Written(d0, lba, buf[..SECTOR * i])
  }

  lemma WrittenNone(d0: Bytes, lba: nat, buf: Bytes)
    requires SECTOR * lba + |buf| <= |d0|
    ensures WrittenPart(d0, lba, buf, 0) == d0
  {
  }

  lemma WrittenMore(d0: Bytes, lba: nat, buf: Bytes, i: nat)
    requires SECTOR * (i + 1) <= |buf| && SECTOR * lba + |buf| <= |d0|
    ensures Written(WrittenPart(d0, lba, buf, i), lba + i, Chunk(buf, i)) == WrittenPart(d0, lba, buf, i + 1)
  {
  }
}
