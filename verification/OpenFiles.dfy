/** The open-file table: handles with an offset, over the FAT driver. */
module OpenFiles {
  import opened FatTable
  import opened Dirent
  import opened FatInvariant
  import opened FatContent
  import opened FatDisk
  import opened FatPath
  import opened FatUpdate
  import opened FatVolume
  import opened FatFiles
  import opened FatWrite
  import opened FatWriteAt
  import opened Bits

  const MAX_OPEN_FILES: nat := 128
  const MAX_PATH: nat := 63

  /** No write on a FAT12 volume reaches further. */
  const MAX_REACH: nat := 0x3000_0000

  // ----- the size of the read buffer -----

  /** fat_read_alloc_size, in 32-bit arithmetic. */
  function ReadAllocSize(size: nat, cs: nat): nat
    requires 0 < cs < WORD
  {
    And((size + cs - 1) % WORD, WORD - cs)
  }

  lemma CeilQuotient(size: nat, n: nat, cs: nat)
    requires cs > 0 && if n == 0 then size == 0 else CeilIs(n, size, cs)
    ensures (size + cs - 1) / cs == n
  {
    assert (n - 1) * cs == n * cs - cs;
    DivIs(size + cs - 1, cs, n);
  }

  lemma MaskRounds(x: nat, cs: nat, k: nat)
    requires cs == Pow2(k) && cs < WORD && x < WORD
    ensures And(x, WORD - cs) == x / cs * cs
  {
    Pow2Values();
    if k > 32 { PowMono(32, k); }
    AndMask(x, k, 32);
  }

  /** For a power of two the formula rounds up to whole clusters. */
  lemma RoundsUp(size: nat, n: nat, cs: nat, k: nat)
    requires cs == Pow2(k) && cs < 131072 && size < 0xFF00_0000
    requires if n == 0 then size == 0 else CeilIs(n, size, cs)
    ensures ReadAllocSize(size, cs) == n * cs
  {
    hide And, Pow2, CeilIs;
    MaskRounds(size + cs - 1, cs, k);
    CeilQuotient(size, n, cs);
  }

  /** The formula is right about a size. */
  predicate RoundsAt(size: nat, cs: nat)
    requires 0 < cs < WORD
  {
    ReadAllocSize(size, cs) == (size + cs - 1) / cs * cs
  }

  /** It rounds every size up to whole clusters exactly when the cluster size is a power of two; for any
      other cluster size a file of one byte already gets a buffer shorter than its chain delivers. */
  lemma RoundsUpIff(cs: nat)
    requires 0 < cs < 131072
    ensures (forall size: nat :: size < 0xFF00_0000 ==> RoundsAt(size, cs)) <==> (exists k: nat :: cs == Pow2(k))
    ensures ReadAllocSize(1, cs) <= cs && (ReadAllocSize(1, cs) == cs <==> exists k: nat :: cs == Pow2(k))
  {
    hide Pow2, LowBit, And, ReadAllocSize;
    OneByte(cs);
    if k: nat :| cs == Pow2(k) {
      forall size: nat | size < 0xFF00_0000 ensures RoundsAt(size, cs) { RoundsFor(size, cs, k); }
    }
    assert RoundsAt(1, cs) <==> ReadAllocSize(1, cs) == cs by { DivIs(cs, cs, 1); }
  }

  lemma RoundsFor(size: nat, cs: nat, k: nat)
    requires cs == Pow2(k) && cs < 131072 && size < 0xFF00_0000
    ensures RoundsAt(size, cs)
  {
    hide And, Pow2;
    MaskRounds(size + cs - 1, cs, k);
  }

  /** One byte gets a buffer of as many bytes as the lowest set bit of the cluster size. */
  lemma OneByte(cs: nat)
    requires 0 < cs < WORD
    ensures ReadAllocSize(1, cs) == LowBit(cs)
    ensures LowBit(cs) <= cs && (LowBit(cs) == cs <==> exists k: nat :: cs == Pow2(k))
  {
    hide Pow2, LowBit, And;
    Pow2Values();
    AndNegative(cs, 32);
    LowBitIsPower(cs);
    forall k: nat | cs == Pow2(k) ensures LowBit(cs) == cs { LowBitOfPower(k); }
  }

  /** Three sectors per cluster: one byte gets a buffer of one sector, its chain delivers three. */
  lemma ThreeSectorClusters()
    ensures ReadAllocSize(1, 3 * SECTOR) == SECTOR
  {
    hide ReadAllocSize, Pow2;
    OneByte(3 * SECTOR);
    assert LowBit(3) == 1;
    hide LowBit;
    LowBitDouble(3);
    LowBitDouble(6);
    LowBitDouble(12);
    LowBitDouble(24);
    LowBitDouble(48);
    LowBitDouble(96);
    LowBitDouble(192);
    LowBitDouble(384);
    LowBitDouble(768);
  }

  ghost predicate PowerOfTwo(cs: nat) { exists k: nat :: cs == Pow2(k) }

  /** For a power of two, a buffer made for a file of size bytes takes n clusters exactly when n is no more
      than the clusters such a file needs. */
  lemma BufferHolds(n: nat, size: nat, cs: nat)
    requires PowerOfTwo(cs) && 0 < cs < WORD
    ensures n * cs <= ReadAllocSize(size, cs) <==> n <= (size + cs - 1) % WORD / cs
  {
    hide And, Pow2;
    var k: nat :| cs == Pow2(k);
    var x := (size + cs - 1) % WORD;
    MaskRounds(x, cs, k);
    if n <= x / cs { MulMono(n, x / cs, cs); } else { MulMono(x / cs + 1, n, cs); assert (x / cs + 1) * cs == x / cs * cs + cs; }
  }

  // ----- the table -----

  /** open_file_t */
  datatype OpenFile = OpenFile(inUse: bool, path: Bytes, offset: nat, size: nat, writable: bool)

  /** What the fields of an open file satisfy, whatever has become of the file. */
  predicate Sane(f: OpenFile) { f.offset <= f.size <= MAX_REACH && |f.path| <= MAX_PATH && 0 !in f.path }

  /** The answer of kmalloc: no memory, or a block that holds what was last stored there. */
  datatype Buffer = Refused | Block(held: nat -> int)

  /** The path as a handle stores it. */
  function Cut(path: Bytes): Bytes {
    if |path| <= MAX_PATH then path else path[..MAX_PATH]
  }

  /** Handle f denotes a plain file, knows its size, and has its offset inside it. */
  ghost predicate HandleOk(l: Layout, v: View, w: Witness, f: OpenFile)
    requires l.Ok() && Shape(l.G(), v, w)
  {
    && f.offset <= f.size && PlainTarget(l.G(), v, w, f.path) && FileSlot(l.G(), v, w, f.path) != NONE
    && FileSize(Ent(l.G(), v, FileSlot(l.G(), v, w, f.path))) == f.size
  }

  /** The contents of the file behind a handle. */
  ghost function FileOf(l: Layout, v: View, w: Witness, f: OpenFile): (r: Bytes)
    requires l.Ok() && Inv(l.G(), v, w) && HandleOk(l, v, w, f)
    ensures |r| == f.size
  {
    BytesAt(l.G(), v, w, f.path)
  }

  // ----- reading into the buffer -----

  /** What fat_read_file delivers for a path: all its clusters. */
  ghost function Whole(l: Layout, v: View, w: Witness, path: Bytes): (r: Bytes)
    requires l.Ok() && Inv(l.G(), v, w)
    ensures |r| == |OldChain(l.G(), v, w, path)| * l.G().ClusterSize()
  {
    OldOnVolume(l.G(), v, w, path);
    Content(l.G(), v, OldChain(l.G(), v, w, path))
  }

  function BufferSize(l: Layout, f: OpenFile): nat
    requires l.Ok()
  {
    ReadAllocSize(f.size, l.G().ClusterSize())
  }

  function Amount(f: OpenFile, len: nat): nat
    requires f.offset <= f.size
  {
    if len < f.size - f.offset then len else f.size - f.offset
  }

  /** file_read leaves its buffer: the clusters of the file do not fit, or the part asked for lies behind
      its end. */
  ghost predicate Overruns(l: Layout, v: View, w: Witness, f: OpenFile, len: nat)
    requires l.Ok() && Inv(l.G(), v, w) && Sane(f)
  {
    && FileSlot(l.G(), v, w, f.path) != NONE
    && (BufferSize(l, f) < |Whole(l, v, w, f.path)| || BufferSize(l, f) < f.offset + Amount(f, len))
  }

  /** The buffer after fat_read_file: the clusters of the file, and behind them what was there before. */
  function Loaded(whole: Bytes, held: nat -> int, n: nat): Bytes {
    seq(n, i requires 0 <= i < n => if i < |whole| then whole[i] else held(i))
  }

  /** The bytes a read that stays in its buffer delivers. */
  ghost function Given(l: Layout, v: View, w: Witness, f: OpenFile, held: nat -> int, len: nat): Bytes
    requires l.Ok() && Inv(l.G(), v, w) && Sane(f) && f.offset + Amount(f, len) <= BufferSize(l, f)
  {
    Loaded(Whole(l, v, w, f.path), held, BufferSize(l, f))[f.offset..f.offset + Amount(f, len)]
  }

  /** n bytes out have been delivered from the buffer. */
  ghost predicate Copied(l: Layout, v: View, w: Witness, f: OpenFile, held: nat -> int, len: nat, n: int, out: Bytes)
    requires l.Ok() && Inv(l.G(), v, w) && Sane(f)
  {
    n == Amount(f, len) && f.offset + n <= BufferSize(l, f) && out == Given(l, v, w, f, held, len)
  }

  /** Any handle, with a power-of-two cluster size: the buffer is overrun exactly when the file has more
      clusters by now than the size stored in the handle asks for. */
  lemma OverrunIff(l: Layout, v: View, w: Witness, f: OpenFile, len: nat)
    requires l.Ok() && Inv(l.G(), v, w) && Sane(f) && PowerOfTwo(l.G().ClusterSize())
    ensures Shape(l.G(), v, w)
    ensures Overruns(l, v, w, f, len) <==>
              FileSlot(l.G(), v, w, f.path) != NONE && |OldChain(l.G(), v, w, f.path)| > (f.size + l.G().ClusterSize() - 1) / l.G().ClusterSize()
  {
    hide PowerOfTwo, ReadAllocSize, GInv, Content, OldChain, FileSlot, Whole;
    InvShape(l.G(), v, w);
    WholeLength(l, v, w, f.path);
    HandleBuffer(|OldChain(l.G(), v, w, f.path)|, f.size, l.G().ClusterSize());
    assert BufferSize(l, f) == ReadAllocSize(f.size, l.G().ClusterSize());
  }

  lemma WholeLength(l: Layout, v: View, w: Witness, path: Bytes)
    requires l.Ok() && Inv(l.G(), v, w)
    ensures Shape(l.G(), v, w) && |Whole(l, v, w, path)| == |OldChain(l.G(), v, w, path)| * l.G().ClusterSize()
  {
  }

  lemma HandleBuffer(n: nat, size: nat, cs: nat)
    requires PowerOfTwo(cs) && 0 < cs < 131072 && size <= MAX_REACH
    ensures ReadAllocSize(size, cs) < n * cs <==> n > (size + cs - 1) / cs
    ensures size <= ReadAllocSize(size, cs)
  {
    hide PowerOfTwo, ReadAllocSize;
    BufferHolds(n, size, cs);
    BufferCovers(size, cs);
    assert (size + cs - 1) % WORD == size + cs - 1;
  }

  lemma BufferCovers(size: nat, cs: nat)
    requires PowerOfTwo(cs) && 0 < cs < 131072 && size <= MAX_REACH
    ensures size <= ReadAllocSize(size, cs)
  {
    hide Pow2, And;
    var k: nat :| cs == Pow2(k);
    MaskRounds(size + cs - 1, cs, k);
    QuotientBound(size + cs - 1, cs);
    assert ((size + cs - 1) / cs + 1) * cs == (size + cs - 1) / cs * cs + cs;
  }

  /** A handle just opened for reading, whose path was not cut, overruns its buffer when it is one on a
      directory: its entry has size 0, but a chain. With a power-of-two cluster size it does so exactly then. */
  lemma FreshOverrunIff(l: Layout, v: View, w: Witness, f: OpenFile, len: nat)
    requires l.Ok() && Inv(l.G(), v, w) && Sane(f) && f.offset == 0
    requires var x := FileSlot(l.G(), v, w, f.path); if x == NONE then f.size == 0 else LiveAt(l.G(), v, w, NONE, x) && f.size == FileSize(Ent(l.G(), v, x))
    ensures DirectoryTarget(l.G(), v, w, f.path) ==> Overruns(l, v, w, f, len)
    ensures PowerOfTwo(l.G().ClusterSize()) ==> (Overruns(l, v, w, f, len) <==> DirectoryTarget(l.G(), v, w, f.path))
  {
    hide PowerOfTwo, ReadAllocSize, GInv, Content, OldChain, FileSlot;
    InvShape(l.G(), v, w);
    var x, n, cs := FileSlot(l.G(), v, w, f.path), |OldChain(l.G(), v, w, f.path)|, l.G().ClusterSize();
    if x != NONE {
      EntryCount(l, v, w, f.path);
      if IsDirectory(Ent(l.G(), v, x)) {
        DirectoryBuffer(n, cs);
      } else if PowerOfTwo(cs) {
        FileBuffer(n, f.size, cs);
      }
    }
  }

  /** The clusters of an entry: as many as a file's size asks for, and at least one for a directory. */
  lemma EntryCount(l: Layout, v: View, w: Witness, path: Bytes)
    requires l.Ok() && Inv(l.G(), v, w) && FileSlot(l.G(), v, w, path) != NONE
    ensures var e, n := Ent(l.G(), v, FileSlot(l.G(), v, w, path)), |OldChain(l.G(), v, w, path)|;
            && 0 <= FileSize(e) < 0x2000_0000
            && if IsDirectory(e) then n > 0 && FileSize(e) == 0 else if n == 0 then FileSize(e) == 0 else CeilIs(n, FileSize(e), l.G().ClusterSize())
  {
    hide HeadOk, PairOk, ClusterOk;
    SlotFound(l.G(), v, w, path);
    var x := FileSlot(l.G(), v, w, path);
    assert SlotOk(l.G(), v, w, NONE, x);
    SizeBound(l.G(), v, w, x);
  }

  /** The buffer for a file is as long as its clusters. */
  lemma FileBuffer(n: nat, size: nat, cs: nat)
    requires PowerOfTwo(cs) && 0 < cs < 131072 && size < 0x2000_0000 && if n == 0 then size == 0 else CeilIs(n, size, cs)
    ensures ReadAllocSize(size, cs) == n * cs && size <= n * cs
  {
    hide Pow2, ReadAllocSize;
    var k: nat :| cs == Pow2(k);
    RoundsUp(size, n, cs, k);
  }

  /** The buffer for a directory is empty, whatever the cluster size. */
  lemma DirectoryBuffer(n: nat, cs: nat)
    requires 0 < cs < 131072 && n > 0
    ensures ReadAllocSize(0, cs) == 0 < n * cs
  {
    hide And, Pow2;
    Pow2Values();
    AndComplement(cs - 1, 32);
    MulMono(1, n, cs);
  }

  /** The bytes delivered do not depend on what the heap held before exactly when the file still has clusters for the part
      asked for; a file truncated since it was opened has not. */
  lemma HeapHiddenIff(l: Layout, v: View, w: Witness, f: OpenFile, len: nat)
    requires l.Ok() && Inv(l.G(), v, w) && Sane(f) && f.offset + Amount(f, len) <= BufferSize(l, f)
    ensures (forall h1, h2 {:trigger Given(l, v, w, f, h1, len), Given(l, v, w, f, h2, len)} :: Given(l, v, w, f, h1, len) == Given(l, v, w, f, h2, len))
            <==> Amount(f, len) == 0 || f.offset + Amount(f, len) <= |Whole(l, v, w, f.path)|
  {
    hide GInv, Content, ReadAllocSize, OldChain, Whole, FileSlot;
    var n := Amount(f, len);
    forall h1, h2 | n == 0 || f.offset + n <= |Whole(l, v, w, f.path)| ensures Given(l, v, w, f, h1, len) == Given(l, v, w, f, h2, len) {
      SameLoaded(Whole(l, v, w, f.path), h1, h2, BufferSize(l, f), f.offset, f.offset + n);
    }
    if n > 0 && f.offset + n > |Whole(l, v, w, f.path)| {
      var h0: nat -> int, h1: nat -> int := _ => 0, _ => 1;
      assert Given(l, v, w, f, h0, len)[n - 1] == 0 && Given(l, v, w, f, h1, len)[n - 1] == 1;
    }
  }

  lemma SameLoaded(whole: Bytes, h1: nat -> int, h2: nat -> int, n: nat, i: nat, j: nat)
    requires i <= j <= n && (i == j || j <= |whole|)
    ensures Loaded(whole, h1, n)[i..j] == Loaded(whole, h2, n)[i..j]
  {
  }

  /** The handle of a plain file that knows its size never does, wherever its offset is; the bytes
      delivered are those of the file. */
  lemma HandleReads(l: Layout, v: View, w: Witness, f: OpenFile, len: nat)
    requires l.Ok() && Inv(l.G(), v, w) && HandleOk(l, v, w, f) && Sane(f) && PowerOfTwo(l.G().ClusterSize())
    ensures !Overruns(l, v, w, f, len)
    ensures forall held, n, out {:trigger Copied(l, v, w, f, held, len, n, out)} :: Copied(l, v, w, f, held, len, n, out) ==> Taken(l, v, w, f, len, n, out)
  {
    hide PowerOfTwo, ReadAllocSize, GInv, FileSlot, PlainTarget, Content, OldChain, FileOf;
    InvShape(l.G(), v, w);
    HandleFile(l, v, w, f);
    HandleWhole(l, v, w, f);
    EntryCount(l, v, w, f.path);
    FileBuffer(|OldChain(l.G(), v, w, f.path)|, f.size, l.G().ClusterSize());
    forall held, m, out {:trigger Copied(l, v, w, f, held, len, m, out)} | Copied(l, v, w, f, held, len, m, out) ensures Taken(l, v, w, f, len, m, out) {
      LoadedPrefix(Whole(l, v, w, f.path), held, BufferSize(l, f), FileOf(l, v, w, f), f.offset, f.offset + Amount(f, len));
    }
  }

  lemma LoadedPrefix(whole: Bytes, held: nat -> int, n: nat, was: Bytes, i: nat, j: nat)
    requires was <= whole && |whole| <= n && i <= j <= |was|
    ensures Loaded(whole, held, n)[i..j] == was[i..j]
  {
  }

  /** The clusters of the file begin with its bytes. */
  lemma HandleWhole(l: Layout, v: View, w: Witness, f: OpenFile)
    requires l.Ok() && Inv(l.G(), v, w) && HandleOk(l, v, w, f)
    ensures FileOf(l, v, w, f) <= Whole(l, v, w, f.path)
  {
    hide GInv, Content;
    InvShape(l.G(), v, w);
    HandleFile(l, v, w, f);
    SizeInChain(l.G(), v, w, FileSlot(l.G(), v, w, f.path));
  }

  class Files {
    const vol: Volume
    var files: seq<OpenFile>

    ghost predicate Valid()
      reads this, vol, vol.fat.buf, vol.dsk
    {
      vol.Valid() && |files| == MAX_OPEN_FILES && forall i :: 0 <= i < MAX_OPEN_FILES && files[i].inUse ==> Sane(files[i])
    }

    constructor (v: Volume)
      requires v.Valid()
      ensures Valid() && vol == v && |files| == 128 && forall i :: 0 <= i < 128 ==> !files[i].inUse
    {
      vol := v;
      files := seq(MAX_OPEN_FILES, _ => OpenFile(false, [], 0, 0, false));
    }

    /** The index is one of an open file. */
    predicate Open?(idx: int)
      requires |files| == MAX_OPEN_FILES
      reads this`files
    {
      0 <= idx < MAX_OPEN_FILES && files[idx].inUse
    }

    /** The lowest free slot, or -1. */
    method FreeSlot() returns (slot: int)
      requires |files| == MAX_OPEN_FILES
      ensures slot == -1 || 0 <= slot < MAX_OPEN_FILES
      ensures if slot < 0 then forall i :: 0 <= i < MAX_OPEN_FILES ==> files[i].inUse
              else !files[slot].inUse && forall i :: 0 <= i < slot ==> files[i].inUse
    {
      var i := 0;
      while i < MAX_OPEN_FILES
        invariant 0 <= i <= MAX_OPEN_FILES && forall j :: 0 <= j < i ==> files[j].inUse
      {
        if !files[i].inUse {
          return i;
        }
        i := i + 1;
      }
      return -1;
    }

    /** file_open */
    method Open(path: Bytes, writable: bool) returns (idx: int)
      requires Valid() && 0 !in path
      modifies this`files, vol`w, vol.fat.buf, vol.dsk
      ensures |files| == MAX_OPEN_FILES && (idx == -1 || 0 <= idx < MAX_OPEN_FILES)
      ensures idx == -1 ==> files == old(files)
      ensures !writable ==> Valid() && vol.V() == old(vol.V()) && vol.w == old(vol.w)
      ensures idx >= 0 ==> Valid() && !old(files)[idx].inUse && forall i :: 0 <= i < idx ==> old(files)[i].inUse
      ensures idx >= 0 ==> files == old(files)[idx := OpenFile(true, Cut(path), 0, files[idx].size, writable)]
      ensures idx >= 0 && writable ==> files[idx].size == 0 && vol.Synced()
      ensures idx >= 0 && writable ==> if StorableName(vol.l.G(), old(vol.V()), old(vol.w), path)
                                       then Replaced(vol.l.G(), old(vol.V()), old(vol.w), vol.V(), vol.w, path, [])
                                       else Buried(vol.l.G(), old(vol.V()), old(vol.w), vol.V(), vol.w, path, 0)
      ensures idx >= 0 && writable ==> (VolumeOk(vol.l.G(), vol.V()) <==> VolumeOk(vol.l.G(), old(vol.V())) && LosesNothing(vol.l.G(), old(vol.V()), old(vol.w), path, 0))
      ensures idx >= 0 && !writable ==>
        var x := FileSlot(vol.l.G(), vol.V(), vol.w, path);
        if x == NONE then files[idx].size == 0 else LiveAt(vol.l.G(), vol.V(), vol.w, NONE, x) && files[idx].size == FileSize(Ent(vol.l.G(), vol.V(), x))
      ensures idx == -1 && writable ==>
        (forall i :: 0 <= i < MAX_OPEN_FILES ==> old(files)[i].inUse) || vol.dsk.faulty
        || !HasPlace(vol.l.G(), old(vol.V()), old(vol.w), path) || !Fits(vol.l.G(), old(vol.V()), old(vol.w), path, 0)
      ensures idx == -1 && !writable ==>
        (forall i :: 0 <= i < MAX_OPEN_FILES ==> old(files)[i].inUse) || vol.dsk.faulty || FileSlot(vol.l.G(), old(vol.V()), old(vol.w), path) == NONE
      ensures idx >= 0 && writable && StorableName(vol.l.G(), old(vol.V()), old(vol.w), path) ==>
        Room(vol.V().t) + FileCount(vol.l.G(), vol.V(), vol.w, path)
        == Room(AfterGivingUp(vol.l.G(), old(vol.V()), old(vol.w), path)) - Growth(vol.l.G(), old(vol.V()), old(vol.w), path)
    {
      hide Replaced, Buried, StorableName, VolumeOk, LosesNothing, HasPlace, Fits, FileSlot, FileCount, AfterGivingUp, Growth, Room, Volume.Synced, Areas, GInv;
      CutSane(path);
      var st, info := Stat(vol, path);
      if !writable && st != 0 {
        return -1;
      }
      var slot := FreeSlot();
      if slot < 0 {
        return -1;
      }
      if writable {
        var r := WriteFile(vol, path, []);
        if r != 0 {
          return -1;
        }
      } else {
        StatSize(vol.l, vol.V(), vol.w, path, info);
      }
      var size := if writable then 0 else info.size;
      files := files[slot := OpenFile(true, Cut(path), 0, size, writable)];
      idx := slot;
    }

    /** file_close */
    method Close(idx: int)
      requires |files| == MAX_OPEN_FILES
      modifies this`files
      ensures files == if 0 <= idx < MAX_OPEN_FILES then old(files)[idx := old(files)[idx].(inUse := false)] else old(files)
    {
      if idx < 0 || idx >= MAX_OPEN_FILES {
        return;
      }
      files := files[idx := files[idx].(inUse := false)];
    }

    /** file_read. mem is the answer of kmalloc. When the buffer is overrun, memory behind it has been
        overwritten or read, and nothing more is promised of the call. */
    method Read(idx: int, len: nat, mem: Buffer) returns (n: int, out: Bytes, overrun: bool)
      requires Valid()
      modifies this`files, vol`w, vol.fat.buf, vol.dsk
      ensures Valid() && vol.V() == old(vol.V()) && vol.w == old(vol.w)
      ensures n >= -1 && (n == -1 ==> files == old(files)) && (overrun ==> n == -1)
      ensures n != -1 || overrun ==> old(Open?(idx)) && mem.Block?
      ensures n != -1 ==> !Overruns(vol.l, vol.V(), vol.w, old(files)[idx], len)
      ensures n != -1 ==> Copied(vol.l, vol.V(), vol.w, old(files)[idx], mem.held, len, n, out)
      ensures n != -1 ==> files == old(files)[idx := old(files)[idx].(offset := old(files)[idx].offset + n)]
      ensures overrun ==> Overruns(vol.l, vol.V(), vol.w, old(files)[idx], len)
      ensures n == -1 && !overrun && old(Open?(idx)) && mem.Block? ==>
        vol.dsk.faulty || FileSlot(vol.l.G(), vol.V(), vol.w, old(files)[idx].path) == NONE
    {
      hide Overruns, Copied, BufferSize, Whole, FileSlot, OldChain, Volume.Synced, Areas;
      out, overrun := [], false;
      if idx < 0 || idx >= MAX_OPEN_FILES || !files[idx].inUse {
        return -1, out, false;
      }
      var f := files[idx];
      var alloc := BufferSize(vol.l, f);
      if mem.Refused? {
        return -1, out, false;
      }
      var r, size, tmp := ReadFile(vol, f.path);
      Received(vol.l, vol.V(), vol.w, f, len, r, tmp);
      if |tmp| > alloc {
        return -1, out, true;
      }
      if r != 0 {
        return -1, out, false;
      }
      n := Amount(f, len);
      if f.offset + n > alloc {
        return -1, out, true;
      }
      CopiedNow(vol.l, vol.V(), vol.w, f, mem.held, len, tmp);
      out := Loaded(tmp, mem.held, alloc)[f.offset..f.offset + n];
      files := files[idx := f.(offset := f.offset + n)];
    }

    /** file_write */
    method Write(idx: int, data: Bytes) returns (r: int, ghost ok: bool)
      requires Valid() && |data| <= KERNEL_BASE
      modifies this`files, vol`w, vol.fat.buf, vol.dsk
      ensures |files| == MAX_OPEN_FILES
      ensures !ok ==> r == -1 && files == old(files)
      ensures ok ==> old(Open?(idx)) && old(files)[idx].writable && r == ToInt32(|data|) && files == old(files)[idx := Advanced(old(files)[idx], |data|)]
      ensures ok ==> if data == [] then Valid() && vol.V() == old(vol.V()) && vol.w == old(vol.w)
                     else vol.Ready() && PutAt(vol.l.G(), old(vol.V()), old(vol.w), vol.V(), vol.w, old(files)[idx].path, old(files)[idx].offset, data) && r == |data|
      ensures ok && !DirectoryTarget(vol.l.G(), old(vol.V()), old(vol.w), old(files)[idx].path) ==> Valid()
      ensures ok && HandleOk(vol.l, old(vol.V()), old(vol.w), old(files)[idx]) ==>
        Valid() && Put(vol.l, old(vol.V()), old(vol.w), vol.V(), vol.w, old(files)[idx], files[idx], data)
      ensures !ok && old(Open?(idx)) && old(files)[idx].writable ==>
        vol.dsk.faulty || (data != [] && (!HasPlace(vol.l.G(), old(vol.V()), old(vol.w), old(files)[idx].path)
                                          || !ReachFits(vol.l.G(), old(vol.V()), old(vol.w), old(files)[idx].path, old(files)[idx].offset + |data|)))
      ensures ok && HandleOk(vol.l, old(vol.V()), old(vol.w), old(files)[idx]) ==>
        Room(vol.V().t) + FileCount(vol.l.G(), vol.V(), vol.w, old(files)[idx].path)
        == Room(old(vol.V()).t) + FileCount(vol.l.G(), old(vol.V()), old(vol.w), old(files)[idx].path)
    {
      hide HandleOk, Put, PutAt, PlainTarget, DirectoryTarget, HasPlace, ReachFits, Growth, FileCount, Room, Leaked, RestKept, Resolve, FileSlot, GInv, Volume.Synced, Areas;
      if idx < 0 || idx >= MAX_OPEN_FILES || !files[idx].inUse || !files[idx].writable {
        return -1, false;
      }
      ghost var v0, w0 := vol.V(), vol.w;
      var f := files[idx];
      var e := WriteAt(vol, f.path, f.offset, data);
      if e != 0 {
        return -1, false;
      }
      WrittenThrough(vol.l, v0, w0, vol.V(), vol.w, f, data);
      files := files[idx := Advanced(f, |data|)];
      r, ok := ToInt32(|data|), true;
    }
  }

  lemma CutSane(path: Bytes)
    requires 0 !in path
    ensures |Cut(path)| <= MAX_PATH && 0 !in Cut(path)
  {
  }

  /** The size fat_stat reports fits the field of the open file. */
  lemma StatSize(l: Layout, v: View, w: Witness, path: Bytes, info: Info)
    requires l.Ok() && Inv(l.G(), v, w)
    requires var x := FileSlot(l.G(), v, w, path);
             if x == NONE then info == ROOT_INFO else LiveAt(l.G(), v, w, NONE, x) && info == InfoOf(Ent(l.G(), v, x))
    ensures 0 <= info.size <= MAX_REACH
  {
    var x := FileSlot(l.G(), v, w, path);
    if x != NONE { SizeBound(l.G(), v, w, x); }
  }

  /** What fat_read_file has put into the buffer when it returned r. */
  lemma Received(l: Layout, v: View, w: Witness, f: OpenFile, len: nat, r: int, tmp: Bytes)
    requires l.Ok() && Inv(l.G(), v, w) && Sane(f)
    requires var x := FileSlot(l.G(), v, w, f.path);
             && (r == 0 ==> x != NONE && FileIs(l.G(), v, w, x, Ent(l.G(), v, x), tmp))
             && (r == 2 ==> x != NONE && |tmp| <= |EntryChain(l.G(), w, Ent(l.G(), v, x))| * l.G().ClusterSize())
             && (r != 0 && r != 2 ==> tmp == [])
    ensures r == 0 ==> FileSlot(l.G(), v, w, f.path) != NONE && tmp == Whole(l, v, w, f.path)
    ensures |tmp| > BufferSize(l, f) ==> Overruns(l, v, w, f, len)
    ensures r == 0 ==> (Overruns(l, v, w, f, len) <==> |tmp| > BufferSize(l, f) || f.offset + Amount(f, len) > BufferSize(l, f))
  {
    hide GInv, Content, ReadAllocSize;
  }

  lemma CopiedNow(l: Layout, v: View, w: Witness, f: OpenFile, held: nat -> int, len: nat, tmp: Bytes)
    requires l.Ok() && Inv(l.G(), v, w) && Sane(f) && tmp == Whole(l, v, w, f.path) && f.offset + Amount(f, len) <= BufferSize(l, f)
    ensures |Loaded(tmp, held, BufferSize(l, f))| == BufferSize(l, f)
    ensures Copied(l, v, w, f, held, len, Amount(f, len), Loaded(tmp, held, BufferSize(l, f))[f.offset..f.offset + Amount(f, len)])
  {
    hide GInv, Content, ReadAllocSize;
  }

  /** What a write through handle f has done, by what it denoted. */
  lemma WrittenThrough(l: Layout, v0: View, w0: Witness, v: View, w: Witness, f: OpenFile, data: Bytes)
    requires l.Ok() && Inv(l.G(), v0, w0) && Sane(f) && |data| <= KERNEL_BASE
    requires if data == [] then v == v0 && w == w0
             else PutAt(l.G(), v0, w0, v, w, f.path, f.offset, data) && ReachFits(l.G(), v0, w0, f.path, f.offset + |data|)
    ensures data != [] ==> ToInt32(|data|) == |data|
    ensures Sane(Advanced(f, |data|))
    ensures !DirectoryTarget(l.G(), v0, w0, f.path) ==> Inv(l.G(), v, w)
    ensures HandleOk(l, v0, w0, f) ==> Inv(l.G(), v, w) && Put(l, v0, w0, v, w, f, Advanced(f, |data|), data)
    ensures HandleOk(l, v0, w0, f) ==> PlainTarget(l.G(), v0, w0, f.path) && Growth(l.G(), v0, w0, f.path) == 0
  {
    hide HandleOk, Put, PutAt, ReachFits, PlainTarget, DirectoryTarget, Growth;
    if data != [] { SmallReach(l, v0, w0, f.path, f.offset + |data|); SmallCast(|data|); }
    InvShape(l.G(), v0, w0);
    if !DirectoryTarget(l.G(), v0, w0, f.path) { NotDirectory(l, v0, w0, v, w, f, data); }
    if HandleOk(l, v0, w0, f) {
      HandlePlace(l, v0, w0, f);
      PlainPut(l, v0, w0, v, w, f, data);
      PutDone(l, v0, w0, v, w, f, data);
    }
  }

  lemma NotDirectory(l: Layout, v0: View, w0: Witness, v: View, w: Witness, f: OpenFile, data: Bytes)
    requires l.Ok() && Inv(l.G(), v0, w0) && !DirectoryTarget(l.G(), v0, w0, f.path)
    requires if data == [] then v == v0 && w == w0 else PutAt(l.G(), v0, w0, v, w, f.path, f.offset, data)
    ensures Inv(l.G(), v, w)
  {
    hide GInv, Overwritten, Buried, DirectoryTarget;
  }

  lemma PlainPut(l: Layout, v0: View, w0: Witness, v: View, w: Witness, f: OpenFile, data: Bytes)
    requires l.Ok() && Inv(l.G(), v0, w0) && PlainTarget(l.G(), v0, w0, f.path)
    requires if data == [] then v == v0 && w == w0 else PutAt(l.G(), v0, w0, v, w, f.path, f.offset, data)
    ensures Inv(l.G(), v, w) && (data != [] ==> Overwritten(l.G(), v0, w0, v, w, f.path, f.offset, data))
  {
    hide GInv, Overwritten, Buried;
  }

  /** No disk is so large that a write would reach beyond the range of an int. */
  lemma SmallReach(l: Layout, v: View, w: Witness, path: Bytes, reach: nat)
    requires l.Ok() && Inv(l.G(), v, w) && reach > 0 && ReachFits(l.G(), v, w, path, reach)
    ensures reach <= MAX_REACH
  {
    hide Growth, Resolve, HeadOk, PairOk, ClusterOk;
    var g, x := l.G(), FileSlot(l.G(), v, w, path);
    UsedLimit(v.t, 2);
    if x != NONE && 2 <= First(Ent(g, v, x)) < g.max { ChainBound(g, v, w, First(Ent(g, v, x))); }
    var q := (reach - 1) / g.ClusterSize();
    QuotientBound(reach - 1, g.ClusterSize());
    MulMono(q + 1, 6144, g.ClusterSize());
  }

  lemma QuotientBound(a: nat, d: nat)
    requires d > 0
    ensures 0 <= a / d && a < (a / d + 1) * d
  {
    assert (a / d + 1) * d == a / d * d + d;
  }

  /** The cast to int of the value returned. */
  function ToInt32(n: nat): int { if n % WORD < 0x8000_0000 then n % WORD else n % WORD - WORD }

  lemma SmallCast(n: nat)
    requires n < 0x8000_0000
    ensures ToInt32(n) == n
  {
  }

  /** A read of len bytes through f delivers the next n bytes of the file, fewer only at its end. */
  ghost predicate Taken(l: Layout, v: View, w: Witness, f: OpenFile, len: nat, n: int, out: Bytes)
    requires l.Ok() && Inv(l.G(), v, w)
  {
    && HandleOk(l, v, w, f) && n == Amount(f, len)
    && out == FileOf(l, v, w, f)[f.offset..f.offset + n]
  }

  /** The handle after len bytes have been written through it. */
  function Advanced(f: OpenFile, len: nat): OpenFile { f.(offset := f.offset + len, size := Max(f.size, f.offset + len)) }

  lemma HandleSize(l: Layout, v: View, w: Witness, f: OpenFile)
    requires l.Ok() && Inv(l.G(), v, w) && HandleOk(l, v, w, f)
    ensures f.size < 0x2000_0000
  {
    HandleFile(l, v, w, f);
    hide GInv;
    SizeBound(l.G(), v, w, FileSlot(l.G(), v, w, f.path));
  }

  lemma HandleFile(l: Layout, v: View, w: Witness, f: OpenFile)
    requires l.Ok() && Inv(l.G(), v, w) && HandleOk(l, v, w, f)
    ensures var x := FileSlot(l.G(), v, w, f.path);
            LiveAt(l.G(), v, w, NONE, x) && !IsDirectory(Ent(l.G(), v, x)) && FileSize(Ent(l.G(), v, x)) == f.size && l.G().perCluster < 4096
  {
  }

  lemma HandlePlace(l: Layout, v: View, w: Witness, f: OpenFile)
    requires l.Ok() && Inv(l.G(), v, w) && HandleOk(l, v, w, f)
    ensures PlainTarget(l.G(), v, w, f.path) && HasPlace(l.G(), v, w, f.path) && FileSlot(l.G(), v, w, f.path) != NONE
    ensures Growth(l.G(), v, w, f.path) == 0
  {
  }

  lemma Inside(l: Layout, v: View, w: Witness, f: OpenFile)
    requires l.Ok() && Inv(l.G(), v, w) && HandleOk(l, v, w, f)
    ensures f.offset <= f.size
  {
  }

  lemma Moved(l: Layout, v: View, w: Witness, f: OpenFile, n: nat)
    requires l.Ok() && Inv(l.G(), v, w) && HandleOk(l, v, w, f) && f.offset + n <= f.size
    ensures HandleOk(l, v, w, f.(offset := f.offset + n))
  {
  }

  /** A write through f puts the data at its offset, moves the offset behind it, and keeps everything
      else: the other bytes of the file, and all other files. */
  ghost predicate Put(l: Layout, v0: View, w0: Witness, v: View, w: Witness, f: OpenFile, f': OpenFile, data: Bytes)
    requires l.Ok() && Inv(l.G(), v0, w0) && Inv(l.G(), v, w)
  {
    && HandleOk(l, v0, w0, f) && HandleOk(l, v, w, f')
    && f' == Advanced(f, |data|)
    && FileOf(l, v, w, f') == SpliceOver(FileOf(l, v0, w0, f), f.offset, data)
    && Others(l.G(), v0, w0, v, w, OldFirst(l.G(), v0, w0, f.path), FileSlot(l.G(), v, w, f.path))
  }

  function SpliceOver(was: Bytes, offset: nat, data: Bytes): Bytes
    requires offset <= |was|
  {
    was[..offset] + data + if offset + |data| < |was| then was[offset + |data|..] else []
  }

  lemma PutDone(l: Layout, v0: View, w0: Witness, v: View, w: Witness, f: OpenFile, data: Bytes)
    requires l.Ok() && Inv(l.G(), v0, w0) && Inv(l.G(), v, w) && HandleOk(l, v0, w0, f) && f.offset + |data| < WORD
    requires if data == [] then v == v0 && w == w0 else Overwritten(l.G(), v0, w0, v, w, f.path, f.offset, data)
    ensures Put(l, v0, w0, v, w, f, Advanced(f, |data|), data)
  {
    hide GInv, BytesAt, Others, FileSlot, PlainTarget;
    if data == [] {
      InvShape(l.G(), v, w);
      OthersRefl(l.G(), v, w, OldFirst(l.G(), v0, w0, f.path), FileSlot(l.G(), v, w, f.path));
      assert SpliceOver(FileOf(l, v0, w0, f), f.offset, data) == FileOf(l, v0, w0, f);
      assert Advanced(f, 0) == f;
    } else {
      PutSome(l, v0, w0, v, w, f, data);
    }
  }

  lemma PutSome(l: Layout, v0: View, w0: Witness, v: View, w: Witness, f: OpenFile, data: Bytes)
    requires l.Ok() && Inv(l.G(), v0, w0) && Inv(l.G(), v, w) && HandleOk(l, v0, w0, f) && f.offset + |data| < WORD
    requires Overwritten(l.G(), v0, w0, v, w, f.path, f.offset, data)
    ensures Put(l, v0, w0, v, w, f, Advanced(f, |data|), data)
  {
    hide Overwritten, GInv, HandleOk, FileOf, SpliceOver, Others;
    HandleAfter(l, v0, w0, v, w, f, data);
    FileAfter(l, v0, w0, v, w, f, Advanced(f, |data|), data);
  }

  lemma FileAfter(l: Layout, v0: View, w0: Witness, v: View, w: Witness, f: OpenFile, f': OpenFile, data: Bytes)
    requires l.Ok() && Inv(l.G(), v0, w0) && Inv(l.G(), v, w) && HandleOk(l, v0, w0, f) && f.offset + |data| < WORD
    requires HandleOk(l, v, w, f') && f'.path == f.path && Overwritten(l.G(), v0, w0, v, w, f.path, f.offset, data)
    ensures f.offset <= |FileOf(l, v0, w0, f)| && FileOf(l, v, w, f') == SpliceOver(FileOf(l, v0, w0, f), f.offset, data)
  {
    hide Overwritten, GInv, PlainTarget, BytesAt, FileSlot;
    Inside(l, v0, w0, f);
    assert |FileOf(l, v0, w0, f)| == f.size;
    OverwriteIsSplice(l.G(), v0, w0, v, w, f.path, f.offset, data);
  }

  lemma HandleAfter(l: Layout, v0: View, w0: Witness, v: View, w: Witness, f: OpenFile, data: Bytes)
    requires l.Ok() && Inv(l.G(), v0, w0) && Inv(l.G(), v, w) && HandleOk(l, v0, w0, f) && f.offset + |data| < WORD
    requires Overwritten(l.G(), v0, w0, v, w, f.path, f.offset, data)
    ensures HandleOk(l, v, w, Advanced(f, |data|))
    ensures Others(l.G(), v0, w0, v, w, OldFirst(l.G(), v0, w0, f.path), FileSlot(l.G(), v, w, f.path))
  {
    hide Others, BytesAt, GInv, NewChain, ReachFits, Content, Patch, Strays, Resolve;
    InvShape(l.G(), v0, w0);
    InvShape(l.G(), v, w);
    StillPlain(l.G(), v0, w0, v, w, f.path, f.offset, data);
    OverwrittenSize(l.G(), v0, w0, v, w, f.path, f.offset, data);
  }

  // ----- any split into chunks -----

  function Concat(chunks: seq<Bytes>): Bytes {
    if chunks == [] then [] else Concat(chunks[..|chunks| - 1]) + chunks[|chunks| - 1]
  }

  function Sum(lens: seq<nat>): nat {
    if lens == [] then 0 else Sum(lens[..|lens| - 1]) + lens[|lens| - 1]
  }

  function Take(b: Bytes, n: nat): Bytes { if n < |b| then b[..n] else b }

  lemma {:induction false} ConcatPrefix(chunks: seq<Bytes>, i: nat)
    requires i <= |chunks|
    ensures |Concat(chunks[..i])| <= |Concat(chunks)|
    decreases |chunks| - i
  {
    if i < |chunks| {
      assert chunks[..i + 1][..i] == chunks[..i];
      ConcatPrefix(chunks, i + 1);
    } else {
      assert chunks[..i] == chunks;
    }
  }

  /** The handle a file just truncated is opened with. */
  lemma FreshHandle(l: Layout, v0: View, w0: Witness, v: View, w: Witness, path: Bytes)
    requires l.Ok() && Shape(l.G(), v0, w0) && Inv(l.G(), v, w) && StorableName(l.G(), v0, w0, path)
    requires Replaced(l.G(), v0, w0, v, w, path, [])
    ensures HandleOk(l, v, w, OpenFile(true, path, 0, 0, true))
  {
    ReadBack(l.G(), v0, w0, v, w, path, []);
    RecordRead(Resolve(l.G(), v0, w0, path).name, First(Ent(l.G(), v, FileSlot(l.G(), v, w, path))), 0);
  }

  lemma EmptyFile(l: Layout, v: View, w: Witness, f: OpenFile)
    requires l.Ok() && Inv(l.G(), v, w) && HandleOk(l, v, w, f) && f.size == 0
    ensures FileOf(l, v, w, f) == [] && FileCount(l.G(), v, w, f.path) == 0
  {
    assert SlotOk(l.G(), v, w, NONE, FileSlot(l.G(), v, w, f.path));
  }

  /** When the next chunk does not fit, all chunks together do not fit into the clusters there were. */
  lemma TooLong(g: Geo, v: View, w: Witness, path: Bytes, offset: nat, len: nat, room: int)
    requires Shape(g, v, w) && len > 0 && !ReachFits(g, v, w, path, offset + len)
    requires Growth(g, v, w, path) == 0 && Room(v.t) + FileCount(g, v, w, path) == room
    ensures offset + len > room * g.ClusterSize()
  {
    hide Growth, FileCount, Room;
    QuotientAbove(offset + len - 1, g.ClusterSize(), room);
  }

  lemma QuotientAbove(a: nat, d: nat, n: int)
    requires d > 0 && n <= a / d
    ensures n * d <= a
  {
    assert a / d * d <= a;
    MulMono(n, a / d, d);
  }

  lemma ChunkTooLong(l: Layout, v: View, w: Witness, f: OpenFile, chunks: seq<Bytes>, i: nat, t0: seq<int>)
    requires l.Ok() && Inv(l.G(), v, w) && HandleOk(l, v, w, f) && i < |chunks| && f.offset == |Concat(chunks[..i])|
    requires chunks[i] != [] && !ReachFits(l.G(), v, w, f.path, f.offset + |chunks[i]|)
    requires Room(v.t) + FileCount(l.G(), v, w, f.path) == Room(t0)
    ensures !RoomFor(t0, |Concat(chunks)|, l.G().ClusterSize())
  {
    hide HandleOk, ReachFits, Growth, FileCount, GInv, Room, FileSlot;
    InvShape(l.G(), v, w);
    HandlePlace(l, v, w, f);
    TooLong(l.G(), v, w, f.path, f.offset, |chunks[i]|, Room(t0));
    ConcatPrefix(chunks, i + 1);
    assert chunks[..i + 1][..i] == chunks[..i];
  }

  lemma Appended(l: Layout, v0: View, w0: Witness, v: View, w: Witness, f: OpenFile, f': OpenFile, data: Bytes)
    requires l.Ok() && Inv(l.G(), v0, w0) && Inv(l.G(), v, w) && Put(l, v0, w0, v, w, f, f', data) && f.offset == f.size
    ensures HandleOk(l, v0, w0, f) && HandleOk(l, v, w, f') && f'.offset == f'.size == f.size + |data| && f'.path == f.path && f'.inUse == f.inUse && f'.writable == f.writable
    ensures FileOf(l, v, w, f') == FileOf(l, v0, w0, f) + data
  {
    hide HandleOk;
    assert HandleOk(l, v, w, f');
    Inside(l, v0, w0, f);
    SpliceAtEnd(FileOf(l, v0, w0, f), data);
  }

  lemma SpliceAtEnd(was: Bytes, data: Bytes)
    ensures SpliceOver(was, |was|, data) == was + data
  {
  }

  /** The chunks are appended one after the other through handle idx. */
  method WriteChunks(t: Files, idx: nat, chunks: seq<Bytes>) returns (ok: bool)
    requires t.Valid() && idx < MAX_OPEN_FILES && t.files[idx].inUse
    requires HandleOk(t.vol.l, t.vol.V(), t.vol.w, t.files[idx]) && t.files[idx].offset == t.files[idx].size == 0
    requires forall i :: 0 <= i < |chunks| ==> |chunks[i]| <= KERNEL_BASE
    modifies t`files, t.vol`w, t.vol.fat.buf, t.vol.dsk
    ensures |t.files| == MAX_OPEN_FILES
    ensures ok ==> t.Valid() && HandleOk(t.vol.l, t.vol.V(), t.vol.w, t.files[idx]) && t.files[idx].path == old(t.files)[idx].path
    ensures ok ==> FileOf(t.vol.l, t.vol.V(), t.vol.w, t.files[idx]) == Concat(chunks)
    ensures !ok ==> t.vol.dsk.faulty || !old(t.files)[idx].writable || !RoomFor(old(t.vol.V()).t, |Concat(chunks)|, t.vol.l.G().ClusterSize())
  {
    hide HandleOk, FileOf, Put, PutAt, RoomFor, ReachFits, HasPlace, FileCount, Growth, Room, PlainTarget, DirectoryTarget, FileSlot, GInv, Volume.V, Volume.Synced, Areas;
    InvShape(t.vol.l.G(), t.vol.V(), t.vol.w);
    var i := 0;
    ghost var path := t.files[idx].path;
    assert chunks[..|chunks|] == chunks;
    EmptyFile(t.vol.l, t.vol.V(), t.vol.w, t.files[idx]);
    ghost var t0 := t.vol.V().t;
    while i < |chunks|
      invariant i <= |chunks| && t.Valid() && Shape(t.vol.l.G(), t.vol.V(), t.vol.w) && t.files[idx].inUse && t.files[idx].path == path
      invariant HandleOk(t.vol.l, t.vol.V(), t.vol.w, t.files[idx]) && t.files[idx].offset == t.files[idx].size == |Concat(chunks[..i])|
      invariant FileOf(t.vol.l, t.vol.V(), t.vol.w, t.files[idx]) == Concat(chunks[..i])
      invariant Room(t.vol.V().t) + FileCount(t.vol.l.G(), t.vol.V(), t.vol.w, path) == Room(t0) && t.files[idx].writable == old(t.files)[idx].writable
    {
      ConcatPrefix(chunks, i + 1);
      assert chunks[..i + 1][..i] == chunks[..i];
      ghost var v, w, f := t.vol.V(), t.vol.w, t.files[idx];
      var r;
      ghost var done;
      r, done := t.Write(idx, chunks[i]);
      HandlePlace(t.vol.l, v, w, f);
      if r < 0 {
        if !t.vol.dsk.faulty && f.writable { ChunkTooLong(t.vol.l, v, w, f, chunks, i, t0); }
        return false;
      }
      InvShape(t.vol.l.G(), t.vol.V(), t.vol.w);
      Appended(t.vol.l, v, w, t.vol.V(), t.vol.w, f, t.files[idx], chunks[i]);
      i := i + 1;
    }
    ok := true;
  }

  lemma {:induction false} SumPrefix(lens: seq<nat>, i: nat)
    requires i < |lens|
    ensures Sum(lens[..i + 1]) == Sum(lens[..i]) + lens[i]
  {
    assert lens[..i + 1][..i] == lens[..i];
  }

  lemma TakeMore(b: Bytes, a: nat, len: nat, n: nat)
    requires a <= |b| && n == (if len < |b| - a then len else |b| - a)
    ensures Take(b, a) + b[a..a + n] == Take(b, a + len) && |Take(b, a + len)| == a + n
  {
  }

  /** The file is read through handle idx in pieces of the given lengths; held(i) is what kmalloc's block
      for the i-th of them held before. */
  method ReadSplit(t: Files, idx: nat, lens: seq<nat>, held: nat -> (nat -> int)) returns (ok: bool, out: Bytes)
    requires t.Valid() && idx < MAX_OPEN_FILES && t.files[idx].inUse
    requires HandleOk(t.vol.l, t.vol.V(), t.vol.w, t.files[idx]) && t.files[idx].offset == 0
    modifies t`files, t.vol`w, t.vol.fat.buf, t.vol.dsk
    ensures t.Valid() && t.vol.V() == old(t.vol.V()) && t.vol.w == old(t.vol.w)
    ensures ok && PowerOfTwo(t.vol.l.G().ClusterSize()) ==> out == Take(FileOf(t.vol.l, t.vol.V(), t.vol.w, old(t.files)[idx]), Sum(lens))
    ensures !ok ==> t.vol.dsk.faulty || !PowerOfTwo(t.vol.l.G().ClusterSize())
  {
    hide HandleOk, FileOf, Taken, Copied, Overruns, PowerOfTwo, FileSlot, GInv, Volume.V, Volume.Synced, Areas;
    ghost var l, v, w, f0 := t.vol.l, t.vol.V(), t.vol.w, t.files[idx];
    ghost var all := FileOf(l, v, w, f0);
    ghost var exact := PowerOfTwo(l.G().ClusterSize());
    InvShape(l.G(), v, w);
    var i := 0;
    out, ok := [], true;
    while i < |lens|
      invariant i <= |lens| && t.Valid() && t.vol.V() == v && t.vol.w == w
      invariant exact ==> t.files[idx] == f0.(offset := |out|) && HandleOk(l, v, w, t.files[idx])
      invariant exact ==> out == Take(all, Sum(lens[..i]))
    {
      SumPrefix(lens, i);
      if exact {
        HandleReads(l, v, w, t.files[idx], lens[i]);
        HandleFound(l, v, w, t.files[idx]);
      }
      var n, part, overrun := t.Read(idx, lens[i], Block(held(i)));
      if n < 0 {
        return false, out;
      }
      if exact {
        Piece(l, v, w, f0, |out|, lens[i], n, part);
        TakeMore(all, |out|, lens[i], n);
        Moved(l, v, w, f0.(offset := |out|), n);
      }
      out := out + part;
      i := i + 1;
    }
    assert lens[..|lens|] == lens;
  }

  lemma HandleFound(l: Layout, v: View, w: Witness, f: OpenFile)
    requires l.Ok() && Inv(l.G(), v, w) && HandleOk(l, v, w, f)
    ensures FileSlot(l.G(), v, w, f.path) != NONE && FileSize(Ent(l.G(), v, FileSlot(l.G(), v, w, f.path))) == f.size
  {
  }

  lemma Piece(l: Layout, v: View, w: Witness, f0: OpenFile, at: nat, len: nat, n: int, part: Bytes)
    requires l.Ok() && Inv(l.G(), v, w) && HandleOk(l, v, w, f0) && Taken(l, v, w, f0.(offset := at), len, n, part)
    ensures var all := FileOf(l, v, w, f0);
            at <= |all| && n == (if len < |all| - at then len else |all| - at) && part == all[at..at + n]
  {
    hide BytesAt, FileSlot, PlainTarget, GInv;
  }

  /** A file written in any chunks, closed, opened again and read in any pieces yields the concatenation
      of the chunks, up to the number of bytes asked for. */
  method WriteCloseRead(t: Files, path: Bytes, chunks: seq<Bytes>, lens: seq<nat>, held: nat -> (nat -> int)) returns (ok: bool, out: Bytes)
    requires t.Valid() && StorableName(t.vol.l.G(), t.vol.V(), t.vol.w, path) && |path| <= MAX_PATH && 0 !in path
    requires forall i :: 0 <= i < |chunks| ==> |chunks[i]| <= KERNEL_BASE
    modifies t`files, t.vol`w, t.vol.fat.buf, t.vol.dsk
    ensures ok && PowerOfTwo(t.vol.l.G().ClusterSize()) ==> t.Valid() && out == Take(Concat(chunks), Sum(lens))
    ensures !ok ==>
      (forall i :: 0 <= i < MAX_OPEN_FILES ==> old(t.files)[i].inUse) || t.vol.dsk.faulty || !PowerOfTwo(t.vol.l.G().ClusterSize())
      || !HasPlace(t.vol.l.G(), old(t.vol.V()), old(t.vol.w), path) || !Fits(t.vol.l.G(), old(t.vol.V()), old(t.vol.w), path, |Concat(chunks)|)
  {
    hide HandleOk, FileOf, StorableName, Replaced, Buried, VolumeOk, LosesNothing, PowerOfTwo, FileSlot, HasPlace, Fits, RoomFor, AfterGivingUp, Growth, FileCount, Room, GInv, Volume.Synced, Areas;
    ghost var v0, w0 := t.vol.V(), t.vol.w;
    InvShape(t.vol.l.G(), v0, w0);
    var idx := t.Open(path, true);
    if idx < 0 {
      if Fits(t.vol.l.G(), v0, w0, path, |Concat(chunks)|) { FitsNothing(t.vol.l.G(), v0, w0, path, |Concat(chunks)|); }
      return false, [];
    }
    InvShape(t.vol.l.G(), t.vol.V(), t.vol.w);
    FreshHandle(t.vol.l, v0, w0, t.vol.V(), t.vol.w, path);
    EmptyFile(t.vol.l, t.vol.V(), t.vol.w, t.files[idx]);
    FitsByRoom(t.vol.l.G(), v0, w0, path, t.vol.V().t, |Concat(chunks)|);
    ok := WriteChunks(t, idx, chunks);
    if !ok {
      return false, [];
    }
    ghost var f := t.files[idx];
    t.Close(idx);
    HandleFound(t.vol.l, t.vol.V(), t.vol.w, f);
    var idx2 := t.Open(path, false);
    if idx2 < 0 {
      return false, [];
    }
    Reopened(t.vol.l, t.vol.V(), t.vol.w, f, t.files[idx2]);
    ok, out := ReadSplit(t, idx2, lens, held);
  }

  lemma Reopened(l: Layout, v: View, w: Witness, f: OpenFile, f': OpenFile)
    requires l.Ok() && Inv(l.G(), v, w) && HandleOk(l, v, w, f) && f'.path == f.path && f'.size == f.size && f'.offset == 0
    ensures HandleOk(l, v, w, f') && FileOf(l, v, w, f') == FileOf(l, v, w, f)
  {
    hide BytesAt, GInv;
  }
}
