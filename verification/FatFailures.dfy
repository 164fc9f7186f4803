/** Requests that do not do what one would want although no disk error occurs, each made on a blank volume. */
module FatFailures {
  import opened Bits
  import opened FatTable
  import opened Dirent
  import opened FatInvariant
  import opened FatContent
  import opened FatDisk
  import opened FatPath
  import opened FatDirectory
  import opened FatUpdate
  import opened FatVolume
  import opened FatFiles
  import opened FatWrite
  import opened FatWriteAt
  import opened FatTree
  import opened OpenFiles

  /** The path "A". */
  const PATH_A: Bytes := [65]

  // ----- a blank volume -----

  /** Every cluster is free, and the root directory is empty but not of size zero. */
  ghost predicate Blank(g: Geo, v: View) {
    && g.Ok() && g.rootSlots > 0 && |v.t| == |v.cl| == g.max
    && (forall c :: 0 <= c < g.max ==> 0 <= v.t[c] < 4096 && (c >= 2 ==> v.t[c] == FREE))
    && (forall a :: (a == 0 || 2 <= a < g.max) ==> |v.cl[a]| == SIZE * g.Slots(a))
    && forall k :: 0 <= k < g.rootSlots ==> IsEnd(EntryAt(v.cl[0], k))
  }

  /** The witness of a volume without chains. */
  ghost function NoChains(g: Geo): Witness {
    Witness(seq(g.max, _ => []), seq(g.max, _ => 0), seq(g.max, _ => 0), seq(g.max, _ => NONE), seq(g.max, _ => false), seq(g.max, _ => 0), {})
  }

  lemma BlankOk(g: Geo, v: View)
    requires Blank(g, v)
    ensures Inv(g, v, NoChains(g)) && Room(v.t) == g.max - 2
  {
    var w := NoChains(g);
    forall s ensures SlotOk(g, v, w, NONE, s) {
      if IsSlot(g, w, s) { BlankSlot(g, v, s); }
    }
    forall s1, s2 ensures PairOk(g, v, w, NONE, s1, s2) {
      if IsSlot(g, w, s1) && IsSlot(g, w, s2) {
        BlankSlot(g, v, s1);
        BlankSlot(g, v, s2);
      }
    }
    NothingUsed(v.t, 2);
  }

  lemma BlankSlot(g: Geo, v: View, s: Slot)
    requires Blank(g, v) && IsSlot(g, NoChains(g), s)
    ensures s.a == 0 && IsEnd(Ent(g, v, s)) && IsFree(Ent(g, v, s)) && !Live(Ent(g, v, s))
  {
  }

  lemma {:induction false} NothingUsed(t: seq<int>, from: nat)
    requires forall c :: from <= c < |t| ==> t[c] == FREE
    ensures Used(t, from) == 0
    decreases |t| - from
  {
    if from < |t| {
      NothingUsed(t, from + 1);
    }
  }

  /** A blank volume exists: four clusters of 512 bytes, two of them for data, whatever these hold. */
  lemma SomeBlank(b2: Bytes, b3: Bytes)
    requires |b2| == |b3| == 512
    ensures var g := Geo(4, 16, 16);
            var zeros: Bytes := seq(512, _ => 0);
            Blank(g, View([EOC_MARK, EOC_MARK, FREE, FREE], [zeros, [], b2, b3]))
  {
    var zeros: Bytes := seq(512, _ => 0);
    forall k | 0 <= k < 16 ensures IsEnd(EntryAt(zeros, k)) { assert EntryAt(zeros, k)[0] == zeros[SIZE * k]; }
  }

  // ----- the path "A" -----

  lemma NameOfA()
    ensures |ToFatName(PATH_A)| == NAME_LEN && ToFatName(PATH_A)[0] == 65
  {
    FatNameAt(PATH_A, 0);
    assert BaseLen(PATH_A, 0) == 1;
  }

  /** It leads to the root directory. */
  lemma ResolveA(g: Geo, v: View, w: Witness)
    requires Shape(g, v, w)
    ensures Resolve(g, v, w, PATH_A) == At(0, ToFatName(PATH_A))
  {
    assert SkipSlashes(PATH_A, 0) == 0 && CompEnd(PATH_A, 0, MAX_COMPONENT) == 1;
    assert Comps(PATH_A, 1) == [];
    assert PATH_A[0..1] == PATH_A;
    assert Comps(PATH_A, 0) == [PATH_A];
  }

  /** On a blank volume it denotes nothing yet, and there is a place for it. */
  lemma BlankPlace(g: Geo, v: View)
    requires Blank(g, v)
    ensures var w := NoChains(g);
            && Inv(g, v, w) && PlainTarget(g, v, w, PATH_A) && HasPlace(g, v, w, PATH_A)
            && FileSlot(g, v, w, PATH_A) == NONE && Growth(g, v, w, PATH_A) == 0
  {
    var w := NoChains(g);
    BlankOk(g, v);
    ResolveA(g, v, w);
    NameOfA();
    var s := Lookup(g, v, w, 0, ToFatName(PATH_A));
    if s != NONE { BlankSlot(g, v, s); }
    BlankSlot(g, v, Slot(0, 0));
    assert InDir(g, w, 0, Slot(0, 0));
  }

  // ----- the two requests -----

  /** Replacing a file that has contents by data that does not fit reports so and leaves an inconsistent
      volume. */
  method ReplaceTooMuch(vol: Volume, path: Bytes, data: Bytes) returns (r: int)
    requires vol.Valid() && !vol.dsk.faulty && |data| < WORD && 0 !in path
    requires OldFirst(vol.l.G(), vol.V(), vol.w, path) != 0 && !Fits(vol.l.G(), vol.V(), vol.w, path, |data|)
    modifies vol`w, vol.fat.buf, vol.dsk
    ensures r == 3 && vol.Ready() && !VolumeOk(vol.l.G(), vol.V())
  {
    r := WriteFile(vol, path, data);
  }

  /** On a blank volume: write one byte to a file, then more than the disk holds. */
  method BlankThenReplace(vol: Volume, data: Bytes) returns (r: int)
    requires vol.Valid() && !vol.dsk.faulty && Blank(vol.l.G(), vol.V()) && vol.w == NoChains(vol.l.G()) && vol.l.G().max > 2
    requires (vol.l.G().max - 2) * vol.l.G().ClusterSize() < |data| < WORD
    modifies vol`w, vol.fat.buf, vol.dsk
    ensures r == 3 && vol.Ready() && !VolumeOk(vol.l.G(), vol.V())
  {
    hide HasPlace, Fits, Replaced, PlainTarget, Volume.Synced, Areas;
    ghost var g, v0, w0 := vol.l.G(), vol.V(), vol.w;
    BlankPlace(g, v0);
    BlankFits(g, v0);
    r := WriteFile(vol, PATH_A, [0]);
    AfterFirst(g, v0, w0, vol.V(), vol.w, |data|);
    r := ReplaceTooMuch(vol, PATH_A, data);
  }

  lemma BlankFits(g: Geo, v: View)
    requires Blank(g, v) && g.max > 2
    ensures Shape(g, v, NoChains(g)) && Fits(g, v, NoChains(g), PATH_A, |[0]|)
  {
    BlankPlace(g, v);
    BlankOk(g, v);
    MulMono(1, g.max - 2, g.ClusterSize());
  }

  lemma AfterFirst(g: Geo, v0: View, w0: Witness, v: View, w: Witness, len: nat)
    requires Shape(g, v0, w0) && Inv(g, v, w) && Replaced(g, v0, w0, v, w, PATH_A, [0])
    requires (g.max - 2) * g.ClusterSize() < len
    ensures PlainTarget(g, v, w, PATH_A) && OldFirst(g, v, w, PATH_A) != 0 && !Fits(g, v, w, PATH_A, len)
  {
    ReadBack(g, v0, w0, v, w, PATH_A, [0]);
    ResolveA(g, v, w);
    NameOfA();
    var x := FileSlot(g, v, w, PATH_A);
    RecordRead(ToFatName(PATH_A), First(Ent(g, v, x)), 1);
    UsedLimit(AfterGivingUp(g, v, w, PATH_A), 2);
    MulMono(Room(AfterGivingUp(g, v, w, PATH_A)), g.max - 2, g.ClusterSize());
  }

  /** On a blank volume: a write that runs beyond the last free cluster keeps them all and leaves an
      inconsistent volume. */
  method BlankThenWriteAt(vol: Volume, data: Bytes) returns (r: int)
    requires vol.Valid() && !vol.dsk.faulty && Blank(vol.l.G(), vol.V()) && vol.w == NoChains(vol.l.G()) && vol.l.G().max > 2
    requires (vol.l.G().max - 2) * vol.l.G().ClusterSize() < |data| < WORD
    modifies vol`w, vol.fat.buf, vol.dsk
    ensures r == 3 && vol.Ready() && Room(vol.V().t) == 0 && !VolumeOk(vol.l.G(), vol.V())
  {
    hide Volume.Synced, Areas;
    ghost var g, v0, w0 := vol.l.G(), vol.V(), vol.w;
    BlankPlace(g, v0);
    BlankOk(g, v0);
    TooFar(g, v0, |data|);
    r := WriteAt(vol, PATH_A, 0, data);
  }

  lemma TooFar(g: Geo, v: View, len: nat)
    requires Blank(g, v) && (g.max - 2) * g.ClusterSize() < len
    ensures Inv(g, v, NoChains(g)) && !ReachFits(g, v, NoChains(g), PATH_A, len)
  {
    BlankPlace(g, v);
    BlankOk(g, v);
    var q := (len - 1) / g.ClusterSize();
    assert q * g.ClusterSize() + g.ClusterSize() > len - 1;
    if q < g.max - 2 { MulMono(q + 1, g.max - 2, g.ClusterSize()); }
  }

  // ----- a hole -----

  /** On a blank volume: the first write to a file goes to offset 10, and the ten bytes before it read as
      what the first free cluster happens to hold. */
  method BlankThenHole(vol: Volume, data: Bytes) returns (r: int)
    requires vol.Valid() && !vol.dsk.faulty && Blank(vol.l.G(), vol.V()) && vol.w == NoChains(vol.l.G()) && vol.l.G().max > 2
    requires data != [] && 10 + |data| <= vol.l.G().ClusterSize()
    modifies vol`w, vol.fat.buf, vol.dsk
    ensures r == 0 && vol.Valid() && PlainTarget(vol.l.G(), vol.V(), vol.w, PATH_A)
    ensures 10 <= |old(vol.V()).cl[2]| && BytesAt(vol.l.G(), vol.V(), vol.w, PATH_A) == old(vol.V()).cl[2][..10] + data
  {
    hide Overwritten, BytesAt, PlainTarget, HasPlace, ReachFits, Volume.Synced, Areas;
    ghost var g, v0, w0 := vol.l.G(), vol.V(), vol.w;
    BlankPlace(g, v0);
    FirstCluster(g, v0, 10 + |data|);
    r := WriteAt(vol, PATH_A, 10, data);
    StillPlainTarget(g, v0, w0, vol.V(), vol.w, PATH_A, 10, data);
    HoleBytes(g, v0, vol.V(), vol.w, data);
  }

  /** The clusters a write within the first cluster will use. */
  lemma FirstCluster(g: Geo, v: View, reach: nat)
    requires Blank(g, v) && g.max > 2 && 0 < reach <= g.ClusterSize()
    ensures Inv(g, v, NoChains(g)) && ReachFits(g, v, NoChains(g), PATH_A, reach) && NewChain(g, v, NoChains(g), PATH_A, reach) == [2]
  {
    BlankPlace(g, v);
    BlankOk(g, v);
    DivIs(reach - 1, g.ClusterSize(), 0);
    FreeCount(v.t, 2);
    assert FreeList(v.t, 2)[0] == 2;
  }

  lemma StillPlainTarget(g: Geo, v0: View, w0: Witness, v: View, w: Witness, path: Bytes, offset: nat, data: Bytes)
    requires Inv(g, v0, w0) && g.perCluster < 4096 && offset + |data| < WORD && PlainTarget(g, v0, w0, path)
    requires data != [] && PutAt(g, v0, w0, v, w, path, offset, data)
    ensures Inv(g, v, w) && Overwritten(g, v0, w0, v, w, path, offset, data) && PlainTarget(g, v, w, path)
  {
    hide GInv, Overwritten;
    StillPlain(g, v0, w0, v, w, path, offset, data);
  }

  lemma HoleBytes(g: Geo, v0: View, v: View, w: Witness, data: Bytes)
    requires Blank(g, v0) && g.max > 2 && Inv(g, v0, NoChains(g)) && Inv(g, v, w) && g.perCluster < 4096
    requires data != [] && 10 + |data| <= g.ClusterSize() && 10 + |data| < WORD && PlainTarget(g, v0, NoChains(g), PATH_A)
    requires Overwritten(g, v0, NoChains(g), v, w, PATH_A, 10, data)
    ensures PlainTarget(g, v, w, PATH_A) && 10 <= |v0.cl[2]| && BytesAt(g, v, w, PATH_A) == v0.cl[2][..10] + data
  {
    hide Overwritten, GInv, FileBytes, PlainTarget, ReachFits, NewChain;
    OverwrittenByte(g, v0, NoChains(g), v, w, PATH_A, 10, data);
    FirstCluster(g, v0, 10 + |data|);
    BlankPlace(g, v0);
    ContentOne(g, v0, 2);
    HoleReads(v0.cl[2], BytesAt(g, v, w, PATH_A), data);
  }

  lemma HoleReads(held: Bytes, now: Bytes, data: Bytes)
    requires ReadsAs([], held, now, 10, data)
    ensures 10 <= |held| && now == held[..10] + data
  {
  }

  // ----- directories taken for files -----

  /** On a blank volume: a directory is made and opened like a file. Reading from it puts a cluster into a
      buffer of no bytes. */
  method BlankThenReadDirectory(t: Files, len: nat, held: nat -> int) returns (overrun: bool)
    requires t.Valid() && !t.files[0].inUse && !t.vol.dsk.faulty && Blank(t.vol.l.G(), t.vol.V()) && t.vol.w == NoChains(t.vol.l.G()) && t.vol.l.G().max > 2
    modifies t`files, t.vol`w, t.vol.fat.buf, t.vol.dsk
    ensures overrun
  {
    hide Made, VolumeOk, HasPlace, FileSlot, Overruns, Volume.Synced, Areas;
    ghost var g, v0, w0 := t.vol.l.G(), t.vol.V(), t.vol.w;
    BlankPlace(g, v0);
    BlankOk(g, v0);
    BlankTarget(g, v0);
    var r := Mkdir(t.vol, PATH_A);
    MadeTarget(g, v0, w0, t.vol.V(), t.vol.w);
    var idx := t.Open(PATH_A, false);
    FreshOverrunIff(t.vol.l, t.vol.V(), t.vol.w, t.files[idx], len);
    var n, out;
    n, out, overrun := t.Read(idx, len, Block(held));
  }

  /** What the path leads to on a blank volume. */
  lemma BlankTarget(g: Geo, v: View)
    requires Blank(g, v) && Inv(g, v, NoChains(g))
    ensures Resolve(g, v, NoChains(g), PATH_A).At? && StorableName(g, v, NoChains(g), PATH_A) && !DirectoryFull(g, v, NoChains(g), PATH_A)
  {
    hide GInv;
    BlankPlace(g, v);
  }

  lemma MadeTarget(g: Geo, v0: View, w0: Witness, v: View, w: Witness)
    requires Shape(g, v0, w0) && Inv(g, v, w) && Made(g, v0, w0, v, w, PATH_A)
    ensures FileSlot(g, v, w, PATH_A) != NONE && DirectoryTarget(g, v, w, PATH_A)
  {
    hide GInv, Updated;
    InvShape(g, v, w);
    DirRecord(Resolve(g, v0, w0, PATH_A).name, First(Ent(g, v, FileSlot(g, v, w, PATH_A))));
  }

  /** The path "A/B". */
  const PATH_AB: Bytes := [65, SLASH, 66]

  /** On a blank volume: a directory with a file of one byte in it is opened for writing. The directory
      turns into an empty file, and the cluster of the file that was in it is lost. */
  method BlankThenOpenDirectory(t: Files) returns (idx: int)
    requires t.Valid() && !t.files[0].inUse && !t.vol.dsk.faulty && Blank(t.vol.l.G(), t.vol.V()) && t.vol.w == NoChains(t.vol.l.G()) && t.vol.l.G().max > 3
    modifies t`files, t.vol`w, t.vol.fat.buf, t.vol.dsk
    ensures 0 <= idx < |t.files| && t.Valid() && !VolumeOk(t.vol.l.G(), t.vol.V())
  {
    hide Made, Replaced, Buried, VolumeOk, LosesNothing, HasPlace, Fits, FileSlot, StorableName, Volume.Synced, Areas;
    ghost var g, v0, w0 := t.vol.l.G(), t.vol.V(), t.vol.w;
    BlankPlace(g, v0);
    BlankOk(g, v0);
    BlankTarget(g, v0);
    var r := Mkdir(t.vol, PATH_A);
    ghost var v1, w1 := t.vol.V(), t.vol.w;
    InsidePlace(g, v0, w0, v1, w1);
    r := WriteFile(t.vol, PATH_AB, [0]);
    ghost var v2, w2 := t.vol.V(), t.vol.w;
    InsideFile(g, v0, w0, v1, w1, v2, w2);
    idx := t.Open(PATH_A, true);
  }

  /** The path "A/B" leads into the directory that "A" denotes. */
  lemma ResolveAB(g: Geo, v: View, w: Witness)
    requires Shape(g, v, w) && FileSlot(g, v, w, PATH_A) != NONE && DirectoryTarget(g, v, w, PATH_A)
    ensures Resolve(g, v, w, PATH_AB) == At(OldFirst(g, v, w, PATH_A), ToFatName([66]))
    ensures |ToFatName([66])| == NAME_LEN && ToFatName([66])[0] == 66
  {
    FatNameAt([66], 0);
    assert BaseLen([66], 0) == 1;
    ResolveA(g, v, w);
    ComponentsOfAB();
    var comps: seq<Bytes> := [PATH_A, [66]];
    assert comps[1..] == [[66]];
    assert Walk(g, v, w, 0, comps) == Walk(g, v, w, OldFirst(g, v, w, PATH_A), comps[1..]);
  }

  lemma ComponentsOfAB()
    ensures Comps(PATH_AB, 0) == [PATH_A, [66]]
  {
    assert SkipSlashes(PATH_AB, 0) == 0 && CompEnd(PATH_AB, 0, MAX_COMPONENT) == 1;
    assert SkipSlashes(PATH_AB, 1) == 2 && CompEnd(PATH_AB, 2, MAX_COMPONENT) == 3;
    assert Comps(PATH_AB, 3) == [];
    assert PATH_AB[0..1] == PATH_A && PATH_AB[2..3] == [66];
    assert Comps(PATH_AB, 1) == [[66]];
  }

  /** In the directory just made there is a place for "B". */
  lemma InsidePlace(g: Geo, v0: View, w0: Witness, v: View, w: Witness)
    requires Shape(g, v0, w0) && Inv(g, v, w) && Made(g, v0, w0, v, w, PATH_A) && Room(v.t) >= 1
    ensures HasPlace(g, v, w, PATH_AB) && StorableName(g, v, w, PATH_AB) && FileSlot(g, v, w, PATH_AB) == NONE && Fits(g, v, w, PATH_AB, |[0]|)
    ensures FileSlot(g, v, w, PATH_A) != NONE && DirectoryTarget(g, v, w, PATH_A)
  {
    hide GInv, Made, Room, IsFree, DirectoryTarget, Lookup, LiveAt, Walk, Comps, FreedT, EntryChain;
    InvShape(g, v, w);
    MadeTarget(g, v0, w0, v, w);
    ResolveAB(g, v, w);
    NothingInside(g, v0, w0, v, w);
    FreeInside(g, v0, w0, v, w);
    MulMono(1, Room(v.t), g.ClusterSize());
  }

  lemma NothingInside(g: Geo, v0: View, w0: Witness, v: View, w: Witness)
    requires Shape(g, v0, w0) && Inv(g, v, w) && Made(g, v0, w0, v, w, PATH_A)
    ensures Lookup(g, v, w, OldFirst(g, v, w, PATH_A), ToFatName([66])) == NONE
  {
    hide GInv, Updated;
    InvShape(g, v, w);
    MadeIsEmpty(g, v0, w0, v, w, PATH_A);
    var c := OldFirst(g, v, w, PATH_A);
    var s := Lookup(g, v, w, c, ToFatName([66]));
    assert s != NONE ==> InDir(g, w, c, s);
  }

  /** The third slot of a directory just made is free. */
  lemma FreeInside(g: Geo, v0: View, w0: Witness, v: View, w: Witness)
    requires Shape(g, v0, w0) && Inv(g, v, w) && Made(g, v0, w0, v, w, PATH_A)
    ensures var c := OldFirst(g, v, w, PATH_A); 2 <= c < g.max && InDir(g, w, c, Slot(c, 2)) && IsFree(Ent(g, v, Slot(c, 2)))
  {
    var x := FileSlot(g, v, w, PATH_A);
    var e := Ent(g, v, x);
    var c := First(e);
    assert SlotOk(g, v, w, NONE, x);
    MadeTarget(g, v0, w0, v, w);
    ContentOne(g, v, c);
    var b := DotCluster(c, Resolve(g, v0, w0, PATH_A).d, g.ClusterSize());
    assert v.cl[c] == b && w.chain[c] == [c];
    ChainMember(g, v, w, NONE, [], c, 0);
    assert EntryAt(b, 2)[0] == b[64];
  }

  /** With the file in it, the directory is one whose loss loses a cluster. */
  lemma InsideFile(g: Geo, v0: View, w0: Witness, v1: View, w1: Witness, v: View, w: Witness)
    requires Shape(g, v0, w0) && Inv(g, v1, w1) && Made(g, v0, w0, v1, w1, PATH_A) && Room(v1.t) >= 1
    requires Inv(g, v, w) && Replaced(g, v1, w1, v, w, PATH_AB, [0])
    ensures HasPlace(g, v, w, PATH_A) && Fits(g, v, w, PATH_A, 0) && !LosesNothing(g, v, w, PATH_A, 0)
  {
    hide GInv, Made, Replaced, FileIs, EntryChain, Room, StorableName;
    InvShape(g, v1, w1);
    InvShape(g, v, w);
    InsidePlace(g, v0, w0, v1, w1);
    ResolveA(g, v, w);
    DirectoryStays(g, v1, w1, v, w);
    ReadBack(g, v1, w1, v, w, PATH_AB, [0]);
    FirstOfFile(g, v, w, FileSlot(g, v, w, PATH_AB));
    NothingFits(g, v, w, PATH_A);
  }

  lemma NothingFits(g: Geo, v: View, w: Witness, path: Bytes)
    requires Shape(g, v, w) && FileSlot(g, v, w, path) != NONE
    ensures Fits(g, v, w, path, 0)
  {
    hide AfterGivingUp, FileSlot, NoFree;
    AfterLength(g, v, w, path);
    UsedLimit(AfterGivingUp(g, v, w, path), 2);
    MulMono(0, Room(AfterGivingUp(g, v, w, path)), g.ClusterSize());
  }

  lemma AfterLength(g: Geo, v: View, w: Witness, path: Bytes)
    requires Shape(g, v, w)
    ensures |AfterGivingUp(g, v, w, path)| == g.max
  {
  }

  /** The directory stays where it is, and now has the new file in it. */
  lemma DirectoryStays(g: Geo, v0: View, w0: Witness, v: View, w: Witness)
    requires Inv(g, v0, w0) && FileSlot(g, v0, w0, PATH_A) != NONE && DirectoryTarget(g, v0, w0, PATH_A) && FileSlot(g, v0, w0, PATH_AB) == NONE
    requires Inv(g, v, w) && Replaced(g, v0, w0, v, w, PATH_AB, [0])
    ensures FileSlot(g, v, w, PATH_A) != NONE && DirectoryTarget(g, v, w, PATH_A) && OldFirst(g, v, w, PATH_A) == OldFirst(g, v0, w0, PATH_A)
    ensures var y := FileSlot(g, v, w, PATH_AB); LiveAt(g, v, w, NONE, y) && DirOf(w, y.a) == OldFirst(g, v, w, PATH_A)
  {
    hide GInv, FileIs, EntryChain, Others, Walk;
    InvShape(g, v0, w0);
    InvShape(g, v, w);
    ResolveA(g, v0, w0);
    ResolveA(g, v, w);
    ResolveAB(g, v0, w0);
    SlotFound(g, v, w, PATH_AB);
    NoStrays(g, w0);
    var x, y := FileSlot(g, v0, w0, PATH_A), FileSlot(g, v, w, PATH_AB);
    SubDirectory(g, v0, w0, x);
    NotInRoot(g, v0, w0, v, w, x, y);
    LookupKept(g, v0, w0, v, w, 0, y, 0, ToFatName(PATH_A));
  }

  /** A slot of the root directory is none of another one's. */
  lemma NotInRoot(g: Geo, v0: View, w0: Witness, v: View, w: Witness, x: Slot, y: Slot)
    requires Shape(g, v0, w0) && Inv(g, v, w) && Others(g, v0, w0, v, w, 0, y)
    requires LiveAt(g, v0, w0, NONE, x) && DirOf(w0, x.a) == 0 && LiveAt(g, v, w, NONE, y) && DirOf(w, y.a) != 0
    ensures x != y
  {
  }

  lemma FirstOfFile(g: Geo, v: View, w: Witness, y: Slot)
    requires Inv(g, v, w) && LiveAt(g, v, w, NONE, y) && FileSize(Ent(g, v, y)) != 0
    ensures First(Ent(g, v, y)) != 0
  {
    assert SlotOk(g, v, w, NONE, y);
  }

  /** On a blank volume: a directory is made and written to like a file by fat_write_at. It gets a size, and
      no volume with such a directory is consistent. */
  method BlankThenWriteDirectory(vol: Volume) returns (r: int)
    requires vol.Valid() && !vol.dsk.faulty && Blank(vol.l.G(), vol.V()) && vol.w == NoChains(vol.l.G()) && vol.l.G().max > 2
    modifies vol`w, vol.fat.buf, vol.dsk
    ensures r == 0 && vol.Ready() && !VolumeOk(vol.l.G(), vol.V())
  {
    hide Made, VolumeOk, HasPlace, ReachFits, DirectoryTarget, Volume.Synced, Areas;
    ghost var g, v0, w0 := vol.l.G(), vol.V(), vol.w;
    BlankPlace(g, v0);
    BlankOk(g, v0);
    BlankTarget(g, v0);
    r := Mkdir(vol, PATH_A);
    WritableDirectory(g, v0, w0, vol.V(), vol.w);
    r := WriteAt(vol, PATH_A, 0, [0]);
  }

  // ----- a file that became shorter -----

  /** On a blank volume: a file of one byte is opened for reading, and then replaced by an empty one. The
      handle still reads one byte, whatever the heap happens to hold. */
  method BlankThenReadEmptied(t: Files, held: nat -> int) returns (n: int, out: Bytes)
    requires t.Valid() && !t.files[0].inUse && !t.vol.dsk.faulty && Blank(t.vol.l.G(), t.vol.V()) && t.vol.w == NoChains(t.vol.l.G()) && t.vol.l.G().max > 2
    modifies t`files, t.vol`w, t.vol.fat.buf, t.vol.dsk
    ensures n == 1 && out == [held(0)]
  {
    hide HasPlace, Fits, Replaced, StorableName, FileSlot, Overruns, Copied, Volume.Synced, Areas;
    ghost var g, v0, w0 := t.vol.l.G(), t.vol.V(), t.vol.w;
    BlankPlace(g, v0);
    BlankFits(g, v0);
    var r := WriteFile(t.vol, PATH_A, [0]);
    ghost var v1, w1 := t.vol.V(), t.vol.w;
    OneByteFile(g, v0, w0, v1, w1);
    var idx := t.Open(PATH_A, false);
    r := WriteFile(t.vol, PATH_A, []);
    EmptiedFile(t.vol.l, v1, w1, t.vol.V(), t.vol.w, t.files[idx], held);
    var overrun;
    n, out, overrun := t.Read(idx, 1, Block(held));
  }

  lemma OneByteFile(g: Geo, v0: View, w0: Witness, v: View, w: Witness)
    requires Shape(g, v0, w0) && Inv(g, v, w) && Replaced(g, v0, w0, v, w, PATH_A, [0])
    ensures FileSlot(g, v, w, PATH_A) != NONE && FileSize(Ent(g, v, FileSlot(g, v, w, PATH_A))) == 1
    ensures HasPlace(g, v, w, PATH_A) && Fits(g, v, w, PATH_A, 0) && StorableName(g, v, w, PATH_A)
  {
    hide GInv, FileIs, EntryChain;
    InvShape(g, v, w);
    ReadBack(g, v0, w0, v, w, PATH_A, [0]);
    ResolveA(g, v, w);
    NameOfA();
    NothingFits(g, v, w, PATH_A);
  }

  lemma EmptiedFile(l: Layout, v0: View, w0: Witness, v: View, w: Witness, f: OpenFile, held: nat -> int)
    requires l.Ok() && Shape(l.G(), v0, w0) && Inv(l.G(), v, w) && Replaced(l.G(), v0, w0, v, w, PATH_A, [])
    requires f.path == PATH_A && f.size == 1 && f.offset == 0
    ensures Sane(f) && FileSlot(l.G(), v, w, PATH_A) != NONE && !Overruns(l, v, w, f, 1)
    ensures forall n, out {:trigger Copied(l, v, w, f, held, 1, n, out)} :: Copied(l, v, w, f, held, 1, n, out) ==> n == 1 && out == [held(0)]
  {
    hide GInv, FileIs, EntryChain, LowBit, ReadAllocSize;
    InvShape(l.G(), v, w);
    ReadBack(l.G(), v0, w0, v, w, PATH_A, []);
    assert OldChain(l.G(), v, w, PATH_A) == [];
    WholeLength(l, v, w, PATH_A);
    OneByte(l.G().ClusterSize());
  }

  lemma WritableDirectory(g: Geo, v0: View, w0: Witness, v: View, w: Witness)
    requires Shape(g, v0, w0) && Inv(g, v, w) && Made(g, v0, w0, v, w, PATH_A)
    ensures HasPlace(g, v, w, PATH_A) && ReachFits(g, v, w, PATH_A, 1) && StorableName(g, v, w, PATH_A) && DirectoryTarget(g, v, w, PATH_A)
  {
    hide GInv, FileIs, DirectoryTarget, Others;
    InvShape(g, v, w);
    MadeTarget(g, v0, w0, v, w);
    ResolveA(g, v, w);
    NameOfA();
    UsedLimit(v.t, 2);
    DivIs(0, g.ClusterSize(), 0);
  }

  // ----- names and paths -----

  /** The path of the single byte 0xE5. */
  const PATH_E5: Bytes := [DELETED]

  /** On a blank volume: a file of that name is written. Its entry looks deleted, and its cluster is lost. */
  method BlankThenBury(vol: Volume) returns (r: int)
    requires vol.Valid() && !vol.dsk.faulty && Blank(vol.l.G(), vol.V()) && vol.w == NoChains(vol.l.G()) && vol.l.G().max > 2
    modifies vol`w, vol.fat.buf, vol.dsk
    ensures r == 0 && vol.Valid() && FileSlot(vol.l.G(), vol.V(), vol.w, PATH_E5) == NONE && !VolumeOk(vol.l.G(), vol.V())
  {
    hide HasPlace, Fits, StorableName, Replaced, VolumeOk, Volume.Synced, Areas;
    BlankE5(vol.l.G(), vol.V());
    r := WriteFile(vol, PATH_E5, [0]);
  }

  lemma BlankE5(g: Geo, v: View)
    requires Blank(g, v) && g.max > 2
    ensures var w := NoChains(g);
            Inv(g, v, w) && HasPlace(g, v, w, PATH_E5) && Fits(g, v, w, PATH_E5, |[0]|) && !StorableName(g, v, w, PATH_E5)
  {
    var w := NoChains(g);
    BlankOk(g, v);
    assert SkipSlashes(PATH_E5, 0) == 0 && CompEnd(PATH_E5, 0, MAX_COMPONENT) == 1;
    assert Comps(PATH_E5, 1) == [];
    assert PATH_E5[0..1] == PATH_E5;
    assert Comps(PATH_E5, 0) == [PATH_E5];
    FatNameAt(PATH_E5, 0);
    assert BaseLen(PATH_E5, 0) == 1;
    NoDeletedName(g, v, w, 0, ToFatName(PATH_E5));
    BlankSlot(g, v, Slot(0, 0));
    assert InDir(g, w, 0, Slot(0, 0));
    MulMono(1, g.max - 2, g.ClusterSize());
  }

  /** A path of 64 bytes: 62 slashes and "AB". A handle keeps 63 of them, and they denote "A". */
  const LONG_PATH: Bytes := seq(62, _ => SLASH) + [65, 66]

  lemma CutDenotesAnother(g: Geo, v: View, w: Witness)
    requires Shape(g, v, w)
    ensures 0 !in LONG_PATH && Resolve(g, v, w, LONG_PATH) == At(0, ToFatName([65, 66])) && Resolve(g, v, w, Cut(LONG_PATH)) == At(0, ToFatName(PATH_A))
    ensures ToFatName([65, 66]) != ToFatName(PATH_A)
  {
    var p, q := LONG_PATH, Cut(LONG_PATH);
    AfterSlashes(p, 0, 62);
    AfterSlashes(q, 0, 62);
    assert CompEnd(p, 62, MAX_COMPONENT) == 64 && p[62..64] == [65, 66] && Comps(p, 64) == [];
    assert CompEnd(q, 62, MAX_COMPONENT) == 63 && q[62..63] == PATH_A && Comps(q, 63) == [];
    FatNameAt([65, 66], 1);
    FatNameAt(PATH_A, 1);
    assert BaseLen([65, 66], 0) == 2 && BaseLen(PATH_A, 0) == 1;
  }

  lemma {:induction false} AfterSlashes(p: Bytes, i: nat, n: nat)
    requires i <= n < |p| && (forall k :: i <= k < n ==> p[k] == SLASH) && p[n] != SLASH
    ensures SkipSlashes(p, i) == n
    decreases n - i
  {
    if i < n { AfterSlashes(p, i + 1, n); }
  }
}
