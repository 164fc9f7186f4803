/** What single requests leave on a blank volume, byte by byte. */
module FatExamples {
  import opened Bits
  import opened FatTable
  import opened Dirent
  import opened FatInvariant
  import opened FatContent
  import opened FatDisk
  import opened FatPath
  import opened FatDirectory
  import opened FatUpdate
  import opened FatVolume
  import opened FatFiles
  import opened FatWrite
  import opened FatWriteAt
  import opened FatTree
  import opened FatFailures

  /** The name "A" as it is stored. */
  const STORED_A: Bytes := [0x41, 0x20, 0x20, 0x20, 0x20, 0x20, 0x20, 0x20, 0x20, 0x20, 0x20]

  lemma StoredA()
    ensures ToFatName(PATH_A) == STORED_A
  {
    hide ToFatName;
    assert |ToFatName(PATH_A)| == 11 by { StoredByte(PATH_A, 1, 0); }
    forall k | 0 <= k < 11 ensures ToFatName(PATH_A)[k] == STORED_A[k] { StoredByte(PATH_A, 1, k); }
  }

  /** A directory is made: it gets cluster 2, where "." leads to cluster 2 and ".." to the root. */
  method BlankThenMkdir(vol: Volume) returns (r: int)
    requires vol.Valid() && !vol.dsk.faulty && Blank(vol.l.G(), vol.V()) && vol.w == NoChains(vol.l.G()) && vol.l.G().max > 2
    modifies vol`w, vol.fat.buf, vol.dsk
    ensures r == 0 && vol.Valid() && FileSlot(vol.l.G(), vol.V(), vol.w, PATH_A) != NONE
    ensures DirectoryBytes(Ent(vol.l.G(), vol.V(), FileSlot(vol.l.G(), vol.V(), vol.w, PATH_A)), STORED_A, 2)
    ensures |vol.V().cl| > 2 && |vol.V().cl[2]| >= 64
    ensures DirectoryBytes(vol.V().cl[2][..32], [0x2E, 0x20, 0x20, 0x20, 0x20, 0x20, 0x20, 0x20, 0x20, 0x20, 0x20], 2)
    ensures DirectoryBytes(vol.V().cl[2][32..64], [0x2E, 0x2E, 0x20, 0x20, 0x20, 0x20, 0x20, 0x20, 0x20, 0x20, 0x20], 0)
    ensures forall i :: 64 <= i < |vol.V().cl[2]| ==> vol.V().cl[2][i] == 0
  {
    hide Made, VolumeOk, HasPlace, Growth, FileSlot, DirectoryBytes, Volume.Synced, Areas;
    ghost var g, v0, w0 := vol.l.G(), vol.V(), vol.w;
    BlankPlace(g, v0);
    BlankOk(g, v0);
    BlankTarget(g, v0);
    LowestFree(v0);
    r := Mkdir(vol, PATH_A);
    MadeBytes(g, v0, w0, vol.V(), vol.w, PATH_A);
    ResolveA(g, v0, w0);
    StoredA();
  }

  lemma LowestFree(v: View)
    requires |v.t| > 2 && v.t[2] == FREE
    ensures FreeList(v.t, 2) != [] && FreeList(v.t, 2)[0] == 2
  {
  }

  /** The path "a". */
  const PATH_LOWER: Bytes := [0x61]

  /** A file is written under the name "a": fat_stat finds it under "A", as a plain file of its size. */
  method BlankThenStat(vol: Volume, data: Bytes) returns (r: int, info: Info)
    requires vol.Valid() && !vol.dsk.faulty && Blank(vol.l.G(), vol.V()) && vol.w == NoChains(vol.l.G()) && vol.l.G().max > 2
    requires |data| <= (vol.l.G().max - 2) * vol.l.G().ClusterSize()
    modifies vol`w, vol.fat.buf, vol.dsk
    ensures r == 0 && info.name == [0x41] && info.size == |data| && info.attr == 0x20
  {
    hide HasPlace, Fits, Replaced, Buried, StorableName, VolumeOk, LosesNothing, FileSlot, Volume.Synced, Areas;
    ghost var g, v0, w0 := vol.l.G(), vol.V(), vol.w;
    BlankPlace(g, v0);
    BlankTakes(g, v0, |data|);
    r := WriteFile(vol, PATH_LOWER, data);
    ghost var v, w := vol.V(), vol.w;
    FoundAsA(g, v0, w0, v, w, data);
    r, info := Stat(vol, PATH_A);
  }

  lemma BlankTakes(g: Geo, v: View, len: nat)
    requires Blank(g, v) && g.max > 2 && g.perCluster < 4096 && len <= (g.max - 2) * g.ClusterSize()
    ensures var w := NoChains(g);
            && Inv(g, v, w) && HasPlace(g, v, w, PATH_LOWER) && StorableName(g, v, w, PATH_LOWER) && Fits(g, v, w, PATH_LOWER, len)
            && len < WORD
  {
    var w := NoChains(g);
    BlankPlace(g, v);
    BlankOk(g, v);
    PathsIgnoreCase(g, v, w, PATH_LOWER, PATH_A);
    SmallProduct(g.max - 2, g.ClusterSize());
  }

  lemma FoundAsA(g: Geo, v0: View, w0: Witness, v: View, w: Witness, data: Bytes)
    requires Shape(g, v0, w0) && Inv(g, v, w) && Replaced(g, v0, w0, v, w, PATH_LOWER, data) && |data| < WORD
    ensures Resolve(g, v, w, PATH_A) != Root
    ensures var x := FileSlot(g, v, w, PATH_A);
            x != NONE && LiveAt(g, v, w, NONE, x) && InfoOf(Ent(g, v, x)).name == [0x41] && InfoOf(Ent(g, v, x)).size == |data| && InfoOf(Ent(g, v, x)).attr == 0x20
  {
    PathsIgnoreCase(g, v0, w0, PATH_LOWER, PATH_A);
    PathsIgnoreCase(g, v, w, PATH_LOWER, PATH_A);
    ResolveA(g, v0, w0);
    ResolveA(g, v, w);
    StoredA();
    ReadBack(g, v0, w0, v, w, PATH_LOWER, data);
    WrittenRecord(g, v0, w0, v, w, PATH_LOWER, data);
    ListedA();
  }

  lemma ListedA()
    ensures FromFatName(STORED_A) == [0x41]
  {
    hide Trim;
    TrimIs(STORED_A[..8], 1);
  }
}
