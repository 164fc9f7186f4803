/** Paths and files: resolving a path, reading a file, its size. */
module FatFiles {
  import opened Bits
  import opened FatTable
  import opened Dirent
  import opened FatInvariant
  import opened FatContent
  import opened FatPath
  import opened FatUpdate
  import opened FatVolume

  /** Where the C program would go on with a slot that dir_lookup never filled in. */
  const UNSET_SLOT: int := -1

  /** Look a name up without creating it and take its entry: 1 on a disk error, 2 when it is absent. */
  method Locate(vol: Volume, d: nat, target: Bytes) returns (r: int, slot: DirSlot, e: Bytes, ghost x: Slot)
    requires vol.Valid() && IsDirNo(vol.l.G(), vol.w, d) && |target| == NAME_LEN && target[0] != DOT
    modifies vol`w, vol.fat.buf, vol.dsk
    ensures |e| == SIZE && (r == 0 || r == 1 || r == 2)
    ensures vol.Valid() && vol.V() == old(vol.V()) && vol.w == old(vol.w) && vol.Synced() == old(vol.Synced())
    ensures r != 1 ==> x == Lookup(vol.l.G(), vol.V(), vol.w, d, target) && (r == 0 <==> x != NONE)
    ensures r == 0 ==> LiveAt(vol.l.G(), vol.V(), vol.w, NONE, x) && e == Ent(vol.l.G(), vol.V(), x) && Places(vol.l, slot, x)
    ensures r == 1 ==> vol.dsk.faulty
  {
    e := seq(SIZE, _ => 0);
    r, slot, x := vol.DirLookup(d, target, false);
    if r == 1 {
      return;
    }
    if r == 2 || !slot.found {
      r, x := 2, NONE;
      return;
    }
    var err;
    err, e := vol.LoadEntry(slot, x);
    r := if err then 1 else 0;
  }

  /** resolve_path: the directory and stored name of the last component. */
  method ResolvePath(vol: Volume, path: Bytes) returns (r: int, d: nat, name: Bytes, isRoot: bool)
    requires vol.Valid()
    modifies vol`w, vol.fat.buf, vol.dsk
    ensures vol.Valid() && vol.V() == old(vol.V()) && vol.w == old(vol.w) && vol.Synced() == old(vol.Synced())
    ensures r == 0 || r == 1 || r == 2 || r == 3
    ensures r == 0 ==> Resolve(vol.l.G(), vol.V(), vol.w, path) == if isRoot then Root else At(d, name)
    ensures r == 0 && !isRoot ==> IsDirNo(vol.l.G(), vol.w, d) && |name| == NAME_LEN && name[0] != DOT
    ensures r == 2 ==> Resolve(vol.l.G(), vol.V(), vol.w, path) == Missing
    ensures r == 3 ==> Resolve(vol.l.G(), vol.V(), vol.w, path) == NotDirectory
    ensures r == 1 ==> vol.dsk.faulty
  {
    d, name, isRoot := 0, [], true;
    var pos, pending, have := 0, [], false;
    ghost var g := vol.l.G();
    while true
      invariant vol.Valid() && vol.V() == old(vol.V()) && vol.w == old(vol.w) && vol.Synced() == old(vol.Synced())
      invariant pos <= |path| && IsDirNo(g, vol.w, d)
      invariant !have ==> d == 0 && Comps(path, pos) == Comps(path, 0)
      invariant have ==> Walk(g, vol.V(), vol.w, d, [pending] + Comps(path, pos)) == Resolve(g, vol.V(), vol.w, path)
      decreases |path| - pos
    {
      var found, comp, next := SplitNext(path, pos);
      if !found {
        break;
      }
      if have {
        assert ([pending] + Comps(path, pos))[1..] == [comp] + Comps(path, next);
        var e;
        r, e := SubEntry(vol, d, pending);
        if r != 0 {
          return;
        }
        d := First(e);
      }
      assert [comp] + Comps(path, next) == Comps(path, pos);
      pending := comp;
      have := true;
      pos := next;
    }
    if !have {
      return 0, 0, name, true;
    }
    assert [pending] + Comps(path, pos) == [pending];
    FatNameFirst(pending);
    name := EncodeName(pending);
    return 0, d, name, false;
  }

  /** One step of resolve_path: the entry of a subdirectory. */
  method SubEntry(vol: Volume, d: nat, comp: Bytes) returns (r: int, e: Bytes)
    requires vol.Valid() && IsDirNo(vol.l.G(), vol.w, d)
    modifies vol`w, vol.fat.buf, vol.dsk
    ensures |e| == SIZE
    ensures vol.Valid() && vol.V() == old(vol.V()) && vol.w == old(vol.w) && vol.Synced() == old(vol.Synced())
    ensures r == 0 || r == 1 || r == 2 || r == 3
    ensures var s := Lookup(vol.l.G(), old(vol.V()), old(vol.w), d, ToFatName(comp));
            && (r == 2 ==> s == NONE)
            && (r == 0 || r == 3 ==> s != NONE && e == Ent(vol.l.G(), old(vol.V()), s) && (IsDirectory(e) <==> r == 0))
    ensures r == 0 ==> IsDirNo(vol.l.G(), vol.w, First(e)) && First(e) >= 0
    ensures r == 1 ==> vol.dsk.faulty
  {
    FatNameFirst(comp);
    var t := EncodeName(comp);
    var slot;
    ghost var x;
    r, slot, e, x := Locate(vol, d, t);
    if r != 0 {
      return;
    }
    if e[11] / 16 % 2 == 0 {
      return 3, e;
    }
    SubDirectory(vol.l.G(), vol.V(), vol.w, x);
    return 0, e;
  }

  // ----- fat_read_file -----

  /** The clusters of a chain, one after the other. */
  method ReadChain(vol: Volume, first: int, ghost chain: seq<int>) returns (err: bool, out: Bytes)
    requires vol.Valid() && (if chain == [] then first < 2 else IsChain(vol.V().t, chain) && first == chain[0])
    requires OnVolume(vol.l.G(), vol.V(), chain)
    ensures !err ==> out == Content(vol.l.G(), vol.V(), chain)
    ensures err ==> vol.dsk.faulty && |out| <= |chain| * vol.l.G().ClusterSize()
  {
    ghost var g, v := vol.l.G(), vol.V();
    out := [];
    var cluster := first;
    ghost var i := 0;
    while cluster < EOC && cluster >= 2
      invariant i <= |chain| && OnVolume(g, v, chain[..i]) && out == Content(g, v, chain[..i])
      invariant if i < |chain| then cluster == chain[i] else !(2 <= cluster < EOC)
      decreases |chain| - i
    {
      assert Links(v.t, chain, i);
      var b;
      err, b := vol.ReadCluster(cluster);
      if err {
        MulMono(i, |chain|, g.ClusterSize());
        return;
      }
      assert chain[..i + 1] == chain[..i] + [chain[i]];
      ContentAppend(g, v, chain[..i], chain[i]);
      out := out + b;
      cluster := vol.fat.Next(cluster);
      if i + 1 < |chain| { assert Links(v.t, chain, i + 1); }
      i := i + 1;
    }
    assert chain[..i] == chain;
    err := false;
  }

  /** The slot of the entry a path denotes, or NONE. */
  ghost function FileSlot(g: Geo, v: View, w: Witness, path: Bytes): Slot
    requires Shape(g, v, w)
  {
    var t := Resolve(g, v, w, path);
    if t.At? then Lookup(g, v, w, t.d, t.name) else NONE
  }

  /** The path does not lead to a directory that could hold its last component. */
  ghost predicate NoWay(g: Geo, v: View, w: Witness, path: Bytes)
    requires Shape(g, v, w)
  {
    Resolve(g, v, w, path) == Missing || Resolve(g, v, w, path) == NotDirectory
  }

  /** The bytes a reader of the file in slot x obtains: its size, and whole clusters. */
  ghost predicate FileIs(g: Geo, v: View, w: Witness, x: Slot, e: Bytes, bytes: Bytes)
    requires Shape(g, v, w)
  {
    LiveAt(g, v, w, NONE, x) && e == Ent(g, v, x) && OnVolume(g, v, EntryChain(g, w, e)) && Content(g, v, EntryChain(g, w, e)) == bytes
  }

  /** fat_read_file */
  method ReadFile(vol: Volume, path: Bytes) returns (r: int, size: int, out: Bytes)
    requires vol.Valid()
    modifies vol`w, vol.fat.buf, vol.dsk
    ensures r == 0 || r == 1 || r == 2 || r == 3
    ensures vol.Valid() && vol.V() == old(vol.V()) && vol.w == old(vol.w) && vol.Synced() == old(vol.Synced())
    ensures r == 0 ==>
      var x := FileSlot(vol.l.G(), vol.V(), vol.w, path);
      x != NONE && size == FileSize(Ent(vol.l.G(), vol.V(), x)) && FileIs(vol.l.G(), vol.V(), vol.w, x, Ent(vol.l.G(), vol.V(), x), out)
    ensures r == 3 ==> Resolve(vol.l.G(), old(vol.V()), old(vol.w), path) == Root
    ensures r == 1 ==> vol.dsk.faulty || (FileSlot(vol.l.G(), vol.V(), vol.w, path) == NONE && Resolve(vol.l.G(), vol.V(), vol.w, path) != Root)
    ensures r == 2 ==> vol.dsk.faulty
    ensures r == 1 || r == 3 ==> out == []
    ensures r == 3 ==> FileSlot(vol.l.G(), vol.V(), vol.w, path) == NONE
    ensures r == 2 ==>
      var x := FileSlot(vol.l.G(), vol.V(), vol.w, path);
      x != NONE && |out| <= |EntryChain(vol.l.G(), vol.w, Ent(vol.l.G(), vol.V(), x))| * vol.l.G().ClusterSize()
  {
    hide Volume.V, Volume.Synced;
    size, out := 0, [];
    ghost var g, v, wit := vol.l.G(), vol.V(), vol.w;
    var d, target, isRoot;
    r, d, target, isRoot := ResolvePath(vol, path);
    if r != 0 {
      return 1, size, out;
    }
    if isRoot {
      return 3, size, out;
    }
    var slot, e;
    ghost var x;
    r, slot, e, x := Locate(vol, d, target);
    if r != 0 {
      return 1, size, out;
    }
    size := FileSize(e);
    EntryOnVolume(g, v, wit, x);
    assert SlotOk(g, v, wit, NONE, x);
    if First(e) != 0 { assert HeadOk(g, v, wit, NONE, First(e)); }
    var err;
    err, out := ReadChain(vol, First(e), EntryChain(g, wit, e));
    r := if err then 2 else 0;
  }

  // ----- fat_stat -----

  datatype Info = Info(name: Bytes, size: int, first: int, attr: int)

  /** What fat_stat and fat_readdir report of an entry. */
  function InfoOf(e: Bytes): Info
    requires |e| == SIZE
  {
    Info(FromFatName(Name(e)), FileSize(e), First(e), Attr(e))
  }

  /** The fields reported, by byte offset. */
  lemma InfoBytes(e: Bytes)
    requires |e| == 32
    ensures InfoOf(e) == Info(FromFatName(e[..11]), e[28] + 256 * e[29] + 65536 * e[30] + 16777216 * e[31], e[26] + 256 * e[27], e[11])
  {
  }

  /** What fat_stat reports of the root directory, which has no entry. */
  const ROOT_INFO: Info := Info([SLASH], 0, 0, ATTR_DIRECTORY)

  /** fat_stat */
  method Stat(vol: Volume, path: Bytes) returns (r: int, info: Info)
    requires vol.Valid()
    modifies vol`w, vol.fat.buf, vol.dsk
    ensures vol.Valid() && vol.V() == old(vol.V()) && vol.w == old(vol.w) && vol.Synced() == old(vol.Synced())
    ensures r == 0 || r == 1
    ensures r == 0 ==>
      var x := FileSlot(vol.l.G(), vol.V(), vol.w, path);
      if x == NONE then Resolve(vol.l.G(), vol.V(), vol.w, path) == Root && info == Info([0x2F], 0, 0, 0x10)
      else LiveAt(vol.l.G(), vol.V(), vol.w, NONE, x) && info == InfoOf(Ent(vol.l.G(), vol.V(), x))
    ensures r == 1 ==> vol.dsk.faulty || (FileSlot(vol.l.G(), vol.V(), vol.w, path) == NONE && Resolve(vol.l.G(), vol.V(), vol.w, path) != Root)
  {
    hide Volume.V, Volume.Synced, GInv;
    info := ROOT_INFO;
    var d, target, isRoot;
    r, d, target, isRoot := ResolvePath(vol, path);
    if r != 0 {
      return 1, info;
    }
    if isRoot {
      return 0, info;
    }
    var slot, e;
    ghost var x;
    r, slot, e, x := Locate(vol, d, target);
    if r != 0 {
      return 1, info;
    }
    var name := DecodeName(Name(e));
    info := Info(name, FileSize(e), First(e), Attr(e));
  }
}
