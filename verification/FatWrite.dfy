/** fat_write_file: the whole contents of a file are replaced. */
module FatWrite {
  import opened Bits
  import opened FatTable
  import opened FatBuffer
  import opened Dirent
  import opened FatInvariant
  import opened FatContent
  import opened FatDisk
  import opened FatPath
  import opened FatDirectory
  import opened FatUpdate
  import opened FatUnique
  import opened FatVolume
  import opened FatFiles

  // ----- how many clusters are left -----

  lemma {:induction false} UsedLimit(t: seq<int>, c: nat)
    requires c <= |t|
    ensures 0 <= Used(t, c) <= |t| - c
    ensures Used(t, c) == |t| - c <==> FirstFree(t, c) == |t|
    decreases |t| - c
  {
    if c < |t| { UsedLimit(t, c + 1); }
  }

  /** The free clusters can take len bytes. */
  ghost predicate RoomFor(t: seq<int>, len: nat, cs: nat) { len <= Room(t) * cs }

  /** The table was t1 before the chain s was allocated in it. */
  ghost predicate Counted(t: seq<int>, s: seq<int>, t1: seq<int>) {
    && FreedT(t, s) == t1 && Used(t, 2) == Used(t1, 2) + |s|
    && (s != [] ==> 2 <= s[|s| - 1] < |t| && t[s[|s| - 1]] == EOC_MARK)
  }

  /** Linking a free cluster to a chain uses up one cluster. */
  lemma CountMore(t: seq<int>, s: seq<int>, t1: seq<int>, c: int)
    requires Counted(t, s, t1) && 2 <= c < |t| && t[c] == FREE
    ensures Counted(Extended(t, s, c), s + [c], t1)
  {
    UsedUpdate(t, c, EOC_MARK, 2);
    if s != [] { UsedUpdate(t[c := EOC_MARK], s[|s| - 1], c, 2); }
    FreedMore(t, s, c);
  }

  lemma FreedMore(t: seq<int>, s: seq<int>, c: int)
    requires 2 <= c < |t| && t[c] == FREE && (s != [] ==> 2 <= s[|s| - 1] < |t|)
    ensures FreedT(Extended(t, s, c), s + [c]) == FreedT(t, s)
  {
    if s != [] { assert s[|s| - 1] in s; }
    forall d | 0 <= d < |t| ensures FreedT(Extended(t, s, c), s + [c])[d] == FreedT(t, s)[d] {
      assert d in s + [c] <==> d in s || d == c;
    }
  }

  // ----- building the new chain -----

  /** The first pos bytes of the data fill the clusters pend. */
  ghost predicate Filled(g: Geo, v: View, pend: seq<int>, data: Bytes, pos: int) {
    && 0 <= pos <= |data| && (pos < |data| ==> pos == |pend| * g.ClusterSize())
    && OnVolume(g, v, pend) && Content(g, v, pend) == Padded(data[..pos], |pend| * g.ClusterSize())
    && (if pend == [] then pos == 0 else CeilIs(|pend|, pos, g.ClusterSize()))
  }

  /** The part of the data that goes into the next cluster, filled up with zeros. */
  function Chunk(data: Bytes, pos: nat, cs: nat): (r: Bytes)
    requires pos <= |data|
    ensures |r| == cs
  {
    var n := if |data| - pos < cs then |data| - pos else cs;
    data[pos..pos + n] + seq(cs - n, _ => 0)
  }

  function Next(data: Bytes, pos: nat, cs: nat): nat {
    if pos + cs < |data| then pos + cs else |data|
  }

  lemma PadStep(data: Bytes, n: nat, cs: nat)
    requires cs > 0 && n * cs < |data|
    ensures var next := Next(data, n * cs, cs);
            && Padded(data[..n * cs], n * cs) + Chunk(data, n * cs, cs) == Padded(data[..next], (n + 1) * cs)
            && CeilIs(n + 1, next, cs) && (next < |data| ==> next == (n + 1) * cs)
  {
    assert (n + 1) * cs == n * cs + cs;
  }

  lemma FillMore(g: Geo, v: View, v': View, pend: seq<int>, data: Bytes, pos: int, c: int)
    requires Filled(g, v, pend, data, pos) && pos < |data| && OnVolume(g, v', pend + [c])
    requires Content(g, v', pend + [c]) == Content(g, v, pend) + Chunk(data, pos, g.ClusterSize())
    ensures Filled(g, v', pend + [c], data, Next(data, pos, g.ClusterSize()))
  {
    PadStep(data, |pend|, g.ClusterSize());
  }

  /** One round: a free cluster is linked to the chain and filled with the next part of the data. */
  lemma BuildMore(g: Geo, v0: View, w0: Witness, v: View, w: Witness, f: int, x: Slot, name: Bytes, pend: seq<int>, data: Bytes, pos: int, c: int)
    requires Mid(g, v0, w0, v, w, f, x, name, pend) && Filled(g, v, pend, data, pos) && pos < |data|
    requires 2 <= c < g.max && v.t[c] == FREE
    ensures |pend| > 0 ==> 2 <= pend[|pend| - 1] < g.max
    ensures var v' := View(Extended(v.t, pend, c), v.cl[c := Chunk(data, pos, g.ClusterSize())]);
            Mid(g, v0, w0, v', w, f, x, name, pend + [c]) && Filled(g, v', pend + [c], data, Next(data, pos, g.ClusterSize()))
  {
    if pend != [] { PendAway(g, v, w, x, pend, |pend| - 1); }
    MidExtend(g, v0, w0, v, w, f, x, name, pend, c);
    var v1 := v.(t := Extended(v.t, pend, c));
    var b := Chunk(data, pos, g.ClusterSize());
    WholeCluster(g, v0, w0, v1, w, f, x, name, pend, c, b);
    ContentFrame(g, v, v1, pend);
    FillMore(g, v, v1.(cl := v1.cl[c := b]), pend, data, pos, c);
  }

  /** Overwriting all of the last cluster. */
  lemma WholeCluster(g: Geo, v0: View, w0: Witness, v: View, w: Witness, f: int, x: Slot, name: Bytes, pend: seq<int>, c: int, b: Bytes)
    requires Mid(g, v0, w0, v, w, f, x, name, pend + [c]) && |b| == g.ClusterSize()
    ensures 2 <= c < g.max && OnVolume(g, v, pend)
    ensures var v' := v.(cl := v.cl[c := b]);
            Mid(g, v0, w0, v', w, f, x, name, pend + [c]) && OnVolume(g, v', pend + [c]) && Content(g, v', pend + [c]) == Content(g, v, pend) + b
  {
    var p := pend + [c];
    PendOnVolume(g, v, w, x, p);
    assert p[|pend|] == c;
    MidWrite(g, v0, w0, v, w, f, x, name, p, |pend|, 0, b);
    assert Splice(v.cl[c], 0, b) == b;
    var v' := v.(cl := v.cl[c := b]);
    ContentAppend(g, v, pend, c);
    ContentAppend(g, v', pend, c);
    forall i | 0 <= i < |pend| ensures v'.cl[pend[i]] == v.cl[pend[i]] { assert p[i] == pend[i] && p[i] != p[|pend|]; }
    ContentFrame(g, v, v', pend);
  }

  // ----- fat_write_file -----

  /** The first pos bytes of the data have been written to pend, for slot x; the table was t1 before. */
  ghost predicate Building(g: Geo, v0: View, w0: Witness, v: View, w: Witness, f: int, x: Slot, name: Bytes, t1: seq<int>, data: Bytes, pend: seq<int>, pos: int) {
    Mid(g, v0, w0, v, w, f, x, name, pend) && Filled(g, v, pend, data, pos) && Counted(v.t, pend, t1)
  }

  lemma BuildStart(g: Geo, v0: View, w0: Witness, v: View, w: Witness, f: int, x: Slot, name: Bytes, data: Bytes)
    requires Mid(g, v0, w0, v, w, f, x, name, [])
    ensures Building(g, v0, w0, v, w, f, x, name, v.t, data, [], 0)
  {
    assert FreedT(v.t, []) == v.t;
  }

  /** What the loop has built, and how much room it has used up. */
  lemma BuildEnd(g: Geo, v0: View, w0: Witness, v: View, w: Witness, f: int, x: Slot, name: Bytes, t1: seq<int>, data: Bytes, pend: seq<int>, pos: int)
    requires Building(g, v0, w0, v, w, f, x, name, t1, data, pend, pos) && |v.t| >= 2
    ensures Mid(g, v0, w0, v, w, f, x, name, pend) && FreedT(v.t, pend) == t1
    ensures pos == |data| ==> Filled(g, v, pend, data, |data|)
    ensures pos < |data| ==> pos == |pend| * g.ClusterSize()
    ensures |pend| <= Room(t1) && Room(t1) == Room(v.t) + |pend|
    ensures pend != [] ==> 2 <= Last(pend) < |v.t| && v.t[Last(pend)] == EOC_MARK
    ensures pos == |data| ==> RoomFor(t1, |data|, g.ClusterSize())
    ensures pos < |data| && Room(v.t) == 0 ==> !RoomFor(t1, |data|, g.ClusterSize())
  {
    UsedLimit(v.t, 2);
    if pos == |data| { RoomEnough(|pend|, Room(t1), pos, g.ClusterSize()); }
  }

  lemma RoomEnough(n: nat, room: int, len: nat, cs: nat)
    requires n <= room && if n == 0 then len == 0 else CeilIs(n, len, cs)
    ensures len <= room * cs
  {
    MulMono(n, room, cs);
  }

  lemma BuildNext(g: Geo, v0: View, w0: Witness, v: View, w: Witness, f: int, x: Slot, name: Bytes, t1: seq<int>, data: Bytes, pend: seq<int>, pos: int, c: int)
    requires Building(g, v0, w0, v, w, f, x, name, t1, data, pend, pos) && pos < |data| && 2 <= c < g.max && v.t[c] == FREE
    ensures |pend| > 0 ==> 2 <= pend[|pend| - 1] < g.max
    ensures var v' := View(Extended(v.t, pend, c), v.cl[c := Chunk(data, pos, g.ClusterSize())]);
            Building(g, v0, w0, v', w, f, x, name, t1, data, pend + [c], Next(data, pos, g.ClusterSize()))
  {
    CountMore(v.t, pend, t1, c);
    BuildMore(g, v0, w0, v, w, f, x, name, pend, data, pos, c);
  }

  ghost function Last(s: seq<int>): int { if s == [] then 0 else s[|s| - 1] }
  ghost function Head(s: seq<int>): int { if s == [] then 0 else s[0] }

  /** Allocate the next cluster, link it to the chain and fill it: 3 when the disk is full. */
  method AppendCluster(vol: Volume, prev: nat, data: Bytes, pos: nat, ghost pend: seq<int>) returns (r: int, c: nat)
    requires vol.Ready() && prev < vol.l.Clusters() && prev == Last(pend) && (pend != [] ==> prev != 0) && pos <= |data|
    modifies vol.fat.buf, vol.dsk
    ensures vol.Ready() && (r == 0 || r == 1 || r == 3)
    ensures r == 0 ==> 2 <= c < |old(vol.V()).t| == |old(vol.V()).cl| && old(vol.V()).t[c] == FREE
    ensures r == 0 ==> vol.V() == View(Extended(old(vol.V()).t, pend, c), old(vol.V()).cl[c := Chunk(data, pos, vol.l.G().ClusterSize())])
    ensures r == 3 ==> vol.V() == old(vol.V()) && Room(vol.V().t) == 0
    ensures r == 1 ==> vol.dsk.faulty
  {
    UsedLimit(vol.V().t, 2);
    c := vol.fat.AllocLinked(prev);
    if c == 0 {
      return 3, 0;
    }
    var err := vol.WriteCluster(c, Chunk(data, pos, SECTOR * vol.l.sectorsPerCluster));
    r := if err then 1 else 0;
  }

  /** The loop of fat_write_file, up to the end of the data or of the free clusters. */
  method WriteClusters(vol: Volume, data: Bytes, ghost v0: View, ghost w0: Witness, ghost f: int, ghost x: Slot, ghost name: Bytes)
    returns (r: int, first: nat, prev: nat, ghost pend: seq<int>, ghost pos: nat)
    requires vol.Ready() && Mid(vol.l.G(), v0, w0, vol.V(), vol.w, f, x, name, [])
    modifies vol.fat.buf, vol.dsk
    ensures vol.Ready() && (r == 0 || r == 1 || r == 3)
    ensures r != 1 ==> Building(vol.l.G(), v0, w0, vol.V(), vol.w, f, x, name, old(vol.V()).t, data, pend, pos)
    ensures r != 1 ==> first == Head(pend) && prev == Last(pend) && (prev == 0 <==> pend == [])
    ensures r == 0 ==> pos == |data|
    ensures r == 3 ==> pos < |data| && Room(vol.V().t) == 0
    ensures r == 1 ==> vol.dsk.faulty
  {
    ghost var g, t1 := vol.l.G(), vol.V().t;
    first, prev, pend, pos, r := 0, 0, [], 0, 0;
    var at := 0;
    BuildStart(g, v0, w0, vol.V(), vol.w, f, x, name, data);
    hide Building, Mid;
    while at < |data|
      invariant vol.Ready() && Building(g, v0, w0, vol.V(), vol.w, f, x, name, t1, data, pend, at)
      invariant prev == Last(pend) && first == Head(pend) && prev < g.max && (pend != [] ==> prev != 0 && first != 0)
      invariant r == 0 && pos == at
      decreases |data| - at
    {
      var c;
      ghost var v := vol.V();
      r, c := AppendCluster(vol, prev, data, at, pend);
      if r != 0 {
        return;
      }
      BuildNext(g, v0, w0, v, vol.w, f, x, name, t1, data, pend, at, c);
      pend := pend + [c];
      if first == 0 {
        first := c;
      }
      prev := c;
      at := Next(data, at, SECTOR * vol.l.sectorsPerCluster);
      pos := at;
    }
  }

  /** The data part of fat_write_file. When the disk is full the clusters taken so far are given back;
      it is full exactly when the data needs more clusters than are free. */
  method WriteData(vol: Volume, data: Bytes, ghost v0: View, ghost w0: Witness, ghost f: int, ghost x: Slot, ghost name: Bytes)
    returns (r: int, first: nat, ghost pend: seq<int>)
    requires vol.Ready() && Mid(vol.l.G(), v0, w0, vol.V(), vol.w, f, x, name, [])
    modifies vol.fat.buf, vol.dsk
    ensures vol.Ready() && (r == 0 || r == 1 || r == 3)
    ensures r == 0 ==> Mid(vol.l.G(), v0, w0, vol.V(), vol.w, f, x, name, pend) && Filled(vol.l.G(), vol.V(), pend, data, |data|)
    ensures r == 0 ==> first == Head(pend) && |pend| <= Room(old(vol.V()).t)
    ensures r == 3 ==> Mid(vol.l.G(), v0, w0, vol.V(), vol.w, f, x, name, []) && vol.V().t == old(vol.V()).t
    ensures r == 3 ==> !RoomFor(vol.V().t, |data|, vol.l.G().ClusterSize())
    ensures r == 1 ==> vol.dsk.faulty
    ensures r == 0 ==> RoomFor(old(vol.V()).t, |data|, vol.l.G().ClusterSize())
    ensures r == 0 ==> Room(vol.V().t) + |pend| == Room(old(vol.V()).t)
  {
    hide Volume.V, Volume.Synced, Areas;
    var prev;
    ghost var pos;
    ghost var t1 := vol.V().t;
    r, first, prev, pend, pos := WriteClusters(vol, data, v0, w0, f, x, name);
    if r != 1 { BuildEnd(vol.l.G(), v0, w0, vol.V(), vol.w, f, x, name, t1, data, pend, pos); }
    hide Building, Mid, Filled, FreedT, Room, RoomFor, Content;
    if r == 3 {
      GiveBack(vol, first, v0, w0, f, x, name, pend);
    } else if r == 0 && prev != 0 {
      SealChain(vol, prev);
    }
  }

  /** The chain's last cluster is marked as the end once more. */
  method SealChain(vol: Volume, prev: nat)
    requires vol.Ready() && prev < vol.l.Clusters() && vol.V().t[prev] == EOC_MARK
    modifies vol.fat.buf
    ensures vol.Ready() && vol.V() == old(vol.V())
  {
    ghost var t := vol.V().t;
    vol.fat.SetEntry(prev, EOC_MARK);
    assert t[prev := EOC_MARK] == t;
  }

  /** The chain under construction is freed; first is 0 when there is none. */
  method GiveBack(vol: Volume, first: nat, ghost v0: View, ghost w0: Witness, ghost f: int, ghost x: Slot, ghost name: Bytes, ghost pend: seq<int>)
    requires vol.Ready() && Mid(vol.l.G(), v0, w0, vol.V(), vol.w, f, x, name, pend) && first == Head(pend)
    modifies vol.fat.buf
    ensures vol.Ready() && Mid(vol.l.G(), v0, w0, vol.V(), vol.w, f, x, name, [])
    ensures vol.V() == old(vol.V()).(t := FreedT(old(vol.V()).t, pend))
  {
    ghost var g, v := vol.l.G(), vol.V();
    MidFree(g, v0, w0, v, vol.w, f, x, name, pend);
    if first >= 2 {
      FreeChainIsFreePend(g, v, vol.w, x, pend);
      vol.fat.FreeChain(first);
    } else {
      if pend != [] { PendAway(g, v, vol.w, x, pend, 0); }
      assert FreedT(v.t, pend) == v.t;
    }
  }

  /** The target of a write has a name a directory can hold: not one that looks like a deleted entry. */
  ghost predicate StorableName(g: Geo, v: View, w: Witness, path: Bytes)
    requires Shape(g, v, w)
  {
    var t := Resolve(g, v, w, path);
    t.At? ==> |t.name| == NAME_LEN && t.name[0] != 0 && t.name[0] != DELETED
  }

  /** The target is a directory. */
  ghost predicate DirectoryTarget(g: Geo, v: View, w: Witness, path: Bytes)
    requires Shape(g, v, w)
  {
    FileSlot(g, v, w, path) != NONE && IsDirectory(Ent(g, v, FileSlot(g, v, w, path)))
  }

  /** The target of a write has a name a directory can hold, and is not a directory. The write functions
      check neither. */
  ghost predicate PlainTarget(g: Geo, v: View, w: Witness, path: Bytes)
    requires Shape(g, v, w)
  {
    StorableName(g, v, w, path) && !DirectoryTarget(g, v, w, path)
  }

  /** The first cluster of the file a path denotes; 0 when there is none. */
  ghost function OldFirst(g: Geo, v: View, w: Witness, path: Bytes): int
    requires Shape(g, v, w)
  {
    var x := FileSlot(g, v, w, path);
    if x == NONE then 0 else First(Ent(g, v, x))
  }

  /** From (v0, w0) to (v, w) the file the path denotes, created if it was absent, has been given entry
      e and the contents bytes, and nothing else has changed: the path still leads to the same place,
      an existing file stays in its slot, and Others holds of everything else. If it was a directory, what
      was below it is lost. */
  ghost predicate Updated(g: Geo, v0: View, w0: Witness, v: View, w: Witness, path: Bytes, e: Bytes, bytes: Bytes)
    requires Shape(g, v0, w0) && Shape(g, v, w)
  {
    var x := FileSlot(g, v, w, path);
    && Resolve(g, v0, w0, path).At? && Resolve(g, v, w, path) == Resolve(g, v0, w0, path)
    && x != NONE && (FileSlot(g, v0, w0, path) != NONE ==> x == FileSlot(g, v0, w0, path))
    && FileIs(g, v, w, x, e, bytes)
    && Others(g, v0, w0, v, w, OldFirst(g, v0, w0, path), x)
    && w.lost == w0.lost + Strays(g, w0, OldFirst(g, v0, w0, path))
  }

  /** Where an update of a path stands after dir_lookup and before the entry is stored. */
  ghost predicate Underway(g: Geo, v0: View, w0: Witness, v: View, w: Witness, path: Bytes, d: int, name: Bytes, x: Slot, pend: seq<int>) {
    && Inv(g, v0, w0) && Resolve(g, v0, w0, path) == At(d, name)
    && |name| == NAME_LEN && name[0] != DOT
    && Mid(g, v0, w0, v, w, OldFirst(g, v0, w0, path), x, name, pend) && IsDirNo(g, w, d) && DirOf(w, x.a) == d
    && (if FileSlot(g, v0, w0, path) != NONE then x == FileSlot(g, v0, w0, path) else !LiveAt(g, v0, w0, NONE, x))
  }

  /** The number of clusters of the file a path denotes; 0 when there is none. */
  ghost function FileCount(g: Geo, v: View, w: Witness, path: Bytes): nat
    requires Shape(g, v, w)
  {
    var x := FileSlot(g, v, w, path);
    if x == NONE then 0 else |EntryChain(g, w, Ent(g, v, x))|
  }

  lemma CountNow(g: Geo, v0: View, w0: Witness, v: View, w: Witness, path: Bytes, e: Bytes, bytes: Bytes, pend: seq<int>)
    requires Shape(g, v0, w0) && Shape(g, v, w) && Updated(g, v0, w0, v, w, path, e, bytes) && EntryChain(g, w, e) == pend
    ensures FileCount(g, v, w, path) == |pend|
  {
  }

  /** The path of an update still leads to the same place afterwards. */
  lemma PathKept(g: Geo, v0: View, w0: Witness, v: View, w: Witness, path: Bytes, x: Slot)
    requires Inv(g, v0, w0) && Inv(g, v, w) && Others(g, v0, w0, v, w, OldFirst(g, v0, w0, path), x)
    requires Resolve(g, v0, w0, path).At?
    requires if FileSlot(g, v0, w0, path) != NONE then x == FileSlot(g, v0, w0, path) else !LiveAt(g, v0, w0, NONE, x)
    ensures Resolve(g, v, w, path) == Resolve(g, v0, w0, path)
  {
    hide Others, Tree;
    if FileSlot(g, v0, w0, path) != NONE {
      WalkToParent(g, v0, w0, v, w, First(Ent(g, v0, x)), x, 0, Comps(path, 0));
    } else {
      WalkKept(g, v0, w0, v, w, x, 0, Comps(path, 0));
    }
  }

  lemma Arrived(g: Geo, v0: View, w0: Witness, v: View, w: Witness, path: Bytes, d: int, name: Bytes, x: Slot, e: Bytes)
    requires Inv(g, v0, w0) && Inv(g, v, w) && Others(g, v0, w0, v, w, OldFirst(g, v0, w0, path), x)
    requires Resolve(g, v0, w0, path) == At(d, name) && w.lost == w0.lost + Strays(g, w0, OldFirst(g, v0, w0, path))
    requires if FileSlot(g, v0, w0, path) != NONE then x == FileSlot(g, v0, w0, path) else !LiveAt(g, v0, w0, NONE, x)
    requires |e| == SIZE && Lookup(g, v, w, d, name) == x && x != NONE && Ent(g, v, x) == e && OnVolume(g, v, EntryChain(g, w, e))
    ensures Updated(g, v0, w0, v, w, path, e, Content(g, v, EntryChain(g, w, e)))
  {
    PathKept(g, v0, w0, v, w, path, x);
  }

  lemma Stored(g: Geo, v0: View, w0: Witness, v: View, w: Witness, f: int, x: Slot, name: Bytes, pend: seq<int>, e: Bytes)
    returns (w': Witness)
    requires Mid(g, v0, w0, v, w, f, x, name, pend) && CanAttach(g, v, w, x, pend, e) && Name(e) == name
    ensures Inv(g, Store(g, v, x, e), w') && Others(g, v0, w0, Store(g, v, x, e), w', f, x)
    ensures Lookup(g, Store(g, v, x, e), w', DirOf(w, x.a), name) == x && x != NONE && Ent(g, Store(g, v, x, e), x) == e
    ensures EntryChain(g, w', e) == pend && w'.lost == w0.lost + Strays(g, w0, f)
    ensures OnVolume(g, v, pend) && OnVolume(g, Store(g, v, x, e), pend) && Content(g, Store(g, v, x, e), pend) == Content(g, v, pend)
  {
    MidFinish(g, v0, w0, v, w, f, x, name, pend, e);
    FinishContent(g, v, w, x, pend, e);
    w' := AttachW(g, w, pend, x, IsDirectory(e), Depth(w, DirOf(w, x.a)) + 1);
  }

  /** Storing the finished entry completes the update. */
  lemma Finish(g: Geo, v0: View, w0: Witness, v: View, w: Witness, path: Bytes, d: int, name: Bytes, x: Slot, pend: seq<int>, e: Bytes)
    returns (w': Witness)
    requires Underway(g, v0, w0, v, w, path, d, name, x, pend) && CanAttach(g, v, w, x, pend, e) && Name(e) == name
    ensures OnVolume(g, v, pend)
    ensures Inv(g, Store(g, v, x, e), w')
    ensures Updated(g, v0, w0, Store(g, v, x, e), w', path, e, Content(g, v, pend)) && EntryChain(g, w', e) == pend
  {
    w' := Stored(g, v0, w0, v, w, OldFirst(g, v0, w0, path), x, name, pend, e);
    Arrived(g, v0, w0, Store(g, v, x, e), w', path, d, name, x, e);
  }

  lemma StartReplace(g: Geo, v: View, w: Witness, path: Bytes, d: int, name: Bytes, x: Slot) returns (w': Witness)
    requires Inv(g, v, w) && Resolve(g, v, w, path) == At(d, name) && IsDirNo(g, w, d)
    requires |name| == NAME_LEN && name[0] != DOT && x != NONE && Lookup(g, v, w, d, name) == x
    ensures Underway(g, v, w, v, w', path, d, name, x, EntryChain(g, w, Ent(g, v, x)))
    ensures First(Ent(g, v, x)) == Head(EntryChain(g, w, Ent(g, v, x)))
  {
    MidReplace(g, v, w, d, name, x);
    var f := First(Ent(g, v, x));
    if f == 0 {
      w' := w;
    } else {
      w' := DetachW(g, w, f);
      assert SlotOk(g, v, w, NONE, x);
      assert HeadOk(g, v, w, NONE, f);
    }
  }

  lemma StartCreate(g: Geo, v0: View, w0: Witness, v: View, w: Witness, path: Bytes, d: int, name: Bytes, x: Slot)
    requires Inv(g, v0, w0) && Resolve(g, v0, w0, path) == At(d, name) && FileSlot(g, v0, w0, path) == NONE && w.lost == w0.lost
    requires |name| == NAME_LEN && name[0] != DOT && Inv(g, v, w) && IsDirNo(g, w, d)
    requires Creatable(g, v, w, d, name, x) && Others(g, v0, w0, v, w, 0, x) && !LiveAt(g, v0, w0, NONE, x)
    ensures Underway(g, v0, w0, v, w, path, d, name, x, [])
    ensures IsFree(Ent(g, v, x))
  {
    MidCreate(g, v0, w0, v, w, d, name, x);
  }

  /** The directory a path leads to has no free slot. */
  ghost predicate DirectoryFull(g: Geo, v: View, w: Witness, path: Bytes)
    requires Shape(g, v, w)
  {
    var t := Resolve(g, v, w, path);
    t.At? && FileSlot(g, v, w, path) == NONE && NoFree(g, v, w, t.d)
  }

  /** The clusters that creating the file takes before any data: one when its directory has to grow. */
  ghost function Growth(g: Geo, v: View, w: Witness, path: Bytes): nat
    requires Shape(g, v, w)
  {
    if DirectoryFull(g, v, w, path) then 1 else 0
  }

  /** The path leads to a directory with a place for its last component, or one that can be extended. */
  ghost predicate HasPlace(g: Geo, v: View, w: Witness, path: Bytes)
    requires Shape(g, v, w)
  {
    Resolve(g, v, w, path).At? && (DirectoryFull(g, v, w, path) ==> Resolve(g, v, w, path).d != 0)
  }

  /** The table in which fat_write_file looks for clusters: the old contents have been given up. */
  ghost function AfterGivingUp(g: Geo, v: View, w: Witness, path: Bytes): seq<int>
    requires Shape(g, v, w)
  {
    var x := FileSlot(g, v, w, path);
    if x == NONE then v.t else FreedT(v.t, EntryChain(g, w, Ent(g, v, x)))
  }

  /** The data fits into the clusters that are free or given up. */
  ghost predicate Fits(g: Geo, v: View, w: Witness, path: Bytes, len: nat)
    requires Shape(g, v, w)
  {
    len <= (Room(AfterGivingUp(g, v, w, path)) - Growth(g, v, w, path)) * g.ClusterSize()
  }

  lemma FitsInTable(g: Geo, v: View, w: Witness, path: Bytes, t: seq<int>, len: nat)
    requires Shape(g, v, w)
    requires if FileSlot(g, v, w, path) != NONE then t == AfterGivingUp(g, v, w, path) else Room(t) == Room(v.t) - Growth(g, v, w, path)
    ensures Fits(g, v, w, path, len) <==> RoomFor(t, len, g.ClusterSize())
    ensures Room(t) == Room(AfterGivingUp(g, v, w, path)) - Growth(g, v, w, path)
  {
  }

  lemma FitsByRoom(g: Geo, v: View, w: Witness, path: Bytes, t: seq<int>, len: nat)
    requires Shape(g, v, w) && Room(t) == Room(AfterGivingUp(g, v, w, path)) - Growth(g, v, w, path)
    ensures Fits(g, v, w, path, len) <==> RoomFor(t, len, g.ClusterSize())
  {
  }

  lemma FitsNothing(g: Geo, v: View, w: Witness, path: Bytes, len: nat)
    requires Shape(g, v, w) && Fits(g, v, w, path, len)
    ensures Fits(g, v, w, path, 0)
  {
  }

  lemma NoPlaceOrRoom(g: Geo, v: View, w: Witness, path: Bytes, len: nat)
    requires Shape(g, v, w)
    ensures NoWay(g, v, w, path) || Resolve(g, v, w, path) == Root ==> !HasPlace(g, v, w, path)
    ensures DirectoryFull(g, v, w, path) && Room(v.t) == 0 ==> !Fits(g, v, w, path, len)
  {
  }

  /** Every other file and directory keeps its chain, its entry and its bytes. */
  ghost predicate RestKept(g: Geo, v0: View, w0: Witness, v: View, w: Witness, path: Bytes)
    requires Shape(g, v0, w0)
  {
    exists x :: Others(g, v0, w0, v, w, OldFirst(g, v0, w0, path), x)
                && if FileSlot(g, v0, w0, path) != NONE then x == FileSlot(g, v0, w0, path) else !LiveAt(g, v0, w0, NONE, x)
  }

  lemma RestIsKept(g: Geo, v0: View, w0: Witness, v: View, w: Witness, path: Bytes, d: int, name: Bytes, x: Slot, pend: seq<int>)
    requires Underway(g, v0, w0, v, w, path, d, name, x, pend)
    ensures RestKept(g, v0, w0, v, w, path)
  {
  }

  /** The slot for the update has been found or made; e is the entry it holds, if it was found. */
  ghost predicate Started(g: Geo, v0: View, w0: Witness, v: View, w: Witness, path: Bytes, d: int, name: Bytes, x: Slot, pend: seq<int>, found: bool, e: Bytes) {
    && Underway(g, v0, w0, v, w, path, d, name, x, pend)
    && |e| == SIZE && (found <==> FileSlot(g, v0, w0, path) != NONE) && HasPlace(g, v0, w0, path)
    && (found ==> v == v0 && e == Ent(g, v0, x) && pend == EntryChain(g, w0, e) && First(e) == Head(pend))
    && (!found ==> pend == [] && IsFree(Ent(g, v, x)))
    && Took(v0, v, Growth(g, v0, w0, path)) && Room(v.t) == Room(v0.t) - Growth(g, v0, w0, path)
  }

  lemma StartedNew(g: Geo, v0: View, w0: Witness, v: View, w: Witness, path: Bytes, d: int, name: Bytes, x: Slot, e: Bytes)
    requires Inv(g, v0, w0) && Resolve(g, v0, w0, path) == At(d, name) && FileSlot(g, v0, w0, path) == NONE && w.lost == w0.lost
    requires |name| == NAME_LEN && name[0] != DOT && Inv(g, v, w) && IsDirNo(g, w, d) && |e| == SIZE
    requires Creatable(g, v, w, d, name, x) && Others(g, v0, w0, v, w, 0, x) && !LiveAt(g, v0, w0, NONE, x)
    requires HasPlace(g, v0, w0, path) && Took(v0, v, Growth(g, v0, w0, path)) && Room(v.t) == Room(v0.t) - Growth(g, v0, w0, path)
    ensures Started(g, v0, w0, v, w, path, d, name, x, [], false, e)
  {
    hide Underway, GInv, Others, Took;
    InvShape(g, v0, w0);
    InvShape(g, v, w);
    StartCreate(g, v0, w0, v, w, path, d, name, x);
  }

  lemma StartedOld(g: Geo, v: View, w: Witness, path: Bytes, d: int, name: Bytes, x: Slot, e: Bytes) returns (w': Witness)
    requires Inv(g, v, w) && Resolve(g, v, w, path) == At(d, name) && FileSlot(g, v, w, path) != NONE && IsDirNo(g, w, d)
    requires |name| == NAME_LEN && name[0] != DOT && x != NONE && Lookup(g, v, w, d, name) == x && LiveAt(g, v, w, NONE, x) && e == Ent(g, v, x)
    requires HasPlace(g, v, w, path) && Took(v, v, Growth(g, v, w, path)) && Room(v.t) == Room(v.t) - Growth(g, v, w, path)
    ensures Started(g, v, w, v, w', path, d, name, x, EntryChain(g, w, e), true, e)
  {
    hide Underway, GInv, Took;
    InvShape(g, v, w);
    w' := StartReplace(g, v, w, path, d, name, x);
  }

  /** The common beginning of the write functions: find or create the slot, and fetch an existing entry.
      pend is the chain of the file so far. */
  method StartWrite(vol: Volume, path: Bytes)
    returns (r: int, slot: DirSlot, name: Bytes, e: Bytes, ghost d: int, ghost x: Slot, ghost pend: seq<int>)
    requires vol.Valid()
    modifies vol`w, vol.fat.buf, vol.dsk
    ensures vol.Ready() || r == 1
    ensures r == 0 || r == 1 || r == 2 || r == 4 || r == UNSET_SLOT
    ensures r == 0 ==> Started(vol.l.G(), old(vol.V()), old(vol.w), vol.V(), vol.w, path, d, name, x, pend, slot.found, e) && Places(vol.l, slot, x)
    ensures r == 2 || r == UNSET_SLOT ==> vol.Valid() && vol.V() == old(vol.V()) && vol.w == old(vol.w) && DirectoryFull(vol.l.G(), vol.V(), vol.w, path)
    ensures r == UNSET_SLOT ==> Room(vol.V().t) == 0
    ensures r == 4 ==> vol.Valid() && vol.V() == old(vol.V()) && vol.w == old(vol.w) && Resolve(vol.l.G(), old(vol.V()), old(vol.w), path) == Root
    ensures r == 1 ==> vol.dsk.faulty || NoWay(vol.l.G(), old(vol.V()), old(vol.w), path)
    ensures r == 2 ==> !HasPlace(vol.l.G(), old(vol.V()), old(vol.w), path)
  {
    hide Started, Volume.V, Volume.Synced, Areas, Underway, Places, Took, Room, LookupDone, FileSlot, HasPlace, DirectoryFull, Growth, Creatable;
    ghost var g, v0, w0 := vol.l.G(), vol.V(), vol.w;
    slot, e, x, pend := DirSlot(0, 0, false), seq(SIZE, _ => 0), NONE, [];
    var dir, isRoot;
    r, dir, name, isRoot := ResolvePath(vol, path);
    d := dir;
    if r != 0 {
      r := 1;
      return;
    }
    if isRoot {
      r := 4;
      return;
    }
    r, slot, x := vol.DirLookup(dir, name, true);
    if r == 1 {
      return;
    }
    LookedUp(vol.l, v0, w0, vol.V(), vol.w, path, d, name, r, slot, x);
    if r == 3 {
      r := UNSET_SLOT;
    }
    if r != 0 {
      return;
    }
    if !slot.found {
      StartedNew(g, v0, w0, vol.V(), vol.w, path, d, name, x, e);
      return;
    }
    var err;
    err, e := vol.LoadEntry(slot, x);
    if err {
      r := 1;
      return;
    }
    pend := EntryChain(g, w0, e);
    vol.w := StartedOld(g, v0, w0, path, d, name, x, e);
  }

  /** What dir_lookup has found, in terms of the path. */
  lemma LookedUp(l: Layout, v0: View, w0: Witness, v: View, w: Witness, path: Bytes, d: int, name: Bytes, r: int, slot: DirSlot, x: Slot)
    requires l.Ok() && Inv(l.G(), v0, w0) && Inv(l.G(), v, w) && LookupDone(l, v0, w0, v, w, d, name, true, r, slot, x)
    requires Resolve(l.G(), v0, w0, path) == At(d, name)
    ensures r == 0 || r == 2 || r == 3
    ensures r == 2 || r == 3 ==> v == v0 && w == w0 && DirectoryFull(l.G(), v0, w0, path)
    ensures r == 2 ==> !HasPlace(l.G(), v0, w0, path)
    ensures r == 3 ==> Room(v.t) == 0
    ensures r == 0 ==> HasPlace(l.G(), v0, w0, path) && Places(l, slot, x)
    ensures r == 0 ==> Took(v0, v, Growth(l.G(), v0, w0, path)) && Room(v.t) == Room(v0.t) - Growth(l.G(), v0, w0, path)
    ensures r == 0 ==> (slot.found <==> FileSlot(l.G(), v0, w0, path) != NONE)
    ensures r == 0 && slot.found ==> v == v0 && w == w0 && Lookup(l.G(), v0, w0, d, name) == x && x != NONE && LiveAt(l.G(), v0, w0, NONE, x)
    ensures r == 0 && !slot.found ==>
      && Creatable(l.G(), v, w, d, name, x) && IsDirNo(l.G(), w, d) && Others(l.G(), v0, w0, v, w, 0, x)
      && !LiveAt(l.G(), v0, w0, NONE, x) && w.lost == w0.lost
  {
    hide GInv, Others, Took, Places, Creatable, IsDirNo, NoFree, Room, Lookup;
    InvShape(l.G(), v0, w0);
    InvShape(l.G(), v, w);
    if r == 3 { FullRoom(v.t); }
    if r == 0 {
      if slot.found {
        TookNone(l.G(), v0, w0);
        FoundSlot(l.G(), v0, w0, d, name);
        FoundGrowth(l.G(), v0, w0, path, d, name);
      } else {
        OthersRefl(l.G(), v0, w0, 0, x);
        GrowthTook(l, v0, w0, v, w, path, d, name, slot, x);
        NewPlace(l, v0, w0, v, w, path, d, name, slot, x);
      }
    }
  }

  lemma FullRoom(t: seq<int>)
    requires |t| >= 2 && FirstFree(t, 2) == |t|
    ensures Room(t) == 0
  {
    UsedLimit(t, 2);
  }

  lemma FoundSlot(g: Geo, v: View, w: Witness, d: int, name: Bytes)
    requires Shape(g, v, w)
    ensures Lookup(g, v, w, d, name) != NONE ==> LiveAt(g, v, w, NONE, Lookup(g, v, w, d, name))
  {
  }

  lemma FoundGrowth(g: Geo, v: View, w: Witness, path: Bytes, d: int, name: Bytes)
    requires Shape(g, v, w) && Resolve(g, v, w, path) == At(d, name) && Lookup(g, v, w, d, name) != NONE
    ensures HasPlace(g, v, w, path) && Growth(g, v, w, path) == 0
  {
  }

  /** A slot that is free, now or after the directory has grown, is not live, and its directory has or can
      get a place. */
  lemma NewPlace(l: Layout, v0: View, w0: Witness, v: View, w: Witness, path: Bytes, d: int, name: Bytes, slot: DirSlot, x: Slot)
    requires l.Ok() && Shape(l.G(), v0, w0) && Shape(l.G(), v, w) && LookupDone(l, v0, w0, v, w, d, name, true, 0, slot, x) && !slot.found
    requires Resolve(l.G(), v0, w0, path) == At(d, name)
    ensures HasPlace(l.G(), v0, w0, path) && !LiveAt(l.G(), v0, w0, NONE, x) && w.lost == w0.lost
  {
    hide Took, Others;
    if v == v0 && w == w0 {
      assert InDir(l.G(), w0, d, x) && IsFree(Ent(l.G(), v0, x));
    }
  }

  lemma TookNone(g: Geo, v: View, w: Witness)
    requires Shape(g, v, w)
    ensures Took(v, v, 0)
  {
  }

  /** Creating an entry takes the lowest free cluster when its directory has to grow, and none otherwise. */
  lemma GrowthTook(l: Layout, v0: View, w0: Witness, v: View, w: Witness, path: Bytes, d: int, name: Bytes, slot: DirSlot, x: Slot)
    requires l.Ok() && Shape(l.G(), v0, w0) && Shape(l.G(), v, w) && LookupDone(l, v0, w0, v, w, d, name, true, 0, slot, x) && !slot.found
    requires Resolve(l.G(), v0, w0, path) == At(d, name)
    ensures Took(v0, v, Growth(l.G(), v0, w0, path)) && Room(v.t) == Room(v0.t) - Growth(l.G(), v0, w0, path)
  {
    if v == v0 && w == w0 {
      assert InDir(l.G(), w0, d, x) && IsFree(Ent(l.G(), v0, x));
      TookNone(l.G(), v0, w0);
    }
    TookRoom(v0, v, Growth(l.G(), v0, w0, path));
  }

  method FlushAndStore(vol: Volume, slot: DirSlot, e: Bytes, ghost x: Slot) returns (err: bool)
    requires vol.Ready() && Places(vol.l, slot, x) && |e| == SIZE
    modifies vol.dsk
    ensures vol.Ready() && (!err ==> vol.Synced() && vol.V() == Store(vol.l.G(), old(vol.V()), x, e))
    ensures err ==> vol.dsk.faulty
  {
    err := vol.Flush();
    if err {
      return true;
    }
    err := vol.StoreEntry(slot, e, x);
  }

  /** The name asked for cannot be stored, because the entry that bears it looks deleted: it denotes
      nothing afterwards either, and the n clusters written for it are lost. */
  ghost predicate Buried(g: Geo, v0: View, w0: Witness, v: View, w: Witness, path: Bytes, n: nat)
    requires Shape(g, v0, w0) && Shape(g, v, w)
  {
    && FileSlot(g, v0, w0, path) == NONE && FileSlot(g, v, w, path) == NONE && RestKept(g, v0, w0, v, w, path)
    && exists pend: seq<int> :: |pend| == n && w.lost == LoseW(w0, pend).lost
  }

  lemma OthersLose(g: Geo, v0: View, w0: Witness, v: View, w: Witness, f: int, x: Slot, pend: seq<int>)
    requires Others(g, v0, w0, v, w, f, x)
    ensures Others(g, v0, w0, v, LoseW(w, pend), f, x)
  {
    hide Tree;
    var w' := LoseW(w, pend);
    forall c | 2 <= c < g.max ensures OtherCluster(g, v0, w0, v, w', f, x, c) { assert OtherCluster(g, v0, w0, v, w, f, x, c); }
    forall h | 2 <= h < g.max ensures OtherHead(g, v0, w0, v, w', f, h) { assert OtherHead(g, v0, w0, v, w, f, h); }
  }

  lemma BuryDone(g: Geo, v0: View, w0: Witness, v: View, w: Witness, path: Bytes, d: int, name: Bytes, x: Slot, pend: seq<int>, e: Bytes)
    requires Underway(g, v0, w0, v, w, path, d, name, x, pend) && name[0] == DELETED
    requires |e| == SIZE && IsFree(e) && !IsEnd(e)
    ensures Inv(g, Store(g, v, x, e), LoseW(w, pend))
    ensures Buried(g, v0, w0, Store(g, v, x, e), LoseW(w, pend), path, |pend|)
  {
    hide Tree, Strays, Others, OtherCluster, OtherHead;
    NoDeletedName(g, v0, w0, d, name);
    NoStrays(g, w0);
    Kill(g, v, w, x, pend, e);
    OthersStore(g, v0, w0, v, w, 0, x, e);
    OthersLose(g, v0, w0, Store(g, v, x, e), w, 0, x, pend);
    PathKept(g, v0, w0, Store(g, v, x, e), LoseW(w, pend), path, x);
    NoDeletedName(g, Store(g, v, x, e), LoseW(w, pend), d, name);
    assert LoseW(w0, pend).lost == LoseW(w, pend).lost;
  }

  /** A directory entry with a size, as fat_write_at makes it out of a directory. */
  predicate SizedDirectory(e: Bytes)
    requires |e| == SIZE
  {
    Live(e) && IsDirectory(e) && FileSize(e) != 0
  }

  /** The entry to be stored looks deleted, or is a directory with a size, or completes the update. */
  ghost predicate CanFinish(g: Geo, v: View, w: Witness, x: Slot, name: Bytes, pend: seq<int>, e: Bytes) {
    |e| == SIZE && |name| == NAME_LEN
    && if name[0] == DELETED then IsFree(e) && !IsEnd(e)
       else Name(e) == name && (SizedDirectory(e) || CanAttach(g, v, w, x, pend, e))
  }

  /** What storing entry e for the path has done. */
  ghost predicate Finished(g: Geo, v0: View, w0: Witness, v: View, w: Witness, path: Bytes, name: Bytes, pend: seq<int>, e: Bytes, bytes: Bytes)
    requires Shape(g, v0, w0) && |name| == NAME_LEN && |e| == SIZE
  {
    if name[0] == DELETED then Inv(g, v, w) && Buried(g, v0, w0, v, w, path, |pend|)
    else if SizedDirectory(e) then !VolumeOk(g, v) && RestKept(g, v0, w0, v, w, path)
    else Inv(g, v, w) && Updated(g, v0, w0, v, w, path, e, bytes) && EntryChain(g, w, e) == pend
  }

  /** The common end of the write functions: write the tables back, then the entry. */
  method FinishWrite(vol: Volume, slot: DirSlot, e: Bytes, ghost v0: View, ghost w0: Witness, ghost path: Bytes, ghost d: int, ghost name: Bytes, ghost x: Slot, ghost pend: seq<int>)
    returns (r: int)
    requires vol.Ready() && Underway(vol.l.G(), v0, w0, vol.V(), vol.w, path, d, name, x, pend) && Places(vol.l, slot, x)
    requires CanFinish(vol.l.G(), vol.V(), vol.w, x, name, pend, e)
    modifies vol`w, vol.dsk
    ensures OnVolume(vol.l.G(), old(vol.V()), pend) && (r == 0 || r == 1)
    ensures r == 0 ==> vol.Ready() && vol.Synced() && vol.V().t == old(vol.V()).t
    ensures r == 0 ==> Finished(vol.l.G(), v0, w0, vol.V(), vol.w, path, name, pend, e, Content(vol.l.G(), old(vol.V()), pend))
    ensures r == 1 ==> vol.dsk.faulty
  {
    hide Underway, Finished, Content, Places, Volume.V, Volume.Synced, Areas;
    ghost var w' := FinishW(vol.l.G(), v0, w0, vol.V(), vol.w, path, d, name, x, pend, e);
    var err := FlushAndStore(vol, slot, e, x);
    if err {
      return 1;
    }
    vol.w := w';
    r := 0;
  }

  lemma FinishW(g: Geo, v0: View, w0: Witness, v: View, w: Witness, path: Bytes, d: int, name: Bytes, x: Slot, pend: seq<int>, e: Bytes)
    returns (w': Witness)
    requires Underway(g, v0, w0, v, w, path, d, name, x, pend) && CanFinish(g, v, w, x, name, pend, e)
    ensures OnVolume(g, v, pend) && Finished(g, v0, w0, Store(g, v, x, e), w', path, name, pend, e, Content(g, v, pend))
  {
    hide Updated, Buried, RestKept, VolumeOk, Content, NameFree, FrontFull, Others;
    PendOnVolume(g, v, w, x, pend);
    if name[0] == DELETED {
      BuryDone(g, v0, w0, v, w, path, d, name, x, pend, e);
      w' := LoseW(w, pend);
    } else if SizedDirectory(e) {
      StoreKeepsPend(g, v, w, x, pend, e);
      StoreEnt(g, v, w, x, e, x);
      BrokenDirectory(g, Store(g, v, x, e), w, x, pend);
      StoredRest(g, v0, w0, v, w, path, d, name, x, pend, e);
      w' := w;
    } else {
      w' := Finish(g, v0, w0, v, w, path, d, name, x, pend, e);
    }
  }

  lemma StoredRest(g: Geo, v0: View, w0: Witness, v: View, w: Witness, path: Bytes, d: int, name: Bytes, x: Slot, pend: seq<int>, e: Bytes)
    requires Underway(g, v0, w0, v, w, path, d, name, x, pend) && |e| == SIZE
    ensures RestKept(g, v0, w0, Store(g, v, x, e), w, path)
  {
    OthersStore(g, v0, w0, v, w, OldFirst(g, v0, w0, path), x, e);
  }

  /** The result of a successful fat_write_file: the file holds exactly the data, followed by zeros up to
      the end of its last cluster. */
  ghost predicate Replaced(g: Geo, v0: View, w0: Witness, v: View, w: Witness, path: Bytes, data: Bytes)
    requires Shape(g, v0, w0) && Shape(g, v, w)
  {
    var x := FileSlot(g, v, w, path);
    x != NONE && ReplacedBy(g, v0, w0, v, w, path, data, Ent(g, v, x))
  }

  ghost predicate ReplacedBy(g: Geo, v0: View, w0: Witness, v: View, w: Witness, path: Bytes, data: Bytes, e: Bytes)
    requires Shape(g, v0, w0) && Shape(g, v, w) && |e| == SIZE
  {
    && Resolve(g, v0, w0, path).At? && |Resolve(g, v0, w0, path).name| == NAME_LEN
    && First(e) >= 0 && e == Make(Resolve(g, v0, w0, path).name, ATTR_ARCHIVE, First(e), |data|)
    && Updated(g, v0, w0, v, w, path, e, Padded(data, |EntryChain(g, w, e)| * g.ClusterSize()))
  }

  /** Writing len bytes to the path loses no cluster: there is nothing to store, or the name can be
      stored; and if a directory is replaced, none of its entries has clusters. */
  ghost predicate LosesNothing(g: Geo, v: View, w: Witness, path: Bytes, len: nat)
    requires Shape(g, v, w)
  {
    && (len == 0 || StorableName(g, v, w, path))
    && (DirectoryTarget(g, v, w, path) ==> Barren(g, v, w, OldFirst(g, v, w, path)))
  }

  /** A successful write leaves a consistent volume exactly when it loses nothing. */
  lemma UpdatedLoss(g: Geo, v0: View, w0: Witness, v: View, w: Witness, path: Bytes, e: Bytes, bytes: Bytes)
    requires Inv(g, v0, w0) && Inv(g, v, w) && Updated(g, v0, w0, v, w, path, e, bytes)
    ensures VolumeOk(g, v) <==> VolumeOk(g, v0) && (DirectoryTarget(g, v0, w0, path) ==> Barren(g, v0, w0, OldFirst(g, v0, w0, path)))
  {
    hide Strays, Tree, Others, FileIs, VolumeOk, HeadOk, SlotOk, PairOk, ClusterOk;
    ConsistentIff(g, v0, w0);
    ConsistentIff(g, v, w);
    if FileSlot(g, v0, w0, path) != NONE {
      StraysIff(g, v0, w0, FileSlot(g, v0, w0, path));
    } else {
      NoStrays(g, w0);
    }
  }

  lemma BuriedNothing(g: Geo, v0: View, w0: Witness, v: View, w: Witness, path: Bytes, n: nat)
    requires Shape(g, v0, w0) && Shape(g, v, w) && Buried(g, v0, w0, v, w, path, n)
    ensures !DirectoryTarget(g, v0, w0, path)
  {
  }

  lemma BuriedLoss(g: Geo, v0: View, w0: Witness, v: View, w: Witness, path: Bytes, n: nat)
    requires Inv(g, v0, w0) && Inv(g, v, w) && Buried(g, v0, w0, v, w, path, n)
    ensures VolumeOk(g, v) <==> VolumeOk(g, v0) && n == 0
  {
    hide HeadOk, SlotOk, PairOk, ClusterOk, RestKept, VolumeOk, FileSlot;
    ConsistentIff(g, v0, w0);
    ConsistentIff(g, v, w);
    var pend: seq<int> :| |pend| == n && w.lost == LoseW(w0, pend).lost;
    if n > 0 { assert pend[0] in w.lost; }
  }

  lemma SlotFound(g: Geo, v: View, w: Witness, path: Bytes)
    requires Shape(g, v, w)
    ensures FileSlot(g, v, w, path) != NONE ==> LiveAt(g, v, w, NONE, FileSlot(g, v, w, path))
  {
  }

  /** The clusters that len bytes take. */
  function ClustersFor(len: nat, cs: nat): nat
    requires cs > 0
  {
    if len == 0 then 0 else (len - 1) / cs + 1
  }

  lemma ClustersAre(n: nat, len: nat, cs: nat)
    requires cs > 0 && if n == 0 then len == 0 else CeilIs(n, len, cs)
    ensures ClustersFor(len, cs) == n
  {
    if n > 0 {
      assert n * cs == (n - 1) * cs + cs;
      MulMono(0, n - 1, cs);
      DivIs(len - 1, cs, n - 1);
    }
  }

  /** The result of fat_write_file when the data does not fit: the volume is consistent exactly when it was
      and no old contents had to be given up. Nothing is kept of the clusters taken for the new contents,
      and no other file is touched. */
  ghost predicate DidNotFit(g: Geo, v0: View, w0: Witness, v: View, w: Witness, path: Bytes, data: Bytes)
    requires Shape(g, v0, w0)
  {
    && (VolumeOk(g, v) <==> VolumeOk(g, v0) && OldFirst(g, v0, w0, path) == 0)
    && !Fits(g, v0, w0, path, |data|)
    && (if FileSlot(g, v0, w0, path) != NONE then v.t == AfterGivingUp(g, v0, w0, path)
        else Room(v.t) == Room(v0.t) - Growth(g, v0, w0, path))
    && RestKept(g, v0, w0, v, w, path)
  }

  lemma NotFitting(g: Geo, v0: View, w0: Witness, v: View, w: Witness, path: Bytes, d: int, name: Bytes, x: Slot)
    requires Underway(g, v0, w0, v, w, path, d, name, x, [])
    requires FileSlot(g, v0, w0, path) != NONE ==> v.t == AfterGivingUp(g, v0, w0, path)
    ensures VolumeOk(g, v) <==> VolumeOk(g, v0) && OldFirst(g, v0, w0, path) == 0
  {
    hide Others, Tree, NameFree, FrontFull;
    var y := FileSlot(g, v0, w0, path);
    ConsistentIff(g, v0, w0);
    if DirectoryTarget(g, v0, w0, path) {
      assert SlotOk(g, v0, w0, NONE, y);
      assert HeadOk(g, v0, w0, NONE, First(Ent(g, v0, y)));
      BrokenDirectory(g, v, w, x, []);
    } else {
      PlainStop(g, v0, w0, v, w, path, d, name, x, []);
    }
  }

  /** In the middle of an update of a plain file or a new one, nothing is lost that was not, and the volume
      is consistent exactly when the entry fits the chain. */
  lemma PlainStop(g: Geo, v0: View, w0: Witness, v: View, w: Witness, path: Bytes, d: int, name: Bytes, x: Slot, pend: seq<int>)
    requires Underway(g, v0, w0, v, w, path, d, name, x, pend) && !DirectoryTarget(g, v0, w0, path)
    ensures VolumeOk(g, v) <==> VolumeOk(g, v0) && Settled(g, Ent(g, v, x), pend)
    ensures if FileSlot(g, v0, w0, path) != NONE then LiveAt(g, v0, w0, NONE, x) && Ent(g, v, x) == Ent(g, v0, x) && SlotOk(g, v0, w0, NONE, x)
            else !Live(Ent(g, v, x))
  {
    hide Others, Tree, Strays;
    var y := FileSlot(g, v0, w0, path);
    ConsistentIff(g, v0, w0);
    NoStrays(g, w0);
    if y != NONE {
      var f := First(Ent(g, v0, y));
      assert SlotOk(g, v0, w0, NONE, y);
      StraysIff(g, v0, w0, y);
      if f != 0 { ChainMember(g, v0, w0, NONE, [], f, 0); assert HeadOk(g, v0, w0, NONE, f); assert ClusterOk(g, v0, w0, [], f); }
    }
    StoppedHalfWay(g, v, w, x, pend);
  }

  /** fat_write_file. On a directory it succeeds as well: the directory turns into a file. */
  method WriteFile(vol: Volume, path: Bytes, data: Bytes) returns (r: int)
    requires vol.Valid() && |data| < WORD && 0 !in path
    modifies vol`w, vol.fat.buf, vol.dsk
    ensures r == 0 || r == 1 || r == 2 || r == 3 || r == 4 || r == UNSET_SLOT
    ensures r == 0 ==> vol.Valid() && vol.Synced()
    ensures r == 0 ==> if StorableName(vol.l.G(), old(vol.V()), old(vol.w), path)
                       then Replaced(vol.l.G(), old(vol.V()), old(vol.w), vol.V(), vol.w, path, data)
                       else Buried(vol.l.G(), old(vol.V()), old(vol.w), vol.V(), vol.w, path, ClustersFor(|data|, vol.l.G().ClusterSize()))
    ensures r == 0 ==> (VolumeOk(vol.l.G(), vol.V()) <==> VolumeOk(vol.l.G(), old(vol.V())) && LosesNothing(vol.l.G(), old(vol.V()), old(vol.w), path, |data|))
    ensures r == 3 ==> vol.Ready() && DidNotFit(vol.l.G(), old(vol.V()), old(vol.w), vol.V(), vol.w, path, data)
    ensures r == 2 || r == UNSET_SLOT ==> vol.Valid() && vol.V() == old(vol.V()) && vol.w == old(vol.w) && DirectoryFull(vol.l.G(), vol.V(), vol.w, path)
    ensures r == 4 ==> vol.Valid() && vol.V() == old(vol.V()) && vol.w == old(vol.w) && Resolve(vol.l.G(), old(vol.V()), old(vol.w), path) == Root
    ensures r == 1 ==> vol.dsk.faulty || NoWay(vol.l.G(), old(vol.V()), old(vol.w), path)
    ensures r == 0 ==> HasPlace(vol.l.G(), old(vol.V()), old(vol.w), path) && Fits(vol.l.G(), old(vol.V()), old(vol.w), path, |data|)
    ensures r != 0 ==> vol.dsk.faulty || !HasPlace(vol.l.G(), old(vol.V()), old(vol.w), path) || !Fits(vol.l.G(), old(vol.V()), old(vol.w), path, |data|)
    ensures r == 0 && StorableName(vol.l.G(), old(vol.V()), old(vol.w), path) ==>
      Room(vol.V().t) + FileCount(vol.l.G(), vol.V(), vol.w, path) == Room(AfterGivingUp(vol.l.G(), old(vol.V()), old(vol.w), path)) - Growth(vol.l.G(), old(vol.V()), old(vol.w), path)
  {
    hide Volume.V, Volume.Synced, Areas, VolumeOk, LosesNothing, Fits, HasPlace, AfterGivingUp, Growth, Underway, Replaced, Buried, RestKept, Room, RoomFor, FreedT, FileCount, Took;
    ghost var g, v0, w0 := vol.l.G(), vol.V(), vol.w;
    var slot, name, e;
    ghost var d, x, pend;
    r, slot, name, e, d, x, pend := StartWrite(vol, path);
    if r != 0 {
      NoPlaceOrRoom(g, v0, w0, path, |data|);
      return;
    }
    NameOf(g, v0, w0, vol.V(), vol.w, path, d, name, x, pend);
    if slot.found {
      GivenUp(g, v0, w0, vol.V(), vol.w, path, d, name, x, pend);
      GiveUp(vol, e, v0, w0, path, d, name, x, pend);
    }
    ghost var t1 := vol.V().t;
    FitsInTable(g, v0, w0, path, t1, |data|);
    r := ReplaceContents(vol, slot, data, v0, w0, path, d, name, x);
    if r == 3 {
      assert vol.V().t == t1;
      NotFitting(g, v0, w0, vol.V(), vol.w, path, d, name, x);
      RestIsKept(g, v0, w0, vol.V(), vol.w, path, d, name, x, []);
    }
    if r == 0 { WriteLoss(g, v0, w0, vol.V(), vol.w, path, data); }
  }

  lemma UnderwayMid(g: Geo, v0: View, w0: Witness, v: View, w: Witness, path: Bytes, d: int, name: Bytes, x: Slot, pend: seq<int>)
    requires Underway(g, v0, w0, v, w, path, d, name, x, pend)
    ensures Inv(g, v0, w0) && Shape(g, v0, w0) && Shape(g, v, w) && Resolve(g, v0, w0, path) == At(d, name) && |name| == NAME_LEN && name[0] != DOT
    ensures Mid(g, v0, w0, v, w, OldFirst(g, v0, w0, path), x, name, pend)
  {
  }

  lemma StillUnderway(g: Geo, v0: View, w0: Witness, v1: View, v: View, w: Witness, path: Bytes, d: int, name: Bytes, x: Slot, pend1: seq<int>, pend: seq<int>, r: int)
    requires Underway(g, v0, w0, v1, w, path, d, name, x, pend1)
    requires Mid(g, v0, w0, v, w, OldFirst(g, v0, w0, path), x, name, if r == 0 then pend else [])
    ensures Underway(g, v0, w0, v, w, path, d, name, x, if r == 0 then pend else [])
  {
  }

  lemma NameOf(g: Geo, v0: View, w0: Witness, v: View, w: Witness, path: Bytes, d: int, name: Bytes, x: Slot, pend: seq<int>)
    requires Underway(g, v0, w0, v, w, path, d, name, x, pend) && 0 !in path
    ensures Inv(g, v0, w0) && |name| == NAME_LEN && name[0] != 0 && (StorableName(g, v0, w0, path) <==> name[0] != DELETED)
  {
    ResolveName(g, v0, w0, path);
  }

  /** A successful fat_write_file leaves a consistent volume exactly when it loses nothing. */
  lemma WriteLoss(g: Geo, v0: View, w0: Witness, v: View, w: Witness, path: Bytes, data: Bytes)
    requires Inv(g, v0, w0) && Inv(g, v, w) && g.ClusterSize() > 0
    requires if StorableName(g, v0, w0, path) then Replaced(g, v0, w0, v, w, path, data)
             else Buried(g, v0, w0, v, w, path, ClustersFor(|data|, g.ClusterSize()))
    ensures VolumeOk(g, v) <==> VolumeOk(g, v0) && LosesNothing(g, v0, w0, path, |data|)
  {
    hide Inv, VolumeOk, Updated, RestKept, Buried, StorableName, DirectoryTarget, FileSlot, Resolve, EntryChain, Padded, Barren, OldFirst;
    InvShape(g, v0, w0);
    InvShape(g, v, w);
    assert FileSlot(g, v, w, path) != NONE ==> LiveAt(g, v, w, NONE, FileSlot(g, v, w, path)) by { SlotFound(g, v, w, path); }
    if StorableName(g, v0, w0, path) {
      var e := Ent(g, v, FileSlot(g, v, w, path));
      UpdatedLoss(g, v0, w0, v, w, path, e, Padded(data, |EntryChain(g, w, e)| * g.ClusterSize()));
    } else {
      Quotients(|data|, g.ClusterSize());
      BuriedLoss(g, v0, w0, v, w, path, ClustersFor(|data|, g.ClusterSize()));
      BuriedNothing(g, v0, w0, v, w, path, ClustersFor(|data|, g.ClusterSize()));
    }
  }

  lemma Quotients(len: nat, cs: nat)
    requires cs > 0
    ensures ClustersFor(len, cs) == 0 <==> len == 0
  {
  }

  lemma GivenUp(g: Geo, v0: View, w0: Witness, v: View, w: Witness, path: Bytes, d: int, name: Bytes, x: Slot, pend: seq<int>)
    requires Underway(g, v0, w0, v, w, path, d, name, x, pend) && FileSlot(g, v0, w0, path) != NONE
    ensures FileSlot(g, v0, w0, path) == x && Shape(g, v0, w0) && AfterGivingUp(g, v0, w0, path) == FreedT(v0.t, EntryChain(g, w0, Ent(g, v0, x)))
  {
  }

  /** The old chain is freed before the new contents are known to fit. */
  method GiveUp(vol: Volume, e: Bytes, ghost v0: View, ghost w0: Witness, ghost path: Bytes, ghost d: int, ghost name: Bytes, ghost x: Slot, ghost pend: seq<int>)
    requires vol.Ready() && Underway(vol.l.G(), v0, w0, vol.V(), vol.w, path, d, name, x, pend) && |e| == SIZE && First(e) == Head(pend)
    modifies vol.fat.buf
    ensures vol.Ready() && Underway(vol.l.G(), v0, w0, vol.V(), vol.w, path, d, name, x, [])
    ensures vol.V() == old(vol.V()).(t := FreedT(old(vol.V()).t, pend))
  {
    ghost var g, v := vol.l.G(), vol.V();
    if pend != [] { PendAway(g, v, vol.w, x, pend, 0); }
    GiveBack(vol, First(e), v0, w0, OldFirst(g, v0, w0, path), x, name, pend);
  }

  /** The rest of fat_write_file. */
  method ReplaceContents(vol: Volume, slot: DirSlot, data: Bytes, ghost v0: View, ghost w0: Witness, ghost path: Bytes, ghost d: int, name: Bytes, ghost x: Slot)
    returns (r: int)
    requires vol.Ready() && Underway(vol.l.G(), v0, w0, vol.V(), vol.w, path, d, name, x, []) && Places(vol.l, slot, x) && |data| < WORD
    requires |name| == NAME_LEN && name[0] != 0
    modifies vol`w, vol.fat.buf, vol.dsk
    ensures r == 0 || r == 1 || r == 3
    ensures r == 0 ==> vol.Valid() && vol.Synced()
    ensures r == 0 ==> if name[0] != DELETED then Replaced(vol.l.G(), v0, w0, vol.V(), vol.w, path, data)
                       else Buried(vol.l.G(), v0, w0, vol.V(), vol.w, path, ClustersFor(|data|, vol.l.G().ClusterSize()))
    ensures r == 3 ==> vol.Ready() && Underway(vol.l.G(), v0, w0, vol.V(), vol.w, path, d, name, x, [])
    ensures r == 3 ==> vol.V().t == old(vol.V()).t && !RoomFor(vol.V().t, |data|, vol.l.G().ClusterSize())
    ensures r == 1 ==> vol.dsk.faulty
    ensures r == 0 ==> RoomFor(old(vol.V()).t, |data|, vol.l.G().ClusterSize())
    ensures r == 0 && name[0] != DELETED ==> Room(vol.V().t) + FileCount(vol.l.G(), vol.V(), vol.w, path) == Room(old(vol.V()).t)
  {
    hide Volume.V, Volume.Synced, Areas, Underway, Places, Mid, Filled, Updated, Replaced, Buried, Finished, RoomFor, Room, Content, FileCount, CanFinish;
    ghost var g := vol.l.G();
    UnderwayMid(g, v0, w0, vol.V(), vol.w, path, d, name, x, []);
    var first;
    ghost var pend;
    r, first, pend := WriteData(vol, data, v0, w0, OldFirst(g, v0, w0, path), x, name);
    if r == 1 {
      return;
    }
    StillUnderway(g, v0, w0, old(vol.V()), vol.V(), vol.w, path, d, name, x, [], pend, r);
    if r != 0 {
      return;
    }
    var e := Make(name, ATTR_ARCHIVE, first, |data|);
    ghost var v, w := vol.V(), vol.w;
    EntryReady(g, v0, w0, v, w, path, d, name, x, pend, data, first);
    r := FinishWrite(vol, slot, e, v0, w0, path, d, name, x, pend);
    if r == 0 { ReplacedNow(g, v0, w0, v, vol.V(), vol.w, path, d, name, data, e, pend); }
  }

  /** The entry fits the chain just built, or looks deleted. */
  lemma EntryReady(g: Geo, v0: View, w0: Witness, v: View, w: Witness, path: Bytes, d: int, name: Bytes, x: Slot, pend: seq<int>, data: Bytes, first: nat)
    requires Inv(g, v0, w0) && Resolve(g, v0, w0, path) == At(d, name) && |name| == NAME_LEN && name[0] != 0 && name[0] != DOT
    requires Mid(g, v0, w0, v, w, OldFirst(g, v0, w0, path), x, name, pend) && Filled(g, v, pend, data, |data|) && first == Head(pend) && |data| < WORD
    ensures var e := Make(name, ATTR_ARCHIVE, first, |data|);
            && CanFinish(g, v, w, x, name, pend, e) && First(e) == first && !IsDirectory(e)
            && |pend| == ClustersFor(|data|, g.ClusterSize())
  {
    hide Others, NameFree, FrontFull, Strays, Content;
    NewEntry(g, v, w, x, pend, name, first, |data|);
    ClustersAre(|pend|, |data|, g.ClusterSize());
  }

  lemma ReplacedNow(g: Geo, v0: View, w0: Witness, v: View, v': View, w': Witness, path: Bytes, d: int, name: Bytes, data: Bytes, e: Bytes, pend: seq<int>)
    requires Shape(g, v0, w0) && Resolve(g, v0, w0, path) == At(d, name) && |name| == NAME_LEN && |e| == SIZE
    requires Filled(g, v, pend, data, |data|) && !IsDirectory(e)
    requires First(e) >= 0 && e == Make(name, ATTR_ARCHIVE, First(e), |data|)
    requires Finished(g, v0, w0, v', w', path, name, pend, e, Content(g, v, pend))
    ensures Inv(g, v', w')
    ensures name[0] != DELETED ==> Replaced(g, v0, w0, v', w', path, data) && FileCount(g, v', w', path) == |pend|
    ensures name[0] == DELETED ==> Buried(g, v0, w0, v', w', path, |pend|)
  {
    hide GInv, Others, Tree, Buried, Content;
    InvShape(g, v', w');
    assert data[..|data|] == data;
    if name[0] != DELETED { CountNow(g, v0, w0, v', w', path, e, Content(g, v, pend), pend); }
  }

  /** The record of a new file reads back as written. */
  lemma NewEntry(g: Geo, v: View, w: Witness, x: Slot, pend: seq<int>, name: Bytes, first: nat, size: nat)
    requires GInv(g, v, w, x, pend) && first == Head(pend) && size < WORD
    requires |name| == NAME_LEN && name[0] != DOT && name[0] != 0
    ensures var e := Make(name, ATTR_ARCHIVE, first, size);
            && !IsDirectory(e) && First(e) == first && FileSize(e) == size && Name(e) == name
            && if name[0] == DELETED then IsFree(e) && !IsEnd(e) else Live(e)
  {
    if pend != [] { PendAway(g, v, w, x, pend, 0); }
    WithFieldsRead(name + [ATTR_ARCHIVE] + seq(20, _ => 0), first, size);
    var e := Make(name, ATTR_ARCHIVE, first, size);
    assert e[0] == Name(e)[0];
  }

  /** What a reader obtains after a successful write: the size of the data, and the data filled up with
      zeros to the end of its last cluster. */
  lemma ReadBack(g: Geo, v0: View, w0: Witness, v: View, w: Witness, path: Bytes, data: Bytes)
    requires Shape(g, v0, w0) && Inv(g, v, w) && Replaced(g, v0, w0, v, w, path, data) && |data| < WORD
    ensures var x := FileSlot(g, v, w, path);
            var n := |EntryChain(g, w, Ent(g, v, x))|;
            && FileSize(Ent(g, v, x)) == |data| && FileIs(g, v, w, x, Ent(g, v, x), Padded(data, n * g.ClusterSize()))
            && (if data == [] then n == 0 else CeilIs(n, |data|, g.ClusterSize()))
  {
    var x := FileSlot(g, v, w, path);
    var e := Ent(g, v, x);
    assert SlotOk(g, v, w, NONE, x);
    RecordRead(Resolve(g, v0, w0, path).name, First(e), |data|);
  }

  /** The entry of a file that has been written, byte by byte: its name, the archive bit, zeros for the
      reserved byte and the times, first cluster and size. */
  lemma WrittenRecord(g: Geo, v0: View, w0: Witness, v: View, w: Witness, path: Bytes, data: Bytes)
    requires Shape(g, v0, w0) && Inv(g, v, w) && Replaced(g, v0, w0, v, w, path, data) && |data| < WORD
    ensures Resolve(g, v0, w0, path).At?
    ensures var e := Ent(g, v, FileSlot(g, v, w, path));
            && |e| == 32 && e[..11] == Resolve(g, v0, w0, path).name && e[11] == 0x20 && (forall i :: 12 <= i < 26 ==> e[i] == 0)
            && 0 <= e[26] < 256 && 0 <= e[27] < 256 && e[26] + 256 * e[27] == OldFirst(g, v, w, path)
            && e[28] + 256 * e[29] + 65536 * e[30] + 16777216 * e[31] == |data|
  {
    var x := FileSlot(g, v, w, path);
    var e := Ent(g, v, x);
    assert SlotOk(g, v, w, NONE, x);
    RecordBytes(Resolve(g, v0, w0, path).name, ATTR_ARCHIVE, First(e), |data|);
  }

  /** A file that has been written is found; one that looks deleted is not. */
  lemma WrittenSlot(g: Geo, v0: View, w0: Witness, v: View, w: Witness, path: Bytes, data: Bytes)
    requires Inv(g, v0, w0) && Inv(g, v, w) && |data| < WORD && g.ClusterSize() > 0
    requires if StorableName(g, v0, w0, path) then Replaced(g, v0, w0, v, w, path, data)
             else Buried(g, v0, w0, v, w, path, ClustersFor(|data|, g.ClusterSize()))
    ensures if StorableName(g, v0, w0, path) then
              var x := FileSlot(g, v, w, path);
              && x != NONE && FileSize(Ent(g, v, x)) == |data| && Resolve(g, v, w, path) != Root
              && forall out :: FileIs(g, v, w, x, Ent(g, v, x), out) ==> Delivers(out, data, g.ClusterSize())
            else FileSlot(g, v, w, path) == NONE
  {
    if StorableName(g, v0, w0, path) {
      ReadBack(g, v0, w0, v, w, path, data);
    }
  }

  /** out is the data, filled up with zeros to whole clusters, and no more of them than it takes. */
  ghost predicate Delivers(out: Bytes, data: Bytes, cs: nat) {
    && data <= out && |out| < |data| + cs && (exists n :: |out| == n * cs)
    && forall i :: |data| <= i < |out| ==> out[i] == 0
  }

  lemma RecordRead(name: Bytes, first: nat, size: nat)
    requires |name| == NAME_LEN && size < WORD
    ensures FileSize(Make(name, ATTR_ARCHIVE, first, size)) == size && !IsDirectory(Make(name, ATTR_ARCHIVE, first, size))
  {
    SplitSize(size);
  }

  /** fat_write_file followed by fat_read_file on the same path. */
  method WriteThenRead(vol: Volume, path: Bytes, data: Bytes) returns (ok: bool, size: int, out: Bytes)
    requires vol.Valid() && |data| < WORD && 0 !in path
    modifies vol`w, vol.fat.buf, vol.dsk
    ensures ok ==> vol.Valid() && vol.Synced() && size == |data| && Delivers(out, data, vol.l.G().ClusterSize())
    ensures !ok ==> vol.dsk.faulty || !HasPlace(vol.l.G(), old(vol.V()), old(vol.w), path) || !Fits(vol.l.G(), old(vol.V()), old(vol.w), path, |data|) || !StorableName(vol.l.G(), old(vol.V()), old(vol.w), path)
    ensures !StorableName(vol.l.G(), old(vol.V()), old(vol.w), path) ==> !ok
  {
    hide HasPlace, Fits, Replaced, Buried, StorableName, VolumeOk, LosesNothing, NoWay, DirectoryFull, DidNotFit, FileSlot, Resolve, Inv, Areas, Volume.V, Volume.Synced;
    ghost var g, v0, w0 := vol.l.G(), vol.V(), vol.w;
    size, out := 0, [];
    var r := WriteFile(vol, path, data);
    if r != 0 {
      return false, size, out;
    }
    ghost var v, w := vol.V(), vol.w;
    WrittenSlot(g, v0, w0, v, w, path, data);
    r, size, out := ReadFile(vol, path);
    ok := r == 0;
  }
}
