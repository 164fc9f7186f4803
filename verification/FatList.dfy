/** Listing a directory by index. */
module FatList {
  import opened FatTable
  import opened Dirent
  import opened FatInvariant
  import opened FatDisk
  import opened FatPath
  import opened FatDirectory
  import opened FatVolume
  import opened FatFiles

  // ----- what a directory lists -----

  /** The live slots among the first k entries of area a. */
  ghost function ListArea(g: Geo, v: View, a: int, k: nat): (r: seq<Slot>)
    requires g.Ok() && |v.cl| == g.max && (a == 0 || 2 <= a < g.max) && |v.cl[a]| == SIZE * g.Slots(a) && k <= g.Slots(a)
  {
    if k == 0 then [] else
      var s := Slot(a, k - 1);
      if Live(Ent(g, v, s)) then ListArea(g, v, a, k - 1) + [s] else ListArea(g, v, a, k - 1)
  }

  lemma OneMore(q: seq<Slot>, s: Slot)
    requires forall i :: 0 <= i < |q| ==> q[i].k < s.k
    requires forall i, j :: 0 <= i < j < |q| ==> q[i].k < q[j].k
    ensures forall i, j :: 0 <= i < j < |q + [s]| ==> (q + [s])[i].k < (q + [s])[j].k
    ensures forall r :: r in q + [s] <==> r in q || r == s
  {
  }

  /** They are listed in order, and none is left out. */
  lemma {:induction false} ListAreaExact(g: Geo, v: View, a: int, k: nat)
    requires g.Ok() && |v.cl| == g.max && (a == 0 || 2 <= a < g.max) && |v.cl[a]| == SIZE * g.Slots(a) && k <= g.Slots(a)
    ensures var r := ListArea(g, v, a, k);
            && (forall i :: 0 <= i < |r| ==> r[i].a == a && 0 <= r[i].k < k && Live(Ent(g, v, r[i])))
            && (forall i, j :: 0 <= i < j < |r| ==> r[i].k < r[j].k)
            && (forall s: Slot :: s.a == a && 0 <= s.k < k && Live(Ent(g, v, s)) ==> s in r)
    decreases k
  {
    if k > 0 {
      ListAreaExact(g, v, a, k - 1);
      var q, last := ListArea(g, v, a, k - 1), Slot(a, k - 1);
      if Live(Ent(g, v, last)) { OneMore(q, last); }
      forall s: Slot | s.a == a && 0 <= s.k < k && Live(Ent(g, v, s)) ensures s in ListArea(g, v, a, k) {
        assert s.k == k - 1 ==> s == Slot(a, k - 1);
      }
    }
  }

  ghost predicate AreasOk(g: Geo, v: View, w: Witness, d: int)
    requires d == 0 || 0 <= d < |w.chain|
  {
    && g.Ok() && |v.cl| == g.max
    && forall j: nat :: j < AreaCount(w, d) ==>
         (AreaAt(w, d, j) == 0 || 2 <= AreaAt(w, d, j) < g.max) && |v.cl[AreaAt(w, d, j)]| == SIZE * g.Slots(AreaAt(w, d, j))
  }

  /** The live slots of the first j areas of directory d, in the order of a scan. */
  ghost function ListDir(g: Geo, v: View, w: Witness, d: int, j: nat): seq<Slot>
    requires (d == 0 || 0 <= d < |w.chain|) && AreasOk(g, v, w, d) && j <= AreaCount(w, d)
  {
    if j == 0 then [] else
      var a := AreaAt(w, d, j - 1);
      ListDir(g, v, w, d, j - 1) + ListArea(g, v, a, g.Slots(a))
  }

  lemma DirAreasOk(g: Geo, v: View, w: Witness, d: int)
    requires Inv(g, v, w) && IsDirNo(g, w, d)
    ensures AreasOk(g, v, w, d)
  {
    forall j: nat | j < AreaCount(w, d) ensures
      (AreaAt(w, d, j) == 0 || 2 <= AreaAt(w, d, j) < g.max) && |v.cl[AreaAt(w, d, j)]| == SIZE * g.Slots(AreaAt(w, d, j)) {
      AreaAtOk(g, v, w, d, j);
    }
  }

  /** The listing of directory d. */
  ghost function Listing(g: Geo, v: View, w: Witness, d: int): (r: seq<Slot>)
    requires Inv(g, v, w) && IsDirNo(g, w, d)
  {
    DirAreasOk(g, v, w, d);
    ListDir(g, v, w, d, AreaCount(w, d))
  }

  /** Slot s is listed by the first j areas. */
  ghost predicate InFirst(g: Geo, v: View, w: Witness, d: int, j: int, s: Slot)
    requires Shape(g, v, w)
  {
    LiveAt(g, v, w, NONE, s) && DirOf(w, s.a) == d && AreaPos(w, s.a) < j
  }

  /** r holds exactly the live slots of the first j areas, each once. */
  ghost predicate Lists(g: Geo, v: View, w: Witness, d: int, j: int, r: seq<Slot>)
    requires Shape(g, v, w)
  {
    && (forall s :: s in r <==> InFirst(g, v, w, d, j, s))
    && (forall i, k :: 0 <= i < k < |r| ==> r[i] != r[k])
  }

  lemma {:induction false} ListDirExact(g: Geo, v: View, w: Witness, d: int, j: nat)
    requires Inv(g, v, w) && IsDirNo(g, w, d) && AreasOk(g, v, w, d) && j <= AreaCount(w, d)
    ensures Lists(g, v, w, d, j, ListDir(g, v, w, d, j))
    decreases j
  {
    if j == 0 {
      forall s ensures !InFirst(g, v, w, d, 0, s) {
        if InFirst(g, v, w, d, 0, s) { DirAreaIs(g, v, w, d, s.a); }
      }
    } else {
      ListDirExact(g, v, w, d, j - 1);
      var a := AreaAt(w, d, j - 1);
      ListStep(g, v, w, d, j - 1, a, ListDir(g, v, w, d, j - 1), ListArea(g, v, a, g.Slots(a)));
    }
  }

  lemma ListStep(g: Geo, v: View, w: Witness, d: int, j: nat, a: int, p: seq<Slot>, q: seq<Slot>)
    requires Inv(g, v, w) && IsDirNo(g, w, d) && j < AreaCount(w, d) && a == AreaAt(w, d, j) && Lists(g, v, w, d, j, p)
    requires (a == 0 || 2 <= a < g.max) && q == ListArea(g, v, a, g.Slots(a))
    ensures Lists(g, v, w, d, j + 1, p + q)
  {
    AreaAtOk(g, v, w, d, j);
    ListAreaExact(g, v, a, g.Slots(a));
    forall s ensures s in p + q <==> InFirst(g, v, w, d, j + 1, s) {
      assert s in p + q <==> s in p || s in q;
      if InFirst(g, v, w, d, j + 1, s) { DirAreaIs(g, v, w, d, s.a); }
    }
    forall i, k | 0 <= i < k < |p + q| ensures (p + q)[i] != (p + q)[k] {
      if i < |p| <= k { assert p[i] in p && q[k - |p|].a == a; }
    }
  }

  /** Every live entry of the directory is listed, once, and nothing else is. */
  lemma ListedOnce(g: Geo, v: View, w: Witness, d: int)
    requires Inv(g, v, w) && IsDirNo(g, w, d)
    ensures forall s :: s in Listing(g, v, w, d) <==> LiveAt(g, v, w, NONE, s) && DirOf(w, s.a) == d
    ensures forall i, j :: 0 <= i < j < |Listing(g, v, w, d)| ==> Listing(g, v, w, d)[i] != Listing(g, v, w, d)[j]
  {
    DirAreasOk(g, v, w, d);
    var n := AreaCount(w, d);
    ListDirExact(g, v, w, d, n);
    forall s ensures s in Listing(g, v, w, d) <==> LiveAt(g, v, w, NONE, s) && DirOf(w, s.a) == d {
      assert s in ListDir(g, v, w, d, n) <==> InFirst(g, v, w, d, n, s);
      if LiveAt(g, v, w, NONE, s) && DirOf(w, s.a) == d { DirAreaIs(g, v, w, d, s.a); }
    }
  }

  /** The name listed for an entry, looked up again, leads to that entry exactly when the stored name is
      in 8.3 form. */
  lemma ListedNameFound(g: Geo, v: View, w: Witness, d: int, i: nat)
    requires Inv(g, v, w) && IsDirNo(g, w, d) && i < |Listing(g, v, w, d)|
    ensures var s := Listing(g, v, w, d)[i];
            LiveAt(g, v, w, NONE, s) && (Lookup(g, v, w, d, ToFatName(FromFatName(Name(Ent(g, v, s))))) == s <==> Is83(Name(Ent(g, v, s))))
  {
    ListedOnce(g, v, w, d);
    var s := Listing(g, v, w, d)[i];
    assert s in Listing(g, v, w, d);
    var raw := Name(Ent(g, v, s));
    NameRoundTrip(raw);
    LookupUnique(g, v, w, d, raw, s);
  }

  /** The driver itself stores such a name: a file made as "A B" is listed as "A". */
  lemma SpacedName()
    ensures var raw := ToFatName([65, SPACE, 66]);
            raw == [65, SPACE, 66] + seq(8, _ => SPACE) && !Is83(raw) && FromFatName(raw) == [65] && ToFatName([65]) != raw
  {
    var name: Bytes := [65, SPACE, 66];
    var raw := ToFatName(name);
    BaseLenIs(name, 0, 3);
    forall k | 0 <= k < NAME_LEN ensures raw[k] == if k < 3 then name[k] else SPACE { FatNameAt(name, k); }
    assert Trim(raw[..8]) == [65];
    assert ToFatName([65])[2] == SPACE by { FatNameAt([65], 2); }
    NameRoundTrip(raw);
  }

  // ----- fat_readdir -----

  /** What fat_readdir lists; the test for dots is made in subdirectories only. */
  predicate Shown(e: Bytes, dots: bool)
    requires |e| == SIZE
  {
    Visible(e) && (dots ==> !IsDots(e))
  }

  function ShownCount(sec: Bytes, dots: bool, n: nat): nat
    requires SIZE * n <= |sec|
  {
    if n == 0 then 0 else ShownCount(sec, dots, n - 1) + if Shown(EntryAt(sec, n - 1), dots) then 1 else 0
  }

  /** The scan of one sector: stops at the entry with the given index among those shown. */
  method ListSector(sec: Bytes, dots: bool, index: nat, seen0: nat) returns (found: bool, i: nat, seen: nat)
    requires |sec| == SECTOR && seen0 <= index
    ensures seen <= index && i <= 16 && seen == seen0 + ShownCount(sec, dots, i)
    ensures if found then i < 16 && Shown(EntryAt(sec, i), dots) && seen == index else i == 16
  {
    i, seen, found := 0, seen0, false;
    while i < 16
      invariant i <= 16 && seen <= index && seen == seen0 + ShownCount(sec, dots, i)
    {
      if Shown(EntryAt(sec, i), dots) {
        if seen == index {
          return true, i, seen;
        }
        seen := seen + 1;
      }
      i := i + 1;
    }
  }

  ghost function SectorAt(b: Bytes, s: nat): (r: Bytes)
    requires SECTOR * (s + 1) <= |b|
    ensures |r| == SECTOR
  {
    b[SECTOR * s..SECTOR * s + SECTOR]
  }

  /** In a directory area, what is shown is what is live. */
  lemma ShownIsLive(g: Geo, v: View, w: Witness, a: int, s: nat, i: nat)
    requires Inv(g, v, w) && (a == 0 || 2 <= a < g.max) && SECTOR * (s + 1) <= |v.cl[a]| && i < 16
    ensures 16 * s + i < g.Slots(a)
    ensures var sec := SectorAt(v.cl[a], s);
            EntryAt(sec, i) == Ent(g, v, Slot(a, 16 * s + i)) && Shown(EntryAt(sec, i), a != 0) == Live(Ent(g, v, Slot(a, 16 * s + i)))
  {
    SliceEntry(v.cl[a], s, i);
    assert a == 0 ==> EntryAt(v.cl[0], 16 * s + i) == Ent(g, v, Slot(a, 16 * s + i));
  }

  lemma {:induction false} ShownIsListed(g: Geo, v: View, w: Witness, a: int, s: nat, i: nat)
    requires Inv(g, v, w) && (a == 0 || 2 <= a < g.max) && SECTOR * (s + 1) <= |v.cl[a]| && i <= 16
    ensures 16 * s + i <= g.Slots(a)
    ensures var sec := SectorAt(v.cl[a], s);
            |ListArea(g, v, a, 16 * s + i)| == |ListArea(g, v, a, 16 * s)| + ShownCount(sec, a != 0, i)
    decreases i
  {
    if i > 0 {
      ShownIsLive(g, v, w, a, s, i - 1);
      ShownIsListed(g, v, w, a, s, i - 1);
      hide SectorAt, Shown, Live, Inv;
    }
  }

  lemma {:induction false} ListAreaPrefix(g: Geo, v: View, a: int, k: nat, n: nat)
    requires g.Ok() && |v.cl| == g.max && (a == 0 || 2 <= a < g.max) && |v.cl[a]| == SIZE * g.Slots(a) && k <= n <= g.Slots(a)
    ensures ListArea(g, v, a, k) <= ListArea(g, v, a, n)
    decreases n
  {
    if k < n { ListAreaPrefix(g, v, a, k, n - 1); }
  }

  lemma {:induction false} ListDirPrefix(g: Geo, v: View, w: Witness, d: int, j: nat, n: nat)
    requires (d == 0 || 0 <= d < |w.chain|) && AreasOk(g, v, w, d) && j <= n <= AreaCount(w, d)
    ensures ListDir(g, v, w, d, j) <= ListDir(g, v, w, d, n)
    decreases n
  {
    if j < n { ListDirPrefix(g, v, w, d, j, n - 1); }
  }

  /** The live entry met after index others is the one the listing has at index. */
  lemma ListedAt(g: Geo, v: View, w: Witness, d: int, j: nat, k: nat, index: nat)
    requires Inv(g, v, w) && IsDirNo(g, w, d) && j < AreaCount(w, d) && AreasOk(g, v, w, d)
    requires k < g.Slots(AreaAt(w, d, j)) && Live(Ent(g, v, Slot(AreaAt(w, d, j), k)))
    requires index == |ListDir(g, v, w, d, j)| + |ListArea(g, v, AreaAt(w, d, j), k)|
    ensures index < |Listing(g, v, w, d)| && Listing(g, v, w, d)[index] == Slot(AreaAt(w, d, j), k)
  {
    var a := AreaAt(w, d, j);
    var p, q := ListDir(g, v, w, d, j), ListArea(g, v, a, k);
    ListAreaPrefix(g, v, a, k + 1, g.Slots(a));
    ListDirPrefix(g, v, w, d, j + 1, AreaCount(w, d));
    var l := ListArea(g, v, a, g.Slots(a));
    assert l[|q|] == Slot(a, k);
    assert ListDir(g, v, w, d, j + 1) == p + l;
    assert (p + l)[index] == l[|q|];
  }

  lemma NothingYet(g: Geo, v: View, a: int)
    requires g.Ok() && |v.cl| == g.max && (a == 0 || 2 <= a < g.max) && |v.cl[a]| == SIZE * g.Slots(a)
    ensures ListArea(g, v, a, 0) == []
  {
  }

  lemma MoreListed(g: Geo, v: View, w: Witness, d: int, j: nat)
    requires Inv(g, v, w) && IsDirNo(g, w, d) && j < AreaCount(w, d) && AreasOk(g, v, w, d)
    ensures |ListDir(g, v, w, d, j + 1)| == |ListDir(g, v, w, d, j)| + |ListArea(g, v, AreaAt(w, d, j), g.Slots(AreaAt(w, d, j)))|
  {
    AreaAtOk(g, v, w, d, j);
  }

  /** info describes entry number index of the listing. */
  ghost predicate Reported(g: Geo, v: View, w: Witness, d: int, index: nat, info: Info)
    requires Inv(g, v, w) && IsDirNo(g, w, d)
  {
    && index < |Listing(g, v, w, d)| && LiveAt(g, v, w, NONE, Listing(g, v, w, d)[index])
    && info == InfoOf(Ent(g, v, Listing(g, v, w, d)[index]))
  }

  /** The scan of sector s met the entry with the given index. */
  lemma FoundHere(g: Geo, v: View, w: Witness, d: int, j: nat, s: nat, i: nat, index: nat)
    requires Inv(g, v, w) && IsDirNo(g, w, d) && j < AreaCount(w, d) && AreasOk(g, v, w, d)
    requires SECTOR * (s + 1) <= |v.cl[AreaAt(w, d, j)]| && i < 16
    requires var sec := SectorAt(v.cl[AreaAt(w, d, j)], s);
             Shown(EntryAt(sec, i), d != 0) && index == |ListDir(g, v, w, d, j)| + |ListArea(g, v, AreaAt(w, d, j), 16 * s)| + ShownCount(sec, d != 0, i)
    ensures Reported(g, v, w, d, index, InfoOf(EntryAt(SectorAt(v.cl[AreaAt(w, d, j)], s), i)))
  {
    hide ListArea, ListDir, ShownCount, SectorAt;
    AreaAtOk(g, v, w, d, j);
    ShownIsListed(g, v, w, AreaAt(w, d, j), s, i);
    ShownIsLive(g, v, w, AreaAt(w, d, j), s, i);
    ListedAt(g, v, w, d, j, 16 * s + i, index);
  }

  /** The scan of one area. */
  method ListOneArea(vol: Volume, d: nat, a: nat, index: nat, seen0: nat, ghost j: nat) returns (r: int, info: Info, seen: nat)
    requires vol.Valid() && IsDirNo(vol.l.G(), vol.w, d) && j < AreaCount(vol.w, d) && a == AreaAt(vol.w, d, j)
    requires (a == 0 || 2 <= a < vol.l.Clusters()) && AreasOk(vol.l.G(), vol.V(), vol.w, d)
    requires seen0 <= index && seen0 == |ListDir(vol.l.G(), vol.V(), vol.w, d, j)|
    ensures r == 0 || r == 1 || r == 2
    ensures r == 0 ==> Reported(vol.l.G(), vol.V(), vol.w, d, index, info)
    ensures r == 2 ==> seen <= index && seen == |ListDir(vol.l.G(), vol.V(), vol.w, d, j + 1)|
    ensures r == 1 ==> vol.dsk.faulty
  {
    hide ListArea, ListDir, Reported, ShownCount;
    ghost var g, v, w := vol.l.G(), vol.V(), vol.w;
    info, seen := Info([], 0, 0, 0), seen0;
    NothingYet(g, v, a);
    MoreListed(g, v, w, d, j);
    AreaAtOk(g, v, w, d, j);
    var s := 0;
    while s < vol.l.Len(a)
      invariant s <= vol.l.Len(a) && seen <= index && seen == seen0 + |ListArea(g, v, a, 16 * s)|
    {
      SectorSlice(vol.l, vol.dsk.data, a, s);
      var err, sec := vol.dsk.ReadLba(vol.l.Lba(a) + s, 1);
      if err {
        return 1, info, seen;
      }
      var found, i;
      found, i, seen := ListSector(sec, d != 0, index, seen);
      ShownIsListed(g, v, w, a, s, i);
      if found {
        FoundHere(g, v, w, d, j, s, i, index);
        var e := EntryAt(sec, i);
        var name := DecodeName(e[..NAME_LEN]);
        return 0, Info(name, FileSize(e), First(e), Attr(e)), seen;
      }
      s := s + 1;
    }
    r := 2;
  }

  lemma NoneListed(g: Geo, v: View, w: Witness, d: int)
    requires (d == 0 || 0 <= d < |w.chain|) && AreasOk(g, v, w, d)
    ensures ListDir(g, v, w, d, 0) == []
  {
  }

  /** fat_readdir: entry number index of the listing, or 2 when there is none. */
  method ReadDir(vol: Volume, d: nat, index: nat) returns (r: int, info: Info)
    requires vol.Valid() && IsDirNo(vol.l.G(), vol.w, d)
    ensures r == 0 || r == 1 || r == 2
    ensures r == 0 ==> Reported(vol.l.G(), vol.V(), vol.w, d, index, info)
    ensures r == 2 ==> |Listing(vol.l.G(), vol.V(), vol.w, d)| <= index
    ensures r == 1 ==> vol.dsk.faulty
  {
    hide Volume.V, Volume.Synced, Areas;
    ghost var g, v, w := vol.l.G(), vol.V(), vol.w;
    DirAreasOk(g, v, w, d);
    ScanStart(g, v, w, d, seq(NAME_LEN, _ => 0));
    NoneListed(g, v, w, d);
    hide ListDir, Reported;
    info := Info([], 0, 0, 0);
    var seen := 0;
    var cluster: int := d;
    ghost var j: nat := 0;
    while true
      invariant j < AreaCount(w, d) && cluster == AreaAt(w, d, j)
      invariant seen <= index && seen == |ListDir(g, v, w, d, j)|
      decreases AreaCount(w, d) - j
    {
      AreaAtOk(g, v, w, d, j);
      r, info, seen := ListOneArea(vol, d, cluster, index, seen, j);
      if r != 2 {
        return;
      }
      var next := vol.NextArea(d, cluster, j);
      if next < 2 || next >= EOC {
        return;
      }
      cluster := next;
      j := j + 1;
    }
  }

  // ----- fat_opendir -----

  method OnlySlashes(path: Bytes) returns (r: bool)
    ensures r <==> Comps(path, 0) == []
  {
    var i := 0;
    while i < |path| && path[i] == SLASH
      invariant i <= |path| && SkipSlashes(path, 0) == SkipSlashes(path, i)
    {
      i := i + 1;
    }
    r := i == |path|;
  }

  /** fat_opendir: the directory a path denotes. */
  method OpenDir(vol: Volume, path: Bytes) returns (r: int, d: nat)
    requires vol.Valid()
    modifies vol`w, vol.fat.buf, vol.dsk
    ensures vol.Valid() && vol.V() == old(vol.V()) && vol.w == old(vol.w)
    ensures r == 0 || r == 1 || r == 2 || r == 3
    ensures r == 0 ==> IsDirNo(vol.l.G(), vol.w, d)
    ensures r == 0 && d == 0 ==> Resolve(vol.l.G(), vol.V(), vol.w, path) == Root
    ensures (r == 0 && d != 0) || r == 3 ==> FileSlot(vol.l.G(), vol.V(), vol.w, path) != NONE
    ensures r == 0 && d != 0 ==> var e := Ent(vol.l.G(), vol.V(), FileSlot(vol.l.G(), vol.V(), vol.w, path)); IsDirectory(e) && First(e) == d
    ensures r == 2 ==> FileSlot(vol.l.G(), vol.V(), vol.w, path) == NONE
    ensures r == 3 ==> !IsDirectory(Ent(vol.l.G(), vol.V(), FileSlot(vol.l.G(), vol.V(), vol.w, path)))
    ensures r == 1 ==> vol.dsk.faulty || NoWay(vol.l.G(), old(vol.V()), old(vol.w), path)
  {
    d := 0;
    var slashes := OnlySlashes(path);
    if slashes {
      return 0, 0;
    }
    var parent, target, isRoot;
    r, parent, target, isRoot := ResolvePath(vol, path);
    if r != 0 {
      return 1, 0;
    }
    if isRoot {
      return 0, 0;
    }
    var slot, e;
    ghost var x;
    r, slot, e, x := Locate(vol, parent, target);
    if r != 0 {
      return;
    }
    if e[11] / 16 % 2 == 0 {
      return 3, 0;
    }
    SubDirectory(vol.l.G(), vol.V(), vol.w, x);
    d := First(e);
  }
}
