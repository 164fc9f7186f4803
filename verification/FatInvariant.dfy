/** The volume invariant of the FAT driver and the elementary changes that keep it.

A volume is seen as its allocation table and the contents of its areas: area 0 is the root
directory, area c the data of cluster c. A witness assigns every allocated cluster to one chain, and
every chain to the one directory entry that owns it; back pointers in both directions make chains
pairwise disjoint, and make them cover exactly the allocated clusters. */
module FatInvariant {
  import opened FatTable
  import opened Dirent

  /** A directory slot: entry k of area a. */
  datatype Slot = Slot(a: int, k: int)

  const NONE: Slot := Slot(-1, -1)

  /** Number of clusters, and entries per cluster and in the root directory. */
  datatype Geo = Geo(max: nat, perCluster: nat, rootSlots: nat) {
    predicate Ok() { 2 <= max <= 3072 && 16 <= perCluster }
    function ClusterSize(): nat { SIZE * perCluster }
    function Slots(a: int): nat { if a == 0 then rootSlots else perCluster }
  }

  datatype View = View(t: seq<int>, cl: seq<Bytes>)

  /** chain[h] is the chain headed by h; home[c] and pos[c] place cluster c in its chain (0: none);
      owner[h] is the slot whose entry starts chain h; isDir[h] marks directories, depth[h] their
      distance from the root; lost holds the clusters that are in use but belong to no entry. */
  datatype Witness = Witness(chain: seq<seq<int>>, home: seq<int>, pos: seq<int>, owner: seq<Slot>, isDir: seq<bool>, depth: seq<int>, lost: set<int>)

  ghost predicate Shape(g: Geo, v: View, w: Witness) {
    && g.Ok()
    && |v.t| == |v.cl| == g.max
    && |w.chain| == |w.home| == |w.pos| == |w.owner| == |w.isDir| == |w.depth| == g.max
    && (forall c :: 0 <= c < g.max ==> 0 <= v.t[c] < 4096)
    && (forall a :: (a == 0 || 2 <= a < g.max) ==> |v.cl[a]| == SIZE * g.Slots(a))
  }

  /** Area a belongs to a directory. */
  ghost predicate DirArea(g: Geo, w: Witness, a: int)
    requires |w.home| == |w.isDir| == g.max && g.Ok()
  {
    a == 0 || (2 <= a < g.max && 2 <= w.home[a] < g.max && w.isDir[w.home[a]])
  }

  /** The directory, named by its first cluster, that area a belongs to. */
  ghost function DirOf(w: Witness, a: int): int
    requires a == 0 || 0 <= a < |w.home|
  {
    if a == 0 then 0 else w.home[a]
  }

  ghost function AreaPos(w: Witness, a: int): int
    requires a == 0 || 0 <= a < |w.pos|
  {
    if a == 0 then 0 else w.pos[a]
  }

  ghost function Depth(w: Witness, d: int): int
    requires d == 0 || 0 <= d < |w.depth|
  {
    if d == 0 then 0 else w.depth[d]
  }

  ghost predicate IsSlot(g: Geo, w: Witness, s: Slot)
    requires |w.home| == |w.isDir| == g.max && g.Ok()
  {
    DirArea(g, w, s.a) && 0 <= s.k < g.Slots(s.a)
  }

  /** The entry stored in a slot of an existing area. */
  ghost function Ent(g: Geo, v: View, s: Slot): (e: Bytes)
    requires g.Ok() && |v.cl| == g.max && (s.a == 0 || 2 <= s.a < g.max) && 0 <= s.k < g.Slots(s.a)
    requires |v.cl[s.a]| == SIZE * g.Slots(s.a)
    ensures |e| == SIZE
  {
    EntryAt(v.cl[s.a], s.k)
  }

  /** Slot s of some directory holds a real entry and is not the exempt slot x. */
  ghost predicate LiveAt(g: Geo, v: View, w: Witness, x: Slot, s: Slot)
    requires Shape(g, v, w)
  {
    IsSlot(g, w, s) && s != x && Live(Ent(g, v, s))
  }

  /** Slots of one directory in the order a scan visits them. */
  ghost predicate Precedes(w: Witness, s1: Slot, s2: Slot)
    requires (s1.a == 0 || 0 <= s1.a < |w.pos|) && (s2.a == 0 || 0 <= s2.a < |w.pos|)
  {
    AreaPos(w, s1.a) < AreaPos(w, s2.a) || (s1.a == s2.a && s1.k < s2.k)
  }

  /** n clusters are exactly enough for size bytes. */
  predicate CeilIs(n: nat, size: int, cs: nat) {
    (n - 1) * cs < size <= n * cs
  }

  ghost predicate ClusterOk(g: Geo, v: View, w: Witness, pend: seq<int>, c: int)
    requires Shape(g, v, w) && 2 <= c < g.max
  {
    && (v.t[c] != FREE <==> w.home[c] != 0 || c in pend || c in w.lost)
    && (c in w.lost ==> w.home[c] == 0 && c !in pend && (v.t[c] < g.max || EOC <= v.t[c]))
    && (w.home[c] != 0 ==>
          && c !in pend
          && 2 <= w.home[c] < g.max
          && 0 <= w.pos[c] < |w.chain[w.home[c]]|
          && w.chain[w.home[c]][w.pos[c]] == c)
  }

  ghost predicate AtHome(w: Witness, h: int, i: int)
    requires 0 <= h < |w.chain| && 0 <= i < |w.chain[h]|
  {
    var c := w.chain[h][i];
    2 <= c < |w.home| && 2 <= c < |w.pos| && w.home[c] == h && w.pos[c] == i
  }

  ghost predicate HeadOk(g: Geo, v: View, w: Witness, x: Slot, h: int)
    requires Shape(g, v, w) && 2 <= h < g.max
  {
    if w.chain[h] == [] then !w.isDir[h]
    else
      && IsChain(v.t, w.chain[h]) && w.chain[h][0] == h
      && (forall i {:trigger AtHome(w, h, i)} :: 0 <= i < |w.chain[h]| ==> AtHome(w, h, i))
      && LiveAt(g, v, w, x, w.owner[h])
      && First(Ent(g, v, w.owner[h])) == h
      && (w.isDir[h] ==> w.depth[h] > 0)
  }

  ghost predicate SlotOk(g: Geo, v: View, w: Witness, x: Slot, s: Slot)
    requires Shape(g, v, w)
  {
    LiveAt(g, v, w, x, s) ==>
      var e := Ent(g, v, s);
      var f := First(e);
      if f == 0 then !IsDirectory(e) && FileSize(e) == 0
      else
        && 2 <= f < g.max && w.chain[f] != [] && w.owner[f] == s
        && w.isDir[f] == IsDirectory(e)
        && (if IsDirectory(e) then w.depth[f] == Depth(w, DirOf(w, s.a)) + 1 && FileSize(e) == 0
            else CeilIs(|w.chain[f]|, FileSize(e), g.ClusterSize()))
  }

  /** Two slots of one directory: live names differ, and nothing follows an end entry. */
  ghost predicate PairOk(g: Geo, v: View, w: Witness, x: Slot, s1: Slot, s2: Slot)
    requires Shape(g, v, w)
  {
    IsSlot(g, w, s1) && IsSlot(g, w, s2) && s1 != s2 && DirOf(w, s1.a) == DirOf(w, s2.a) ==>
      && (LiveAt(g, v, w, x, s1) && LiveAt(g, v, w, x, s2) ==> Name(Ent(g, v, s1)) != Name(Ent(g, v, s2)))
      && (Precedes(w, s1, s2) && IsEnd(Ent(g, v, s1)) ==> IsEnd(Ent(g, v, s2)))
  }

  /** The root directory has no "." or ".." entry. */
  ghost predicate RootOk(g: Geo, v: View)
    requires g.Ok() && |v.cl| == g.max && |v.cl[0]| == SIZE * g.rootSlots
  {
    forall k :: 0 <= k < g.rootSlots && Visible(EntryAt(v.cl[0], k)) ==> !IsDots(EntryAt(v.cl[0], k))
  }

  /** The invariant in the middle of an operation: slot x is exempt, and pend is a chain (or empty)
      that no entry owns yet. */
  ghost predicate GInv(g: Geo, v: View, w: Witness, x: Slot, pend: seq<int>) {
    && Shape(g, v, w)
    && (pend == [] || IsChain(v.t, pend))
    && RootOk(g, v)
    && (forall c :: c in w.lost ==> 2 <= c < g.max)
    && (forall c {:trigger ClusterOk(g, v, w, pend, c)} :: 2 <= c < g.max ==> ClusterOk(g, v, w, pend, c))
    && (forall h {:trigger HeadOk(g, v, w, x, h)} :: 2 <= h < g.max ==> HeadOk(g, v, w, x, h))
    && (forall s {:trigger SlotOk(g, v, w, x, s)} :: SlotOk(g, v, w, x, s))
    && (forall s1, s2 {:trigger PairOk(g, v, w, x, s1, s2)} :: PairOk(g, v, w, x, s1, s2))
  }

  /** The invariant between operations: every cluster in use belongs to one entry, or is lost. */
  ghost predicate Inv(g: Geo, v: View, w: Witness) {
    GInv(g, v, w, NONE, [])
  }

  lemma InvShape(g: Geo, v: View, w: Witness)
    requires Inv(g, v, w)
    ensures Shape(g, v, w)
  {
  }

  /** The volume is consistent: no cluster is lost. */
  ghost predicate VolumeOk(g: Geo, v: View) {
    exists w :: Inv(g, v, w) && w.lost == {}
  }

  // ----- facts -----

  lemma PendAway(g: Geo, v: View, w: Witness, x: Slot, pend: seq<int>, i: nat)
    requires GInv(g, v, w, x, pend) && i < |pend|
    ensures 2 <= pend[i] < g.max && w.home[pend[i]] == 0 && v.t[pend[i]] != FREE
    ensures !DirArea(g, w, pend[i])
  {
    assert Links(v.t, pend, i);
    assert ClusterOk(g, v, w, pend, pend[i]);
    assert pend[i] in pend;
  }

  lemma ChainMember(g: Geo, v: View, w: Witness, x: Slot, pend: seq<int>, h: int, i: nat)
    requires GInv(g, v, w, x, pend) && 2 <= h < g.max && i < |w.chain[h]|
    ensures var c := w.chain[h][i]; 2 <= c < g.max && w.home[c] == h && w.pos[c] == i && v.t[c] != FREE && c !in pend
    ensures Links(v.t, w.chain[h], i)
  {
    assert HeadOk(g, v, w, x, h);
    assert AtHome(w, h, i);
    assert Links(v.t, w.chain[h], i);
    assert ClusterOk(g, v, w, pend, w.chain[h][i]);
  }

  // ----- exempting a slot -----

  /** A slot whose entry owns no chain can be exempted. */
  lemma Exempt(g: Geo, v: View, w: Witness, x: Slot)
    requires Inv(g, v, w) && IsSlot(g, w, x) && (Live(Ent(g, v, x)) ==> First(Ent(g, v, x)) == 0)
    ensures GInv(g, v, w, x, [])
  {
    forall c | 2 <= c < g.max ensures ClusterOk(g, v, w, [], c) { assert ClusterOk(g, v, w, [], c); }
    forall h | 2 <= h < g.max ensures HeadOk(g, v, w, x, h) { assert HeadOk(g, v, w, NONE, h); }
    forall s ensures SlotOk(g, v, w, x, s) { assert SlotOk(g, v, w, NONE, s); }
    forall s1, s2 ensures PairOk(g, v, w, x, s1, s2) { assert PairOk(g, v, w, NONE, s1, s2); }
  }

  // ----- taking a subtree out -----

  /** The directory that holds the entry of chain h. */
  ghost function OwnerDir(w: Witness, h: int): int
    requires 0 <= h < |w.owner|
  {
    if 0 < w.owner[h].a < |w.home| then w.home[w.owner[h].a] else 0
  }

  /** From chain h, chain f is reached in at most n steps up the directory tree. */
  ghost predicate Under(w: Witness, f: int, h: int, n: nat)
    decreases n
  {
    h == f || (n > 0 && 2 <= h < |w.owner| && OwnerDir(w, h) != 0 && Under(w, f, OwnerDir(w, h), n - 1))
  }

  /** The chains of an entry and, if it is a directory, of everything below it; f is the entry's chain. */
  ghost function Tree(g: Geo, w: Witness, f: int): set<int>
    requires |w.chain| == g.max
  {
    if f == 0 then {} else set h: int | 2 <= h < g.max && w.chain[h] != [] && exists n: nat :: Under(w, f, h, n)
  }

  /** The clusters below directory f, without those of its own chain. */
  ghost function Strays(g: Geo, w: Witness, f: int): set<int>
    requires |w.chain| == |w.home| == g.max
  {
    set c: int | 2 <= c < g.max && w.home[c] in Tree(g, w, f) && w.home[c] != f
  }

  lemma TreeStep(g: Geo, v: View, w: Witness, x: Slot, pend: seq<int>, f: int, h: int)
    requires GInv(g, v, w, x, pend) && f != 0 && 2 <= h < g.max && w.chain[h] != []
    ensures w.owner[h].a == 0 || 2 <= w.owner[h].a < g.max
    ensures var p := OwnerDir(w, h);
            && p == DirOf(w, w.owner[h].a) && (p != 0 ==> 2 <= p < g.max && w.isDir[p] && w.chain[p] != [])
            && (h in Tree(g, w, f) <==> h == f || p in Tree(g, w, f))
  {
    assert HeadOk(g, v, w, x, h);
    var p := OwnerDir(w, h);
    if p != 0 { assert HeadOk(g, v, w, x, p); }
    if n: nat :| Under(w, f, h, n) {
      assert h == f || Under(w, f, p, n - 1);
    }
    if n: nat :| Under(w, f, p, n) {
      assert p == 0 || Under(w, f, h, n + 1);
    }
    assert h == f ==> Under(w, f, h, 0);
  }

  /** A directory in the subtree of f is f or lies deeper. */
  lemma {:induction false} UnderDepth(g: Geo, v: View, w: Witness, x: Slot, pend: seq<int>, f: int, d: int, n: nat)
    requires GInv(g, v, w, x, pend) && 2 <= d < g.max && w.isDir[d] && Under(w, f, d, n) && 2 <= f < g.max
    ensures w.isDir[f] && w.depth[f] <= w.depth[d]
    decreases n
  {
    assert HeadOk(g, v, w, x, d);
    if d != f {
      TreeStep(g, v, w, x, pend, f, d);
      assert SlotOk(g, v, w, x, w.owner[d]);
      UnderDepth(g, v, w, x, pend, f, OwnerDir(w, d), n - 1);
    }
  }

  /** So the directory that holds the entry of chain f is not in it. */
  lemma ParentOutside(g: Geo, v: View, w: Witness, x: Slot, pend: seq<int>, f: int)
    requires GInv(g, v, w, x, pend) && 2 <= f < g.max && w.chain[f] != []
    ensures w.owner[f].a == 0 || 2 <= w.owner[f].a < g.max
    ensures OwnerDir(w, f) !in Tree(g, w, f) && OwnerDir(w, f) == DirOf(w, w.owner[f].a)
  {
    TreeStep(g, v, w, x, pend, f, f);
    var p := OwnerDir(w, f);
    assert HeadOk(g, v, w, x, f);
    assert SlotOk(g, v, w, x, w.owner[f]);
    if p in Tree(g, w, f) {
      var n: nat :| Under(w, f, p, n);
      UnderDepth(g, v, w, x, pend, f, p, n);
    }
  }

  /** No entry of directory d has clusters. */
  ghost predicate Barren(g: Geo, v: View, w: Witness, d: int)
    requires Shape(g, v, w)
  {
    forall s :: LiveAt(g, v, w, NONE, s) && DirOf(w, s.a) == d ==> First(Ent(g, v, s)) == 0
  }

  /** A file, or a directory none of whose entries has clusters, is all of its subtree. */
  lemma BarrenTree(g: Geo, v: View, w: Witness, f: int)
    requires Inv(g, v, w) && 2 <= f < g.max && w.chain[f] != [] && (w.isDir[f] ==> Barren(g, v, w, f))
    ensures Tree(g, w, f) == {f} && Strays(g, w, f) == {}
  {
    assert Under(w, f, f, 0);
    forall h | h in Tree(g, w, f) ensures h == f {
      var n: nat :| Under(w, f, h, n);
      BarrenUnder(g, v, w, f, h, n);
    }
  }

  lemma {:induction false} BarrenUnder(g: Geo, v: View, w: Witness, f: int, h: int, n: nat)
    requires Inv(g, v, w) && 2 <= f < g.max && (w.isDir[f] ==> Barren(g, v, w, f))
    requires 2 <= h < g.max && w.chain[h] != [] && Under(w, f, h, n)
    ensures h == f
    decreases n
  {
    if h != f {
      TreeStep(g, v, w, NONE, [], f, h);
      assert HeadOk(g, v, w, NONE, h);
      BarrenUnder(g, v, w, f, OwnerDir(w, h), n - 1);
    }
  }

  /** Nothing strays from below an entry exactly when it is a file or a directory none of whose entries
      has clusters. */
  lemma StraysIff(g: Geo, v: View, w: Witness, x: Slot)
    requires Inv(g, v, w) && LiveAt(g, v, w, NONE, x)
    ensures var f := First(Ent(g, v, x)); Strays(g, w, f) == {} <==> (IsDirectory(Ent(g, v, x)) ==> Barren(g, v, w, f))
  {
    hide Under;
    var f := First(Ent(g, v, x));
    assert SlotOk(g, v, w, NONE, x);
    if f != 0 {
      if !w.isDir[f] || Barren(g, v, w, f) {
        BarrenTree(g, v, w, f);
      } else {
        var s :| LiveAt(g, v, w, NONE, s) && DirOf(w, s.a) == f && First(Ent(g, v, s)) != 0;
        var h := First(Ent(g, v, s));
        assert SlotOk(g, v, w, NONE, s);
        TreeStep(g, v, w, NONE, [], f, f);
        TreeStep(g, v, w, NONE, [], f, h);
        ParentOutside(g, v, w, NONE, [], f);
        assert HeadOk(g, v, w, NONE, h);
        ChainMember(g, v, w, NONE, [], h, 0);
        assert h in Strays(g, w, f);
      }
    }
  }

  /** The witness without the subtree of f; what lies below f is lost. */
  ghost function DetachW(g: Geo, w: Witness, f: int): Witness
    requires |w.chain| == |w.home| == |w.isDir| == g.max
  {
    var gone := Tree(g, w, f);
    w.(chain := seq(g.max, h requires 0 <= h < g.max => if h in gone then [] else w.chain[h]),
       home := seq(g.max, c requires 0 <= c < g.max => if w.home[c] in gone then 0 else w.home[c]),
       isDir := seq(g.max, h requires 0 <= h < g.max => h !in gone && w.isDir[h]),
       lost := w.lost + Strays(g, w, f))
  }

  lemma StraysInRange(g: Geo, w: Witness, f: int)
    requires |w.chain| == |w.home| == g.max
    ensures forall c :: c in Strays(g, w, f) ==> 2 <= c < g.max
  {
  }

  lemma DetachSlots(g: Geo, v: View, w: Witness, f: int, s: Slot)
    requires Shape(g, v, w)
    ensures IsSlot(g, DetachW(g, w, f), s) <==> IsSlot(g, w, s) && DirOf(w, s.a) !in Tree(g, w, f)
    ensures IsSlot(g, DetachW(g, w, f), s) ==> DirOf(DetachW(g, w, f), s.a) == DirOf(w, s.a)
  {
  }

  /** Taking the entry in slot x, with everything below it, out of the directory tree. */
  lemma Detach(g: Geo, v: View, w: Witness, x: Slot)
    requires Inv(g, v, w) && LiveAt(g, v, w, NONE, x) && First(Ent(g, v, x)) != 0
    ensures var f := First(Ent(g, v, x));
            && 2 <= f < g.max && w.chain[f] != [] && w.owner[f] == x && DirOf(w, x.a) !in Tree(g, w, f)
            && GInv(g, v, DetachW(g, w, f), x, w.chain[f])
            && IsSlot(g, DetachW(g, w, f), x)
  {
    hide Tree, Strays, Under;
    var f := First(Ent(g, v, x));
    assert SlotOk(g, v, w, NONE, x);
    assert HeadOk(g, v, w, NONE, f);
    var w' := DetachW(g, w, f);
    var p := w.chain[f];
    ParentOutside(g, v, w, NONE, [], f);
    TreeStep(g, v, w, NONE, [], f, f);
    DetachSlots(g, v, w, f, x);
    StraysInRange(g, w, f);
    forall c | 2 <= c < g.max ensures ClusterOk(g, v, w', p, c) { DetachCluster(g, v, w, f, c); }
    forall h | 2 <= h < g.max ensures HeadOk(g, v, w', x, h) { DetachHead(g, v, w, x, h); }
    forall s ensures SlotOk(g, v, w', x, s) { DetachSlot(g, v, w, x, s); }
    forall s1, s2 ensures PairOk(g, v, w', x, s1, s2) {
      assert PairOk(g, v, w, NONE, s1, s2);
      DetachSlots(g, v, w, f, s1);
      DetachSlots(g, v, w, f, s2);
    }
  }

  lemma DetachCluster(g: Geo, v: View, w: Witness, f: int, c: int)
    requires Inv(g, v, w) && 2 <= f < g.max && w.chain[f] != [] && 2 <= c < g.max
    ensures ClusterOk(g, v, DetachW(g, w, f), w.chain[f], c)
  {
    hide Under;
    TreeStep(g, v, w, NONE, [], f, f);
    assert ClusterOk(g, v, w, [], c);
    if c in w.chain[f] {
      var i :| 0 <= i < |w.chain[f]| && w.chain[f][i] == c;
      ChainMember(g, v, w, NONE, [], f, i);
    } else if w.home[c] != 0 {
      LinkInRange(g, v, w, NONE, [], c);
    }
  }

  /** The entry of a cluster of a chain links to a cluster, or ends the chain. */
  lemma LinkInRange(g: Geo, v: View, w: Witness, x: Slot, pend: seq<int>, c: int)
    requires GInv(g, v, w, x, pend) && 2 <= c < g.max && w.home[c] != 0
    ensures v.t[c] < g.max || EOC <= v.t[c]
  {
    assert ClusterOk(g, v, w, pend, c);
    ChainMember(g, v, w, x, pend, w.home[c], w.pos[c]);
    var ch := w.chain[w.home[c]];
    if w.pos[c] + 1 < |ch| { ChainMember(g, v, w, x, pend, w.home[c], w.pos[c] + 1); }
  }

  lemma DetachHead(g: Geo, v: View, w: Witness, x: Slot, h: int)
    requires Inv(g, v, w) && LiveAt(g, v, w, NONE, x) && 2 <= h < g.max
    requires var f := First(Ent(g, v, x)); 2 <= f < g.max && w.chain[f] != []
    ensures HeadOk(g, v, DetachW(g, w, First(Ent(g, v, x))), x, h)
  {
    hide Tree, Strays, Under;
    var f := First(Ent(g, v, x));
    var w' := DetachW(g, w, f);
    assert HeadOk(g, v, w, NONE, h);
    if w.chain[h] != [] {
      TreeStep(g, v, w, NONE, [], f, h);
      if w'.chain[h] != [] {
        DetachSlots(g, v, w, f, w.owner[h]);
        forall i | 0 <= i < |w'.chain[h]| ensures AtHome(w', h, i) { assert AtHome(w, h, i); }
      }
    }
  }

  lemma DetachSlot(g: Geo, v: View, w: Witness, x: Slot, s: Slot)
    requires Inv(g, v, w) && LiveAt(g, v, w, NONE, x) && First(Ent(g, v, x)) != 0
    ensures SlotOk(g, v, DetachW(g, w, First(Ent(g, v, x))), x, s)
  {
    hide Tree, Strays, Under;
    var f := First(Ent(g, v, x));
    assert SlotOk(g, v, w, NONE, x);
    assert SlotOk(g, v, w, NONE, s);
    DetachSlots(g, v, w, f, s);
    if LiveAt(g, v, w, x, s) && First(Ent(g, v, s)) != 0 { TreeStep(g, v, w, NONE, [], f, First(Ent(g, v, s))); }
  }

  // ----- changes to the pending chain -----

  /** Outside the pending chain nothing of the view may change: owned clusters keep their entries,
      directory areas their contents. */
  ghost predicate OwnedSame(g: Geo, v: View, v': View, w: Witness)
    requires Shape(g, v, w) && Shape(g, v', w)
  {
    && (forall c :: 2 <= c < g.max && (w.home[c] != 0 || c in w.lost) ==> v'.t[c] == v.t[c])
    && (forall a :: DirArea(g, w, a) ==> v'.cl[a] == v.cl[a])
  }

  lemma OwnedKept(g: Geo, v: View, v': View, w: Witness, x: Slot, pend: seq<int>)
    requires GInv(g, v, w, x, pend) && Shape(g, v', w) && OwnedSame(g, v, v', w)
    ensures RootOk(g, v')
    ensures forall h {:trigger HeadOk(g, v', w, x, h)} :: 2 <= h < g.max ==> HeadOk(g, v', w, x, h)
    ensures forall s {:trigger SlotOk(g, v', w, x, s)} :: SlotOk(g, v', w, x, s)
    ensures forall s1, s2 {:trigger PairOk(g, v', w, x, s1, s2)} :: PairOk(g, v', w, x, s1, s2)
  {
    assert DirArea(g, w, 0);
    forall h | 2 <= h < g.max ensures HeadOk(g, v', w, x, h) {
      assert HeadOk(g, v, w, x, h);
      if w.chain[h] != [] {
        forall i | 0 <= i < |w.chain[h]| ensures 0 <= w.chain[h][i] < g.max && v'.t[w.chain[h][i]] == v.t[w.chain[h][i]] { ChainMember(g, v, w, x, pend, h, i); }
        ChainFrame(v.t, v'.t, w.chain[h]);
      }
    }
    forall s ensures SlotOk(g, v', w, x, s) { assert SlotOk(g, v, w, x, s); }
    forall s1, s2 ensures PairOk(g, v', w, x, s1, s2) { assert PairOk(g, v, w, x, s1, s2); }
  }

  ghost function FreedT(t: seq<int>, pend: seq<int>): (r: seq<int>)
    ensures |r| == |t| && forall c :: 0 <= c < |t| ==> r[c] == if c in pend then FREE else t[c]
  {
    seq(|t|, c requires 0 <= c < |t| => if c in pend then FREE else t[c])
  }

  /** Freeing the pending chain. */
  lemma FreePend(g: Geo, v: View, w: Witness, x: Slot, pend: seq<int>)
    requires GInv(g, v, w, x, pend)
    ensures GInv(g, v.(t := FreedT(v.t, pend)), w, x, [])
  {
    var v' := v.(t := FreedT(v.t, pend));
    forall c | 2 <= c < g.max && (w.home[c] != 0 || c in w.lost) ensures v'.t[c] == v.t[c] { assert ClusterOk(g, v, w, pend, c); }
    OwnedKept(g, v, v', w, x, pend);
    forall c | 2 <= c < g.max ensures ClusterOk(g, v', w, [], c) { assert ClusterOk(g, v, w, pend, c); }
  }

  /** Allocating a free cluster and linking it to the end of the pending chain. */
  lemma ExtendPend(g: Geo, v: View, w: Witness, x: Slot, pend: seq<int>, c: int)
    requires GInv(g, v, w, x, pend) && 2 <= c < g.max && v.t[c] == FREE
    ensures |pend| > 0 ==> 0 <= pend[|pend| - 1] < |v.t|
    ensures GInv(g, v.(t := Extended(v.t, pend, c)), w, x, pend + [c])
  {
    assert ClusterOk(g, v, w, pend, c);
    if pend != [] { PendAway(g, v, w, x, pend, |pend| - 1); }
    ExtendChain(v.t, pend, c);
    var v' := v.(t := Extended(v.t, pend, c));
    forall d | 2 <= d < g.max && (w.home[d] != 0 || d in w.lost) ensures v'.t[d] == v.t[d] { assert ClusterOk(g, v, w, pend, d); }
    OwnedKept(g, v, v', w, x, pend);
    forall d | 2 <= d < g.max ensures ClusterOk(g, v', w, pend + [c], d) { assert ClusterOk(g, v, w, pend, d); }
  }

  /** Rewriting the data of a pending cluster. */
  lemma WritePend(g: Geo, v: View, w: Witness, x: Slot, pend: seq<int>, c: int, b: Bytes)
    requires GInv(g, v, w, x, pend) && c in pend && |b| == g.ClusterSize()
    ensures 2 <= c < g.max && GInv(g, v.(cl := v.cl[c := b]), w, x, pend)
  {
    var i :| 0 <= i < |pend| && pend[i] == c;
    PendAway(g, v, w, x, pend, i);
    var v' := v.(cl := v.cl[c := b]);
    OwnedKept(g, v, v', w, x, pend);
    forall d | 2 <= d < g.max ensures ClusterOk(g, v', w, pend, d) { assert ClusterOk(g, v, w, pend, d); }
  }

  // ----- writing the exempt slot -----

  /** The view with entry e stored in slot x. */
  function Store(g: Geo, v: View, x: Slot, e: Bytes): View
    requires g.Ok() && |v.cl| == g.max && (x.a == 0 || 2 <= x.a < g.max) && 0 <= x.k < g.Slots(x.a)
    requires |v.cl[x.a]| == SIZE * g.Slots(x.a) && |e| == SIZE
  {
    v.(cl := v.cl[x.a := WithEntry(v.cl[x.a], x.k, e)])
  }

  lemma StoreEnt(g: Geo, v: View, w: Witness, x: Slot, e: Bytes, s: Slot)
    requires Shape(g, v, w) && IsSlot(g, w, x) && |e| == SIZE
    requires (s.a == 0 || 2 <= s.a < g.max) && 0 <= s.k < g.Slots(s.a)
    ensures Shape(g, Store(g, v, x, e), w)
    ensures Ent(g, Store(g, v, x, e), s) == if s == x then e else Ent(g, v, s)
  {
    if s == x {
      WithEntrySame(v.cl[x.a], x.k, e);
    } else if s.a == x.a {
      WithEntryOther(v.cl[x.a], x.k, e, s.k);
    }
  }

  /** No live entry beside x in its directory bears the name. */
  ghost predicate NameFree(g: Geo, v: View, w: Witness, x: Slot, name: Bytes)
    requires Shape(g, v, w) && IsSlot(g, w, x)
  {
    forall s :: LiveAt(g, v, w, x, s) && DirOf(w, s.a) == DirOf(w, x.a) ==> Name(Ent(g, v, s)) != name
  }

  /** No end entry stands before x in its directory. */
  ghost predicate FrontFull(g: Geo, v: View, w: Witness, x: Slot)
    requires Shape(g, v, w) && IsSlot(g, w, x)
  {
    forall s :: IsSlot(g, w, s) && DirOf(w, s.a) == DirOf(w, x.a) && Precedes(w, s, x) ==> !IsEnd(Ent(g, v, s))
  }

  lemma UsedFrontFull(g: Geo, v: View, w: Witness, x: Slot, y: Slot, pend: seq<int>)
    requires GInv(g, v, w, y, pend) && IsSlot(g, w, x) && !IsEnd(Ent(g, v, x))
    ensures FrontFull(g, v, w, x)
  {
    forall s | IsSlot(g, w, s) && DirOf(w, s.a) == DirOf(w, x.a) && Precedes(w, s, x) ensures !IsEnd(Ent(g, v, s)) {
      assert PairOk(g, v, w, y, s, x);
    }
  }

  /** The witness after the pending chain has been lost. */
  ghost function LoseW(w: Witness, pend: seq<int>): (w': Witness)
    ensures pend == [] ==> w' == w
  {
    var l := set c | c in pend;
    assert pend == [] ==> w.lost + l == w.lost;
    w.(lost := w.lost + l)
  }

  /** The exempt slot receives a dead but not final entry: the pending chain, if there is one, is lost. */
  lemma Kill(g: Geo, v: View, w: Witness, x: Slot, pend: seq<int>, e: Bytes)
    requires GInv(g, v, w, x, pend) && IsSlot(g, w, x) && |e| == SIZE && !Live(e) && IsFree(e) && !IsEnd(e)
    requires FrontFull(g, v, w, x)
    ensures Inv(g, Store(g, v, x, e), LoseW(w, pend))
  {
    hide Live, First, FileSize, Name;
    var v', w' := Store(g, v, x, e), LoseW(w, pend);
    StoreEnt(g, v, w, x, e, x);
    KillRoot(g, v, w, x, pend, e);
    forall c | c in pend ensures 2 <= c < g.max && (v.t[c] < g.max || EOC <= v.t[c]) { PendLink(g, v, w, x, pend, c); }
    forall c | 2 <= c < g.max ensures ClusterOk(g, v', w', [], c) { assert ClusterOk(g, v, w, pend, c); }
    forall h | 2 <= h < g.max ensures HeadOk(g, v', w', NONE, h) { KillHead(g, v, w, x, pend, e, h); }
    forall s ensures SlotOk(g, v', w', NONE, s) {
      assert SlotOk(g, v, w, x, s);
      if IsSlot(g, w, s) { StoreEnt(g, v, w, x, e, s); }
    }
    forall s1, s2 ensures PairOk(g, v', w', NONE, s1, s2) {
      assert PairOk(g, v, w, x, s1, s2);
      if IsSlot(g, w, s1) { StoreEnt(g, v, w, x, e, s1); }
      if IsSlot(g, w, s2) { StoreEnt(g, v, w, x, e, s2); }
    }
  }

  lemma KillRoot(g: Geo, v: View, w: Witness, x: Slot, pend: seq<int>, e: Bytes)
    requires GInv(g, v, w, x, pend) && IsSlot(g, w, x) && |e| == SIZE && IsFree(e)
    ensures Shape(g, Store(g, v, x, e), w) && RootOk(g, Store(g, v, x, e))
  {
    var v' := Store(g, v, x, e);
    StoreEnt(g, v, w, x, e, x);
    forall k | 0 <= k < g.rootSlots && Visible(EntryAt(v'.cl[0], k)) ensures !IsDots(EntryAt(v'.cl[0], k)) {
      StoreEnt(g, v, w, x, e, Slot(0, k));
      assert EntryAt(v'.cl[0], k) == Ent(g, v', Slot(0, k));
      assert EntryAt(v.cl[0], k) == Ent(g, v, Slot(0, k));
    }
  }

  lemma PendLink(g: Geo, v: View, w: Witness, x: Slot, pend: seq<int>, c: int)
    requires GInv(g, v, w, x, pend) && c in pend
    ensures 2 <= c < g.max && (v.t[c] < g.max || EOC <= v.t[c])
  {
    var i :| 0 <= i < |pend| && pend[i] == c;
    PendAway(g, v, w, x, pend, i);
    assert Links(v.t, pend, i);
    if i + 1 < |pend| { PendAway(g, v, w, x, pend, i + 1); }
  }

  lemma KillHead(g: Geo, v: View, w: Witness, x: Slot, pend: seq<int>, e: Bytes, h: int)
    requires GInv(g, v, w, x, pend) && IsSlot(g, w, x) && |e| == SIZE && 2 <= h < g.max
    ensures Shape(g, Store(g, v, x, e), LoseW(w, pend)) && HeadOk(g, Store(g, v, x, e), LoseW(w, pend), NONE, h)
  {
    var v', w' := Store(g, v, x, e), LoseW(w, pend);
    StoreEnt(g, v, w, x, e, x);
    assert HeadOk(g, v, w, x, h);
    if w.chain[h] != [] {
      StoreEnt(g, v, w, x, e, w.owner[h]);
      forall i | 0 <= i < |w.chain[h]| ensures AtHome(w', h, i) { assert AtHome(w, h, i); }
    }
  }

  // ----- attaching the pending chain -----

  function Find(s: seq<int>, c: int): (r: nat)
    ensures r <= |s| && (r < |s| ==> s[r] == c) && (c in s ==> r < |s|)
    ensures forall i :: 0 <= i < r ==> s[i] != c
  {
    if s == [] || s[0] == c then 0 else 1 + Find(s[1..], c)
  }

  /** The witness after slot x has become the owner of pend. */
  ghost function AttachW(g: Geo, w: Witness, pend: seq<int>, x: Slot, dir: bool, dep: int): Witness
    requires |w.chain| == |w.home| == |w.pos| == |w.owner| == |w.isDir| == |w.depth| == g.max
    requires |pend| > 0 ==> 0 <= pend[0] < g.max
  {
    if pend == [] then w else
      var f := pend[0];
      w.(chain := w.chain[f := pend],
         home := seq(g.max, c requires 0 <= c < g.max => if c in pend then f else w.home[c]),
         pos := seq(g.max, c requires 0 <= c < g.max => if c in pend then Find(pend, c) else w.pos[c]),
         owner := w.owner[f := x],
         isDir := w.isDir[f := dir],
         depth := w.depth[f := dep])
  }

  /** The data of a new directory cluster: no live entry, and nothing after an end entry. */
  ghost predicate FreshDir(g: Geo, b: Bytes) {
    && |b| == SIZE * g.perCluster
    && (forall k :: 0 <= k < g.perCluster ==> !Live(EntryAt(b, k)))
    && (forall k, l :: 0 <= k < l < g.perCluster && IsEnd(EntryAt(b, k)) ==> IsEnd(EntryAt(b, l)))
  }

  /** What entry e must satisfy to become the owner of pend in slot x. */
  ghost predicate CanAttach(g: Geo, v: View, w: Witness, x: Slot, pend: seq<int>, e: Bytes) {
    && GInv(g, v, w, x, pend) && IsSlot(g, w, x) && |e| == SIZE && Live(e)
    && First(e) == (if pend == [] then 0 else pend[0])
    && NameFree(g, v, w, x, Name(e)) && FrontFull(g, v, w, x)
    && (if IsDirectory(e) then |pend| == 1 && 2 <= pend[0] < g.max && FreshDir(g, v.cl[pend[0]]) && FileSize(e) == 0
        else if pend == [] then FileSize(e) == 0
        else CeilIs(|pend|, FileSize(e), g.ClusterSize()))
  }

  lemma PendHead(g: Geo, v: View, w: Witness, x: Slot, pend: seq<int>)
    requires GInv(g, v, w, x, pend) && pend != []
    ensures 2 <= pend[0] < g.max && w.chain[pend[0]] == [] && !w.isDir[pend[0]]
  {
    PendAway(g, v, w, x, pend, 0);
    var f := pend[0];
    assert HeadOk(g, v, w, x, f);
    assert w.chain[f] != [] ==> AtHome(w, f, 0);
  }

  lemma PendPos(g: Geo, v: View, w: Witness, x: Slot, pend: seq<int>, i: nat)
    requires GInv(g, v, w, x, pend) && i < |pend|
    ensures Find(pend, pend[i]) == i
  {
    var r := Find(pend, pend[i]);
    if r < i { ChainDistinct(v.t, pend, r, i); }
  }

  lemma AttachHome(g: Geo, v: View, w: Witness, x: Slot, pend: seq<int>, dir: bool, dep: int, a: int)
    requires GInv(g, v, w, x, pend) && pend != [] && (a == 0 || 2 <= a < g.max)
    ensures 2 <= pend[0] < g.max
    ensures var w' := AttachW(g, w, pend, x, dir, dep);
            if a != 0 && a in pend then w'.home[a] == pend[0] && w.home[a] == 0 && (dir <==> DirArea(g, w', a))
            else (DirArea(g, w', a) <==> DirArea(g, w, a)) && DirOf(w', a) == DirOf(w, a) && AreaPos(w', a) == AreaPos(w, a)
                 && (DirArea(g, w, a) ==> DirOf(w, a) != pend[0] && Depth(w', DirOf(w, a)) == Depth(w, DirOf(w, a)))
  {
    PendHead(g, v, w, x, pend);
    var f := pend[0];
    if a in pend {
      var i :| 0 <= i < |pend| && pend[i] == a;
      PendAway(g, v, w, x, pend, i);
    } else if a != 0 {
      assert ClusterOk(g, v, w, pend, a);
    }
  }

  /** Slot x becomes the owner of the pending chain: the invariant is restored. */
  lemma Attach(g: Geo, v: View, w: Witness, x: Slot, pend: seq<int>, e: Bytes)
    requires CanAttach(g, v, w, x, pend, e)
    ensures |pend| > 0 ==> 2 <= pend[0] < g.max
    ensures Inv(g, Store(g, v, x, e), AttachW(g, w, pend, x, IsDirectory(e), Depth(w, DirOf(w, x.a)) + 1))
  {
    if pend != [] { PendHead(g, v, w, x, pend); }
    var v' := Store(g, v, x, e);
    var w' := AttachW(g, w, pend, x, IsDirectory(e), Depth(w, DirOf(w, x.a)) + 1);
    StoreEnt(g, v, w, x, e, x);
    AttachRoot(g, v, w, x, pend, e);
    forall c | 2 <= c < g.max ensures ClusterOk(g, v', w', [], c) { AttachCluster(g, v, w, x, pend, e, c); }
    forall h | 2 <= h < g.max ensures HeadOk(g, v', w', NONE, h) { AttachHead(g, v, w, x, pend, e, h); }
    forall s ensures SlotOk(g, v', w', NONE, s) { AttachSlot(g, v, w, x, pend, e, s); }
    forall s1, s2 ensures PairOk(g, v', w', NONE, s1, s2) { AttachPair(g, v, w, x, pend, e, s1, s2); }
  }

  lemma AttachRoot(g: Geo, v: View, w: Witness, x: Slot, pend: seq<int>, e: Bytes)
    requires CanAttach(g, v, w, x, pend, e)
    ensures Shape(g, Store(g, v, x, e), w) && RootOk(g, Store(g, v, x, e))
  {
    var v' := Store(g, v, x, e);
    StoreEnt(g, v, w, x, e, x);
    forall k | 0 <= k < g.rootSlots && Visible(EntryAt(v'.cl[0], k)) ensures !IsDots(EntryAt(v'.cl[0], k)) {
      StoreEnt(g, v, w, x, e, Slot(0, k));
      assert EntryAt(v'.cl[0], k) == Ent(g, v', Slot(0, k));
      assert EntryAt(v.cl[0], k) == Ent(g, v, Slot(0, k));
    }
  }

  lemma AttachCluster(g: Geo, v: View, w: Witness, x: Slot, pend: seq<int>, e: Bytes, c: int)
    requires CanAttach(g, v, w, x, pend, e) && 2 <= c < g.max
    ensures |pend| > 0 ==> 0 <= pend[0] < g.max
    ensures var w' := AttachW(g, w, pend, x, IsDirectory(e), Depth(w, DirOf(w, x.a)) + 1);
            Shape(g, Store(g, v, x, e), w') && ClusterOk(g, Store(g, v, x, e), w', [], c)
  {
    StoreEnt(g, v, w, x, e, x);
    assert ClusterOk(g, v, w, pend, c);
    if pend != [] {
      PendHead(g, v, w, x, pend);
      if c in pend {
        var i :| 0 <= i < |pend| && pend[i] == c;
        PendPos(g, v, w, x, pend, i);
      }
    }
  }

  lemma AttachHead(g: Geo, v: View, w: Witness, x: Slot, pend: seq<int>, e: Bytes, h: int)
    requires CanAttach(g, v, w, x, pend, e) && 2 <= h < g.max
    ensures |pend| > 0 ==> 0 <= pend[0] < g.max
    ensures var w' := AttachW(g, w, pend, x, IsDirectory(e), Depth(w, DirOf(w, x.a)) + 1);
            Shape(g, Store(g, v, x, e), w') && HeadOk(g, Store(g, v, x, e), w', NONE, h)
  {
    StoreEnt(g, v, w, x, e, x);
    if pend != [] { PendHead(g, v, w, x, pend); }
    if pend != [] && h == pend[0] {
      AttachNewHead(g, v, w, x, pend, e);
    } else {
      AttachOldHead(g, v, w, x, pend, e, h);
    }
  }

  lemma AttachNewHead(g: Geo, v: View, w: Witness, x: Slot, pend: seq<int>, e: Bytes)
    requires CanAttach(g, v, w, x, pend, e) && pend != []
    ensures 2 <= pend[0] < g.max
    ensures var w' := AttachW(g, w, pend, x, IsDirectory(e), Depth(w, DirOf(w, x.a)) + 1);
            Shape(g, Store(g, v, x, e), w') && HeadOk(g, Store(g, v, x, e), w', NONE, pend[0])
  {
    var dir, dep := IsDirectory(e), Depth(w, DirOf(w, x.a)) + 1;
    StoreEnt(g, v, w, x, e, x);
    PendHead(g, v, w, x, pend);
    AttachHome(g, v, w, x, pend, dir, dep, x.a);
    var w' := AttachW(g, w, pend, x, dir, dep);
    if x.a != 0 { assert HeadOk(g, v, w, x, w.home[x.a]); }
    forall i | 0 <= i < |pend| ensures AtHome(w', pend[0], i) {
      PendPos(g, v, w, x, pend, i);
      PendAway(g, v, w, x, pend, i);
    }
  }

  lemma AttachOldHead(g: Geo, v: View, w: Witness, x: Slot, pend: seq<int>, e: Bytes, h: int)
    requires CanAttach(g, v, w, x, pend, e) && 2 <= h < g.max && (pend != [] ==> 2 <= pend[0] < g.max && h != pend[0])
    ensures var w' := AttachW(g, w, pend, x, IsDirectory(e), Depth(w, DirOf(w, x.a)) + 1);
            Shape(g, Store(g, v, x, e), w') && HeadOk(g, Store(g, v, x, e), w', NONE, h)
  {
    var dir, dep := IsDirectory(e), Depth(w, DirOf(w, x.a)) + 1;
    StoreEnt(g, v, w, x, e, x);
    assert HeadOk(g, v, w, x, h);
    var w' := AttachW(g, w, pend, x, dir, dep);
    if w.chain[h] != [] {
      var o := w.owner[h];
      StoreEnt(g, v, w, x, e, o);
      if pend != [] { AttachHome(g, v, w, x, pend, dir, dep, o.a); }
      forall i | 0 <= i < |w.chain[h]| ensures AtHome(w', h, i) {
        assert AtHome(w, h, i);
        ChainMember(g, v, w, x, pend, h, i);
      }
    }
  }

  lemma AttachSlot(g: Geo, v: View, w: Witness, x: Slot, pend: seq<int>, e: Bytes, s: Slot)
    requires CanAttach(g, v, w, x, pend, e)
    ensures |pend| > 0 ==> 0 <= pend[0] < g.max
    ensures var w' := AttachW(g, w, pend, x, IsDirectory(e), Depth(w, DirOf(w, x.a)) + 1);
            Shape(g, Store(g, v, x, e), w') && SlotOk(g, Store(g, v, x, e), w', NONE, s)
  {
    StoreEnt(g, v, w, x, e, x);
    if pend != [] { PendHead(g, v, w, x, pend); }
    if s == x {
      AttachOwner(g, v, w, x, pend, e);
    } else {
      AttachOther(g, v, w, x, pend, e, s);
    }
  }

  lemma AttachOwner(g: Geo, v: View, w: Witness, x: Slot, pend: seq<int>, e: Bytes)
    requires CanAttach(g, v, w, x, pend, e)
    ensures |pend| > 0 ==> 0 <= pend[0] < g.max
    ensures var w' := AttachW(g, w, pend, x, IsDirectory(e), Depth(w, DirOf(w, x.a)) + 1);
            Shape(g, Store(g, v, x, e), w') && SlotOk(g, Store(g, v, x, e), w', NONE, x)
  {
    var dir, dep := IsDirectory(e), Depth(w, DirOf(w, x.a)) + 1;
    StoreEnt(g, v, w, x, e, x);
    if pend != [] {
      PendHead(g, v, w, x, pend);
      AttachHome(g, v, w, x, pend, dir, dep, x.a);
    }
  }

  lemma AttachOther(g: Geo, v: View, w: Witness, x: Slot, pend: seq<int>, e: Bytes, s: Slot)
    requires CanAttach(g, v, w, x, pend, e) && s != x
    ensures |pend| > 0 ==> 0 <= pend[0] < g.max
    ensures var w' := AttachW(g, w, pend, x, IsDirectory(e), Depth(w, DirOf(w, x.a)) + 1);
            Shape(g, Store(g, v, x, e), w') && SlotOk(g, Store(g, v, x, e), w', NONE, s)
  {
    var dir, dep := IsDirectory(e), Depth(w, DirOf(w, x.a)) + 1;
    StoreEnt(g, v, w, x, e, x);
    assert SlotOk(g, v, w, x, s);
    if pend != [] { PendHead(g, v, w, x, pend); }
    if IsSlot(g, AttachW(g, w, pend, x, dir, dep), s) {
      AttachedSlot(g, v, w, x, pend, e, s);
      if pend != [] && IsSlot(g, w, s) { AttachHome(g, v, w, x, pend, dir, dep, s.a); }
    }
  }

  /** The slots of a directory just attached are those of its single fresh cluster. */
  lemma FreshSlot(g: Geo, v: View, w: Witness, x: Slot, pend: seq<int>, e: Bytes, s: Slot)
    requires CanAttach(g, v, w, x, pend, e) && IsDirectory(e) && s.a in pend && s.a != 0 && 0 <= s.k < g.perCluster
    ensures s.a == pend[0] && 2 <= s.a < g.max && s != x && x.a != s.a
    ensures Ent(g, v, s) == EntryAt(v.cl[pend[0]], s.k) && !Live(Ent(g, v, s))
  {
    PendAway(g, v, w, x, pend, 0);
  }

  /** A slot of the new state is an old one, in its old place, or one of the fresh directory. */
  lemma AttachedSlot(g: Geo, v: View, w: Witness, x: Slot, pend: seq<int>, e: Bytes, s: Slot)
    requires CanAttach(g, v, w, x, pend, e)
    requires |pend| > 0 ==> 0 <= pend[0] < g.max
    requires IsSlot(g, AttachW(g, w, pend, x, IsDirectory(e), Depth(w, DirOf(w, x.a)) + 1), s)
    ensures var w' := AttachW(g, w, pend, x, IsDirectory(e), Depth(w, DirOf(w, x.a)) + 1);
            && Shape(g, Store(g, v, x, e), w')
            && Ent(g, Store(g, v, x, e), s) == (if s == x then e else Ent(g, v, s))
            && (if IsSlot(g, w, s) then
                  DirOf(w', s.a) == DirOf(w, s.a) && AreaPos(w', s.a) == AreaPos(w, s.a) && (pend != [] ==> DirOf(w, s.a) != pend[0])
                else
                  pend != [] && s.a == pend[0] == DirOf(w', s.a) && s != x && !Live(Ent(g, v, s)) && FreshDir(g, v.cl[s.a]))
  {
    StoreEnt(g, v, w, x, e, s);
    if pend != [] {
      PendHead(g, v, w, x, pend);
      AttachHome(g, v, w, x, pend, IsDirectory(e), Depth(w, DirOf(w, x.a)) + 1, s.a);
      if s.a != 0 && s.a in pend { FreshSlot(g, v, w, x, pend, e, s); }
    }
  }

  lemma AttachPair(g: Geo, v: View, w: Witness, x: Slot, pend: seq<int>, e: Bytes, s1: Slot, s2: Slot)
    requires CanAttach(g, v, w, x, pend, e)
    ensures |pend| > 0 ==> 0 <= pend[0] < g.max
    ensures var w' := AttachW(g, w, pend, x, IsDirectory(e), Depth(w, DirOf(w, x.a)) + 1);
            Shape(g, Store(g, v, x, e), w') && PairOk(g, Store(g, v, x, e), w', NONE, s1, s2)
  {
    StoreEnt(g, v, w, x, e, x);
    if pend != [] { PendHead(g, v, w, x, pend); }
    var w' := AttachW(g, w, pend, x, IsDirectory(e), Depth(w, DirOf(w, x.a)) + 1);
    if IsSlot(g, w', s1) && IsSlot(g, w', s2) {
      assert PairOk(g, v, w, x, s1, s2);
      AttachedSlot(g, v, w, x, pend, e, s1);
      AttachedSlot(g, v, w, x, pend, e, s2);
    }
  }

  // ----- growing a directory -----

  ghost function GrowW(w: Witness, d: int, c: int): Witness
    requires 0 <= d < |w.chain| && 0 <= c < |w.home| && 0 <= c < |w.pos|
  {
    w.(chain := w.chain[d := w.chain[d] + [c]], home := w.home[c := d], pos := w.pos[c := |w.chain[d]|])
  }

  /** The view after the last cluster of directory d links to c. */
  ghost function GrowV(v: View, w: Witness, d: int, c: int): View
    requires 0 <= d < |w.chain| && |w.chain[d]| > 0 && 0 <= w.chain[d][|w.chain[d]| - 1] < |v.t|
  {
    v.(t := v.t[w.chain[d][|w.chain[d]| - 1] := c])
  }

  /** A zero-filled cluster becomes the last one of directory d. */
  lemma GrowDir(g: Geo, v: View, w: Witness, d: int, c: int)
    requires GInv(g, v, w, NONE, [c]) && 2 <= d < g.max && w.isDir[d]
    requires 2 <= c < g.max && forall k :: 0 <= k < g.perCluster ==> IsEnd(EntryAt(v.cl[c], k))
    ensures |w.chain[d]| > 0 && 2 <= w.chain[d][|w.chain[d]| - 1] < g.max
    ensures Inv(g, GrowV(v, w, d, c), GrowW(w, d, c))
  {
    assert HeadOk(g, v, w, NONE, d);
    ChainMember(g, v, w, NONE, [c], d, |w.chain[d]| - 1);
    PendAway(g, v, w, NONE, [c], 0);
    PendHead(g, v, w, NONE, [c]);
    var v' := GrowV(v, w, d, c);
    var w' := GrowW(w, d, c);
    forall b | 2 <= b < g.max ensures ClusterOk(g, v', w', [], b) { assert ClusterOk(g, v, w, [c], b); }
    forall h | 2 <= h < g.max ensures HeadOk(g, v', w', NONE, h) { GrowHead(g, v, w, d, c, h); }
    forall s ensures SlotOk(g, v', w', NONE, s) {
      assert SlotOk(g, v, w, NONE, s);
      if s.a == c && 0 <= s.k < g.perCluster { assert IsEnd(EntryAt(v.cl[c], s.k)); }
    }
    forall s1, s2 ensures PairOk(g, v', w', NONE, s1, s2) { GrowPair(g, v, w, d, c, s1, s2); }
  }

  lemma GrowHead(g: Geo, v: View, w: Witness, d: int, c: int, h: int)
    requires GInv(g, v, w, NONE, [c]) && 2 <= d < g.max && w.isDir[d] && 2 <= c < g.max && 2 <= h < g.max
    requires |w.chain[d]| > 0 && 2 <= w.chain[d][|w.chain[d]| - 1] < g.max
    ensures Shape(g, GrowV(v, w, d, c), GrowW(w, d, c)) && HeadOk(g, GrowV(v, w, d, c), GrowW(w, d, c), NONE, h)
  {
    var v' := GrowV(v, w, d, c);
    var w' := GrowW(w, d, c);
    PendAway(g, v, w, NONE, [c], 0);
    PendHead(g, v, w, NONE, [c]);
    assert HeadOk(g, v, w, NONE, h);
    var s := w.chain[h];
    var last := w.chain[d][|w.chain[d]| - 1];
    ChainMember(g, v, w, NONE, [c], d, |w.chain[d]| - 1);
    forall i | 0 <= i < |w'.chain[h]| ensures AtHome(w', h, i) {
      if i < |s| { assert AtHome(w, h, i); ChainMember(g, v, w, NONE, [c], h, i); }
    }
    if s != [] {
      forall i | 0 <= i < |w'.chain[h]| ensures Links(v'.t, w'.chain[h], i) {
        if i < |s| {
          ChainMember(g, v, w, NONE, [c], h, i);
        } else {
          assert Links(v.t, [c], 0);
        }
      }
    }
  }

  lemma GrowPair(g: Geo, v: View, w: Witness, d: int, c: int, s1: Slot, s2: Slot)
    requires GInv(g, v, w, NONE, [c]) && 2 <= d < g.max && w.isDir[d] && 2 <= c < g.max
    requires forall k :: 0 <= k < g.perCluster ==> IsEnd(EntryAt(v.cl[c], k))
    requires |w.chain[d]| > 0 && 2 <= w.chain[d][|w.chain[d]| - 1] < g.max
    ensures Shape(g, GrowV(v, w, d, c), GrowW(w, d, c)) && PairOk(g, GrowV(v, w, d, c), GrowW(w, d, c), NONE, s1, s2)
  {
    var v' := GrowV(v, w, d, c);
    var w' := GrowW(w, d, c);
    PendAway(g, v, w, NONE, [c], 0);
    PendHead(g, v, w, NONE, [c]);
    assert PairOk(g, v, w, NONE, s1, s2);
    if IsSlot(g, w', s1) && s1.a == c { assert IsEnd(EntryAt(v.cl[c], s1.k)); }
    if IsSlot(g, w', s2) && s2.a == c { assert IsEnd(EntryAt(v.cl[c], s2.k)); }
    if IsSlot(g, w', s1) && IsSlot(g, w', s2) && s1.a == c && s2.a != c && s2.a != 0 {
      assert ClusterOk(g, v, w, [c], s2.a);
    }
  }
}
