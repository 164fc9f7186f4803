/** The volume alone determines its directory tree and its chains. So a volume is consistent exactly when
nothing is lost, and whether an interrupted update has left a consistent one can be read off the entry and
the chain it was working on. */
module FatUnique {
  import opened FatTable
  import opened Dirent
  import opened FatInvariant
  import opened FatPath

  /** x is not the live entry of a directory. */
  ghost predicate PlainAt(g: Geo, v: View, w: Witness, x: Slot)
    requires Shape(g, v, w) && IsSlot(g, w, x)
  {
    Live(Ent(g, v, x)) ==> !IsDirectory(Ent(g, v, x))
  }

  lemma DirHead(g: Geo, v: View, w: Witness, x: Slot, pend: seq<int>, d: int)
    requires GInv(g, v, w, x, pend) && IsDirNo(g, w, d) && d != 0
    ensures w.chain[d] != [] && IsChain(v.t, w.chain[d]) && w.chain[d][0] == d
    ensures LiveAt(g, v, w, x, w.owner[d]) && First(Ent(g, v, w.owner[d])) == d && IsDirectory(Ent(g, v, w.owner[d]))
    ensures var p := DirOf(w, w.owner[d].a); IsDirNo(g, w, p) && 0 <= Depth(w, p) < w.depth[d]
  {
    assert HeadOk(g, v, w, x, d);
    var s := w.owner[d];
    assert SlotOk(g, v, w, x, s);
    var p := DirOf(w, s.a);
    if p != 0 { assert HeadOk(g, v, w, x, p); }
  }

  /** The area of a slot of directory d, seen by a witness that has the same chain for d. */
  lemma SameArea(g: Geo, v: View, w: Witness, x: Slot, pend: seq<int>, w': Witness, x': Slot, pend': seq<int>, s: Slot)
    requires GInv(g, v, w, x, pend) && GInv(g, v, w', x', pend') && IsSlot(g, w, s)
    requires var d := DirOf(w, s.a); IsDirNo(g, w', d) && (d != 0 ==> w'.chain[d] == w.chain[d])
    ensures IsSlot(g, w', s) && DirOf(w', s.a) == DirOf(w, s.a)
  {
    if s.a != 0 {
      assert ClusterOk(g, v, w, pend, s.a);
      ChainMember(g, v, w', x', pend', w.home[s.a], w.pos[s.a]);
    }
  }

  /** Two witnesses of one volume have the same directories. A witness may exempt a slot, as long as it
      is not the entry of a directory. */
  lemma {:induction false} SameDirs(g: Geo, v: View, w: Witness, x: Slot, pend: seq<int>, w': Witness, x': Slot, pend': seq<int>, d: int)
    requires GInv(g, v, w, x, pend) && GInv(g, v, w', x', pend') && IsDirNo(g, w, d)
    requires x' != NONE ==> IsSlot(g, w', x') && PlainAt(g, v, w', x')
    ensures IsDirNo(g, w', d) && (d != 0 ==> w'.chain[d] == w.chain[d])
    decreases if d == 0 then 0 else w.depth[d]
  {
    if d != 0 {
      DirHead(g, v, w, x, pend, d);
      var s := w.owner[d];
      SameDirs(g, v, w, x, pend, w', x', pend', DirOf(w, s.a));
      SameArea(g, v, w, x, pend, w', x', pend', s);
      assert SlotOk(g, v, w', x', s);
      assert HeadOk(g, v, w', x', d);
      ChainUnique(v.t, w.chain[d], w'.chain[d]);
    }
  }

  lemma SameSlot(g: Geo, v: View, w: Witness, x: Slot, pend: seq<int>, w': Witness, x': Slot, pend': seq<int>, s: Slot)
    requires GInv(g, v, w, x, pend) && GInv(g, v, w', x', pend') && IsSlot(g, w, s)
    requires x' != NONE ==> IsSlot(g, w', x') && PlainAt(g, v, w', x')
    ensures IsSlot(g, w', s) && DirOf(w', s.a) == DirOf(w, s.a)
  {
    SameDirs(g, v, w, x, pend, w', x', pend', DirOf(w, s.a));
    SameArea(g, v, w, x, pend, w', x', pend', s);
  }

  /** e, in the exempt slot, is the owner of exactly the pending chain. */
  ghost predicate Settled(g: Geo, e: Bytes, pend: seq<int>)
    requires |e| == SIZE
  {
    if pend == [] then Live(e) ==> First(e) == 0 && FileSize(e) == 0
    else Live(e) && First(e) == pend[0] && CeilIs(|pend|, FileSize(e), g.ClusterSize())
  }

  /** The entry an update is about is a plain one, and does not own a lost chain. */
  ghost predicate PlainUpdate(g: Geo, v: View, w: Witness, x: Slot)
    requires Shape(g, v, w)
  {
    x != NONE ==> IsSlot(g, w, x) && PlainAt(g, v, w, x) && (Live(Ent(g, v, x)) ==> First(Ent(g, v, x)) !in w.lost)
  }

  /** An update stopped half-way has left a consistent volume exactly when nothing is lost and the entry it
      works on happens to own exactly the clusters the update holds. */
  lemma StoppedHalfWay(g: Geo, v: View, w: Witness, x: Slot, pend: seq<int>)
    requires GInv(g, v, w, x, pend) && x != NONE && PlainUpdate(g, v, w, x)
    requires Live(Ent(g, v, x)) ==> NameFree(g, v, w, x, Name(Ent(g, v, x))) && FrontFull(g, v, w, x)
    ensures VolumeOk(g, v) <==> w.lost == {} && Settled(g, Ent(g, v, x), pend)
  {
    if w.lost == {} && Settled(g, Ent(g, v, x), pend) { SettledOk(g, v, w, x, pend); }
    if VolumeOk(g, v) {
      var w' :| Inv(g, v, w') && w'.lost == {};
      NothingLost(g, v, w, x, pend, w');
      MustSettle(g, v, w, x, pend, w');
    }
  }

  /** Between operations the volume is consistent exactly when nothing is lost. */
  lemma ConsistentIff(g: Geo, v: View, w: Witness)
    requires Inv(g, v, w)
    ensures VolumeOk(g, v) <==> w.lost == {}
  {
    if VolumeOk(g, v) {
      var w' :| Inv(g, v, w') && w'.lost == {};
      NothingLost(g, v, w, NONE, [], w');
    }
  }

  lemma NothingLost(g: Geo, v: View, w: Witness, x: Slot, pend: seq<int>, w': Witness)
    requires GInv(g, v, w, x, pend) && PlainUpdate(g, v, w, x) && Inv(g, v, w') && w'.lost == {}
    ensures w.lost == {}
  {
    forall c | c in w.lost ensures false {
      assert ClusterOk(g, v, w, pend, c);
      assert ClusterOk(g, v, w', [], c);
      var k := w'.home[c];
      assert HeadOk(g, v, w', NONE, k);
      if w'.owner[k] != x {
        OtherChain(g, v, w, x, pend, w', k, w'.pos[c]);
      } else {
        OwnChain(g, v, w, x, pend, w', k);
      }
    }
  }

  /** A directory entry that has a size, or leads to a free cluster, is no part of a consistent volume. */
  lemma BrokenDirectory(g: Geo, v: View, w: Witness, x: Slot, pend: seq<int>)
    requires GInv(g, v, w, x, pend) && IsSlot(g, w, x) && Live(Ent(g, v, x)) && IsDirectory(Ent(g, v, x))
    requires var e := Ent(g, v, x); FileSize(e) != 0 || (2 <= First(e) < g.max && v.t[First(e)] == FREE)
    ensures !VolumeOk(g, v)
  {
    if VolumeOk(g, v) {
      var w' :| Inv(g, v, w') && w'.lost == {};
      SameSlot(g, v, w, x, pend, w', NONE, [], x);
      assert SlotOk(g, v, w', NONE, x);
      assert HeadOk(g, v, w', NONE, First(Ent(g, v, x)));
      ChainMember(g, v, w', NONE, [], First(Ent(g, v, x)), 0);
    }
  }

  lemma SettledOk(g: Geo, v: View, w: Witness, x: Slot, pend: seq<int>)
    requires GInv(g, v, w, x, pend) && IsSlot(g, w, x) && x != NONE && PlainAt(g, v, w, x) && w.lost == {}
    requires Live(Ent(g, v, x)) ==> NameFree(g, v, w, x, Name(Ent(g, v, x))) && FrontFull(g, v, w, x)
    requires Settled(g, Ent(g, v, x), pend)
    ensures VolumeOk(g, v)
  {
    var e := Ent(g, v, x);
    if Live(e) {
      Attach(g, v, w, x, pend, e);
      assert Store(g, v, x, e) == v by { StoreSame(g, v, w, x); }
    } else {
      Unexempt(g, v, w, x);
      assert Inv(g, v, w);
    }
  }

  lemma StoreSame(g: Geo, v: View, w: Witness, x: Slot)
    requires Shape(g, v, w) && IsSlot(g, w, x)
    ensures Store(g, v, x, Ent(g, v, x)) == v
  {
    var b := v.cl[x.a];
    assert WithEntry(b, x.k, EntryAt(b, x.k)) == b;
  }

  /** An exempt slot without a live entry need not be exempt. */
  lemma Unexempt(g: Geo, v: View, w: Witness, x: Slot)
    requires GInv(g, v, w, x, []) && IsSlot(g, w, x) && !Live(Ent(g, v, x))
    ensures Inv(g, v, w)
  {
    forall c | 2 <= c < g.max ensures ClusterOk(g, v, w, [], c) { assert ClusterOk(g, v, w, [], c); }
    forall h | 2 <= h < g.max ensures HeadOk(g, v, w, NONE, h) { assert HeadOk(g, v, w, x, h); }
    forall s ensures SlotOk(g, v, w, NONE, s) { assert SlotOk(g, v, w, x, s); }
    forall s1, s2 ensures PairOk(g, v, w, NONE, s1, s2) { assert PairOk(g, v, w, x, s1, s2); }
  }

  /** What the two witnesses agree on: chains that the exempt slot does not own. */
  lemma OtherChain(g: Geo, v: View, w: Witness, x: Slot, pend: seq<int>, w': Witness, h: int, i: nat)
    requires GInv(g, v, w, x, pend) && PlainUpdate(g, v, w, x) && Inv(g, v, w')
    requires 2 <= h < g.max && i < |w'.chain[h]| && w'.owner[h] != x
    ensures 2 <= w'.chain[h][i] < g.max && w.home[w'.chain[h][i]] != 0
  {
    assert HeadOk(g, v, w', NONE, h);
    var s := w'.owner[h];
    SameSlot(g, v, w', NONE, [], w, x, pend, s);
    assert SlotOk(g, v, w, x, s);
    assert HeadOk(g, v, w, x, h);
    ChainUnique(v.t, w.chain[h], w'.chain[h]);
    ChainMember(g, v, w, x, pend, h, i);
  }

  /** The chain the exempt slot owns in w' is the pending one. */
  lemma OwnChain(g: Geo, v: View, w: Witness, x: Slot, pend: seq<int>, w': Witness, h: int)
    requires GInv(g, v, w, x, pend) && PlainUpdate(g, v, w, x) && Inv(g, v, w') && w'.lost == {}
    requires 2 <= h < g.max && w'.chain[h] != [] && w'.owner[h] == x
    ensures pend == w'.chain[h]
  {
    assert HeadOk(g, v, w', NONE, h);
    ChainMember(g, v, w', NONE, [], h, 0);
    assert ClusterOk(g, v, w, pend, h);
    var k := w.home[h];
    if k != 0 {
      assert HeadOk(g, v, w, x, k);
      SameSlot(g, v, w, x, pend, w', NONE, [], w.owner[k]);
      assert SlotOk(g, v, w', NONE, w.owner[k]);
      assert HeadOk(g, v, w', NONE, k);
      ChainUnique(v.t, w.chain[k], w'.chain[k]);
      ChainMember(g, v, w', NONE, [], k, w.pos[h]);
    }
    assert k == 0;
    HeadOfPending(g, v, w, x, pend, w', h);
    ChainUnique(v.t, pend, w'.chain[h]);
  }

  lemma HeadOfPending(g: Geo, v: View, w: Witness, x: Slot, pend: seq<int>, w': Witness, h: int)
    requires GInv(g, v, w, x, pend) && PlainUpdate(g, v, w, x) && Inv(g, v, w') && w'.lost == {}
    requires 2 <= h < g.max && w'.chain[h] != [] && w'.owner[h] == x && h in pend
    ensures pend[0] == h
  {
    assert HeadOk(g, v, w', NONE, h);
    var j :| 0 <= j < |pend| && pend[j] == h;
    PendAway(g, v, w, x, pend, 0);
    assert ClusterOk(g, v, w', [], pend[0]);
    var k, p := w'.home[pend[0]], w'.pos[pend[0]];
    if w'.owner[k] != x { OtherChain(g, v, w, x, pend, w', k, p); }
    assert HeadOk(g, v, w', NONE, k);
    assert k == h;
    if j > 0 {
      ChainSuffix(v.t, pend, j);
      ChainUnique(v.t, pend[j..], w'.chain[h]);
      ChainDistinct(v.t, pend, 0, j + p);
    }
  }

  lemma MustSettle(g: Geo, v: View, w: Witness, x: Slot, pend: seq<int>, w': Witness)
    requires GInv(g, v, w, x, pend) && x != NONE && PlainUpdate(g, v, w, x) && Inv(g, v, w') && w'.lost == {}
    ensures Settled(g, Ent(g, v, x), pend)
  {
    SameSlot(g, v, w, x, pend, w', NONE, [], x);
    assert SlotOk(g, v, w', NONE, x);
    var f := First(Ent(g, v, x));
    if Live(Ent(g, v, x)) && f != 0 {
      OwnChain(g, v, w, x, pend, w', f);
      assert HeadOk(g, v, w', NONE, f);
    } else if pend != [] {
      PendAway(g, v, w, x, pend, 0);
      var c := pend[0];
      assert ClusterOk(g, v, w', [], c);
      var k := w'.home[c];
      assert HeadOk(g, v, w', NONE, k);
      if w'.owner[k] != x { OtherChain(g, v, w, x, pend, w', k, w'.pos[c]); }
    }
  }
}
