/** The middle of a file update: which facts hold while a chain is being built for slot x, and how
each step of the program keeps them. */
module FatUpdate {
  import opened FatTable
  import opened Dirent
  import opened FatInvariant
  import opened FatContent
  import opened FatPath
  import opened FatDirectory

  /** The clusters an entry refers to. */
  ghost function EntryChain(g: Geo, w: Witness, e: Bytes): seq<int>
    requires |w.chain| == g.max && |e| == SIZE
  {
    if 2 <= First(e) < g.max then w.chain[First(e)] else []
  }

  /** data followed by zeros up to n bytes. */
  function Padded(data: Bytes, n: int): (r: Bytes)
  {
    if n <= |data| then data else data + seq(n - |data|, _ => 0)
  }

  /** The entry the update is about has not been stored yet. */
  ghost predicate Untouched(g: Geo, v0: View, w0: Witness, v: View, w: Witness, x: Slot)
    requires Shape(g, v0, w0) && Shape(g, v, w) && IsSlot(g, w, x)
  {
    if LiveAt(g, v0, w0, NONE, x) then Ent(g, v, x) == Ent(g, v0, x) else !Live(Ent(g, v, x))
  }

  /** Between (v0, w0) and (v, w) an update of slot x, whose old chain was headed by f, is under way:
      name may be stored in x, and pend is the chain built so far. What was below f is lost. */
  ghost predicate Mid(g: Geo, v0: View, w0: Witness, v: View, w: Witness, f: int, x: Slot, name: Bytes, pend: seq<int>) {
    && GInv(g, v, w, x, pend) && IsSlot(g, w, x)
    && NameFree(g, v, w, x, name) && FrontFull(g, v, w, x)
    && Others(g, v0, w0, v, w, f, x) && Untouched(g, v0, w0, v, w, x)
    && w.lost == w0.lost + Strays(g, w0, f)
  }

  lemma NoStrays(g: Geo, w: Witness)
    requires |w.chain| == |w.home| == g.max
    ensures Tree(g, w, 0) == {} && Strays(g, w, 0) == {}
  {
  }

  lemma PendOnVolume(g: Geo, v: View, w: Witness, x: Slot, pend: seq<int>)
    requires GInv(g, v, w, x, pend)
    ensures OnVolume(g, v, pend)
    ensures forall i, j :: 0 <= i < j < |pend| ==> pend[i] != pend[j]
  {
    forall i | 0 <= i < |pend| ensures 2 <= pend[i] < g.max { PendAway(g, v, w, x, pend, i); }
    forall i, j | 0 <= i < j < |pend| ensures pend[i] != pend[j] { ChainDistinct(v.t, pend, i, j); }
  }

  lemma EntryOnVolume(g: Geo, v: View, w: Witness, x: Slot)
    requires Inv(g, v, w) && LiveAt(g, v, w, NONE, x)
    ensures OnVolume(g, v, EntryChain(g, w, Ent(g, v, x)))
  {
    var f := First(Ent(g, v, x));
    assert SlotOk(g, v, w, NONE, x);
    if f != 0 {
      forall i | 0 <= i < |w.chain[f]| ensures 2 <= w.chain[f][i] < g.max { ChainMember(g, v, w, NONE, [], f, i); }
    }
  }

  /** Directory contents did not change, so names and free slots did not either. */
  lemma SlotsKept(g: Geo, v: View, v': View, w: Witness, x: Slot, name: Bytes, pend: seq<int>, pend': seq<int>)
    requires GInv(g, v, w, x, pend) && GInv(g, v', w, x, pend') && IsSlot(g, w, x)
    requires NameFree(g, v, w, x, name) && FrontFull(g, v, w, x)
    requires forall a :: DirArea(g, w, a) ==> v'.cl[a] == v.cl[a]
    ensures NameFree(g, v', w, x, name) && FrontFull(g, v', w, x)
  {
  }

  /** Starting on a place for a new entry. */
  lemma MidCreate(g: Geo, v0: View, w0: Witness, v: View, w: Witness, d: int, name: Bytes, x: Slot)
    requires Inv(g, v, w) && Creatable(g, v, w, d, name, x) && Others(g, v0, w0, v, w, 0, x) && !LiveAt(g, v0, w0, NONE, x)
    requires w.lost == w0.lost
    ensures Mid(g, v0, w0, v, w, 0, x, name, [])
  {
    NoStrays(g, w0);
    CreatableOk(g, v, w, d, name, x);
  }

  /** Starting on an existing entry: its chain becomes the pending one. */
  lemma MidReplace(g: Geo, v: View, w: Witness, d: int, name: Bytes, x: Slot)
    requires Inv(g, v, w) && Named(g, v, w, d, name, x)
    ensures var f := First(Ent(g, v, x)); f == 0 || 2 <= f < g.max
    ensures var f := First(Ent(g, v, x));
            var w' := if f == 0 then w else DetachW(g, w, f);
            Mid(g, v, w, v, w', f, x, name, EntryChain(g, w, Ent(g, v, x))) && DirOf(w', x.a) == d && IsDirNo(g, w, d) == IsDirNo(g, w', d)
  {
    hide Tree, Strays;
    var f := First(Ent(g, v, x));
    assert SlotOk(g, v, w, NONE, x);
    if f == 0 {
      OthersRefl(g, v, w, f, x);
      NoStrays(g, w);
      Exempt(g, v, w, x);
      ReplaceOk(g, v, w, d, name, x, w, []);
    } else {
      Detach(g, v, w, x);
      OthersDetach(g, v, w, f, x);
      forall s | IsSlot(g, DetachW(g, w, f), s) ensures IsSlot(g, w, s) && DirOf(DetachW(g, w, f), s.a) == DirOf(w, s.a) {
        DetachSlots(g, v, w, f, s);
      }
      DetachSlots(g, v, w, f, x);
      ReplaceOk(g, v, w, d, name, x, DetachW(g, w, f), w.chain[f]);
    }
  }

  lemma MidFree(g: Geo, v0: View, w0: Witness, v: View, w: Witness, f: int, x: Slot, name: Bytes, pend: seq<int>)
    requires Mid(g, v0, w0, v, w, f, x, name, pend)
    ensures Mid(g, v0, w0, v.(t := FreedT(v.t, pend)), w, f, x, name, [])
  {
    FreePend(g, v, w, x, pend);
    var v' := v.(t := FreedT(v.t, pend));
    OthersPend(g, v0, w0, v, v', w, f, x);
    SlotsKept(g, v, v', w, x, name, pend, []);
  }

  lemma MidExtend(g: Geo, v0: View, w0: Witness, v: View, w: Witness, f: int, x: Slot, name: Bytes, pend: seq<int>, c: int)
    requires Mid(g, v0, w0, v, w, f, x, name, pend) && 2 <= c < g.max && v.t[c] == FREE
    ensures |pend| > 0 ==> 0 <= pend[|pend| - 1] < |v.t|
    ensures Mid(g, v0, w0, v.(t := Extended(v.t, pend, c)), w, f, x, name, pend + [c])
    ensures var v' := v.(t := Extended(v.t, pend, c));
            OnVolume(g, v, pend) && OnVolume(g, v', pend + [c]) && Content(g, v', pend + [c]) == Content(g, v, pend) + v.cl[c]
  {
    ExtendPend(g, v, w, x, pend, c);
    var v' := v.(t := Extended(v.t, pend, c));
    OthersPend(g, v0, w0, v, v', w, f, x);
    SlotsKept(g, v, v', w, x, name, pend, pend + [c]);
    PendOnVolume(g, v, w, x, pend);
    PendOnVolume(g, v', w, x, pend + [c]);
    ContentAppend(g, v', pend, c);
    ContentFrame(g, v, v', pend);
  }

  lemma MidWrite(g: Geo, v0: View, w0: Witness, v: View, w: Witness, f: int, x: Slot, name: Bytes, pend: seq<int>, i: nat, at: nat, data: Bytes)
    requires Mid(g, v0, w0, v, w, f, x, name, pend) && i < |pend| && at + |data| <= g.ClusterSize()
    ensures OnVolume(g, v, pend) && i * g.ClusterSize() + at + |data| <= |pend| * g.ClusterSize()
    ensures var v' := v.(cl := v.cl[pend[i] := Splice(v.cl[pend[i]], at, data)]);
            && Mid(g, v0, w0, v', w, f, x, name, pend)
            && OnVolume(g, v', pend) && Content(g, v', pend) == Splice(Content(g, v, pend), i * g.ClusterSize() + at, data)
  {
    PendOnVolume(g, v, w, x, pend);
    PendAway(g, v, w, x, pend, i);
    var b := Splice(v.cl[pend[i]], at, data);
    WritePend(g, v, w, x, pend, pend[i], b);
    var v' := v.(cl := v.cl[pend[i] := b]);
    OthersPend(g, v0, w0, v, v', w, f, x);
    SlotsKept(g, v, v', w, x, name, pend, pend);
    ContentSplice(g, v, pend, i, at, data);
  }

  /** Storing the finished entry: the invariant holds again, and the name leads to the new file or
      directory. */
  lemma MidFinish(g: Geo, v0: View, w0: Witness, v: View, w: Witness, f: int, x: Slot, name: Bytes, pend: seq<int>, e: Bytes)
    requires Mid(g, v0, w0, v, w, f, x, name, pend) && CanAttach(g, v, w, x, pend, e) && Name(e) == name
    ensures |pend| > 0 ==> 2 <= pend[0] < g.max
    ensures var v', w' := Store(g, v, x, e), AttachW(g, w, pend, x, IsDirectory(e), Depth(w, DirOf(w, x.a)) + 1);
            && Inv(g, v', w') && Others(g, v0, w0, v', w', f, x)
            && Lookup(g, v', w', DirOf(w, x.a), name) == x && x != NONE && Ent(g, v', x) == e
            && EntryChain(g, w', e) == pend && w'.lost == w.lost
            && (IsDirNo(g, w, DirOf(w, x.a)) ==> IsDirNo(g, w', DirOf(w, x.a)))
  {
    if pend != [] { PendHead(g, v, w, x, pend); }
    var dep := Depth(w, DirOf(w, x.a)) + 1;
    Attach(g, v, w, x, pend, e);
    FinishOthers(g, v0, w0, v, w, f, x, name, pend, e, IsDirectory(e), dep);
    var v', w' := Store(g, v, x, e), AttachW(g, w, pend, x, IsDirectory(e), dep);
    StoreEnt(g, v, w, x, e, x);
    AttachedX(g, v, w, x, pend, e, IsDirectory(e), dep);
    LookupUnique(g, v', w', DirOf(w, x.a), name, x);
  }

  lemma FinishOthers(g: Geo, v0: View, w0: Witness, v: View, w: Witness, f: int, x: Slot, name: Bytes, pend: seq<int>, e: Bytes, dir: bool, dep: int)
    requires Mid(g, v0, w0, v, w, f, x, name, pend) && |e| == SIZE && Live(e) && Name(e) == name
    requires |pend| > 0 ==> 2 <= pend[0] < g.max
    ensures Others(g, v0, w0, Store(g, v, x, e), AttachW(g, w, pend, x, dir, dep), f, x)
  {
    OthersStore(g, v0, w0, v, w, f, x, e);
    StoreKeepsPend(g, v, w, x, pend, e);
    OthersAttach(g, v0, w0, Store(g, v, x, e), w, f, x, pend, dir, dep);
  }

  /** The new entry leaves the data of its chain as it was written. */
  lemma FinishContent(g: Geo, v: View, w: Witness, x: Slot, pend: seq<int>, e: Bytes)
    requires GInv(g, v, w, x, pend) && IsSlot(g, w, x) && |e| == SIZE
    ensures OnVolume(g, v, pend) && OnVolume(g, Store(g, v, x, e), pend) && Content(g, Store(g, v, x, e), pend) == Content(g, v, pend)
  {
    var v' := Store(g, v, x, e);
    StoreEnt(g, v, w, x, e, x);
    PendOnVolume(g, v, w, x, pend);
    forall i | 0 <= i < |pend| ensures v'.cl[pend[i]] == v.cl[pend[i]] { PendAway(g, v, w, x, pend, i); }
    ContentFrame(g, v, v', pend);
  }

  lemma AttachedX(g: Geo, v: View, w: Witness, x: Slot, pend: seq<int>, e: Bytes, dir: bool, dep: int)
    requires GInv(g, v, w, x, pend) && IsSlot(g, w, x) && |e| == SIZE
    requires |pend| > 0 ==> 2 <= pend[0] < g.max
    ensures var w' := AttachW(g, w, pend, x, dir, dep);
            IsSlot(g, w', x) && DirOf(w', x.a) == DirOf(w, x.a) && x != NONE
            && (IsDirNo(g, w, DirOf(w, x.a)) ==> IsDirNo(g, w', DirOf(w, x.a)))
  {
    if pend != [] {
      PendHead(g, v, w, x, pend);
      NotPending(g, v, w, x, pend, x.a);
      AttachHome(g, v, w, x, pend, dir, dep, x.a);
    }
  }

  lemma NotPending(g: Geo, v: View, w: Witness, x: Slot, pend: seq<int>, a: int)
    requires GInv(g, v, w, x, pend) && DirArea(g, w, a)
    ensures a !in pend
  {
    if a in pend {
      var i :| 0 <= i < |pend| && pend[i] == a;
      PendAway(g, v, w, x, pend, i);
    }
  }

  /** Storing an entry does not touch the pending chain. */
  lemma StoreKeepsPend(g: Geo, v: View, w: Witness, x: Slot, pend: seq<int>, e: Bytes)
    requires GInv(g, v, w, x, pend) && IsSlot(g, w, x) && |e| == SIZE && Live(e) && NameFree(g, v, w, x, Name(e)) && FrontFull(g, v, w, x)
    ensures GInv(g, Store(g, v, x, e), w, x, pend)
  {
    var v' := Store(g, v, x, e);
    StoreEnt(g, v, w, x, e, x);
    forall k | 0 <= k < g.rootSlots && Visible(EntryAt(v'.cl[0], k)) ensures !IsDots(EntryAt(v'.cl[0], k)) {
      StoreEnt(g, v, w, x, e, Slot(0, k));
      assert EntryAt(v'.cl[0], k) == Ent(g, v', Slot(0, k));
      assert EntryAt(v.cl[0], k) == Ent(g, v, Slot(0, k));
    }
    forall c | 2 <= c < g.max ensures ClusterOk(g, v', w, pend, c) { assert ClusterOk(g, v, w, pend, c); }
    forall h | 2 <= h < g.max ensures HeadOk(g, v', w, x, h) {
      assert HeadOk(g, v, w, x, h);
      if w.chain[h] != [] { StoreEnt(g, v, w, x, e, w.owner[h]); }
    }
    forall s ensures SlotOk(g, v', w, x, s) {
      assert SlotOk(g, v, w, x, s);
      if IsSlot(g, w, s) { StoreEnt(g, v, w, x, e, s); }
    }
    forall s1, s2 ensures PairOk(g, v', w, x, s1, s2) {
      assert PairOk(g, v, w, x, s1, s2);
      if IsSlot(g, w, s1) { StoreEnt(g, v, w, x, e, s1); }
      if IsSlot(g, w, s2) { StoreEnt(g, v, w, x, e, s2); }
    }
  }

  /** In the middle of an update the table has no link out of range, so it can be walked and freed. */
  lemma TableInRange(g: Geo, v: View, w: Witness, x: Slot, pend: seq<int>)
    requires GInv(g, v, w, x, pend)
    ensures InRange(v.t)
  {
    forall c | 2 <= c < |v.t| ensures 0 <= v.t[c] < |v.t| || EOC <= v.t[c] < 4096 {
      assert ClusterOk(g, v, w, pend, c);
      if w.home[c] != 0 {
        LinkInRange(g, v, w, x, pend, c);
      } else if c in pend {
        var i :| 0 <= i < |pend| && pend[i] == c;
        assert Links(v.t, pend, i);
        if i + 1 < |pend| { assert Links(v.t, pend, i + 1); }
      }
    }
  }

  /** fat_free_chain on the head of the pending chain frees exactly that chain. */
  lemma FreeChainIsFreePend(g: Geo, v: View, w: Witness, x: Slot, pend: seq<int>)
    requires GInv(g, v, w, x, pend) && pend != []
    ensures 2 <= pend[0] < g.max && InRange(v.t) && Cleared(v.t, pend[0]) == FreedT(v.t, pend)
  {
    TableInRange(g, v, w, x, pend);
    PendAway(g, v, w, x, pend, 0);
    forall c | 0 <= c < |v.t| ensures Cleared(v.t, pend[0])[c] == FreedT(v.t, pend)[c] {
      ChainCleared(v.t, pend, c);
    }
  }

  // ----- paths after an update -----

  /** A directory entry other than x is still found under its name. */
  lemma LookupKept(g: Geo, v0: View, w0: Witness, v: View, w: Witness, f: int, x: Slot, d: int, name: Bytes)
    requires Inv(g, v0, w0) && Inv(g, v, w) && Others(g, v0, w0, v, w, f, x)
    requires Lookup(g, v0, w0, d, name) != NONE && Lookup(g, v0, w0, d, name) != x
    requires d !in Tree(g, w0, f)
    ensures Lookup(g, v, w, d, name) == Lookup(g, v0, w0, d, name)
    ensures Ent(g, v, Lookup(g, v, w, d, name)) == Ent(g, v0, Lookup(g, v0, w0, d, name))
  {
    var s := Lookup(g, v0, w0, d, name);
    if s.a != 0 {
      assert OtherCluster(g, v0, w0, v, w, f, x, s.a);
      assert ClusterOk(g, v0, w0, [], s.a);
      assert OtherHead(g, v0, w0, v, w, f, w0.home[s.a]);
    }
    OtherFileKept(g, v0, w0, v, w, f, x, s);
    LookupUnique(g, v, w, d, name, s);
  }

  /** When a new entry has been stored, every path still leads to the same place. */
  lemma {:induction false} WalkKept(g: Geo, v0: View, w0: Witness, v: View, w: Witness, x: Slot, d: int, comps: seq<Bytes>)
    requires Inv(g, v0, w0) && Inv(g, v, w) && Others(g, v0, w0, v, w, 0, x) && !LiveAt(g, v0, w0, NONE, x)
    requires Walk(g, v0, w0, d, comps).At?
    ensures Walk(g, v, w, d, comps) == Walk(g, v0, w0, d, comps)
    decreases |comps|
  {
    if |comps| > 1 {
      var n := ToFatName(comps[0]);
      NoStrays(g, w0);
      LookupKept(g, v0, w0, v, w, 0, x, d, n);
      WalkKept(g, v0, w0, v, w, x, First(Ent(g, v0, Lookup(g, v0, w0, d, n))), comps[1..]);
    }
  }

  /** Each step of a path goes one level down. */
  lemma {:induction false} WalkDepth(g: Geo, v: View, w: Witness, d: int, comps: seq<Bytes>)
    requires Inv(g, v, w) && IsDirNo(g, w, d) && Walk(g, v, w, d, comps).At?
    ensures IsDirNo(g, w, Walk(g, v, w, d, comps).d)
    ensures Depth(w, Walk(g, v, w, d, comps).d) == Depth(w, d) + |comps| - 1
    decreases |comps|
  {
    if |comps| > 1 {
      var s := Lookup(g, v, w, d, ToFatName(comps[0]));
      assert SlotOk(g, v, w, NONE, s);
      SubDirectory(g, v, w, s);
      WalkDepth(g, v, w, First(Ent(g, v, s)), comps[1..]);
    }
  }

  /** A directory no deeper than the one that holds x is not below x. */
  lemma AboveOutside(g: Geo, v: View, w: Witness, x: Slot, d: int)
    requires Inv(g, v, w) && LiveAt(g, v, w, NONE, x) && IsDirNo(g, w, d) && Depth(w, d) <= Depth(w, DirOf(w, x.a))
    ensures d !in Tree(g, w, First(Ent(g, v, x)))
  {
    var f := First(Ent(g, v, x));
    assert SlotOk(g, v, w, NONE, x);
    if d in Tree(g, w, f) {
      var n: nat :| Under(w, f, d, n);
      UnderDepth(g, v, w, NONE, [], f, d, n);
    }
  }

  /** A path to the directory that holds x does not go through x, nor through the directory x is. */
  lemma {:induction false} WalkToParent(g: Geo, v0: View, w0: Witness, v: View, w: Witness, f: int, x: Slot, d: int, comps: seq<Bytes>)
    requires Inv(g, v0, w0) && Inv(g, v, w) && Others(g, v0, w0, v, w, f, x) && IsDirNo(g, w0, d)
    requires LiveAt(g, v0, w0, NONE, x) && f == First(Ent(g, v0, x))
    requires Walk(g, v0, w0, d, comps).At? && Walk(g, v0, w0, d, comps).d == DirOf(w0, x.a)
    ensures Walk(g, v, w, d, comps) == Walk(g, v0, w0, d, comps)
    decreases |comps|
  {
    if |comps| > 1 {
      var n := ToFatName(comps[0]);
      var s := Lookup(g, v0, w0, d, n);
      WalkDepth(g, v0, w0, d, comps);
      assert SlotOk(g, v0, w0, NONE, x) && SlotOk(g, v0, w0, NONE, s);
      AboveOutside(g, v0, w0, x, d);
      LookupKept(g, v0, w0, v, w, f, x, d, n);
      SubDirectory(g, v0, w0, s);
      WalkToParent(g, v0, w0, v, w, f, x, First(Ent(g, v0, s)), comps[1..]);
    }
  }
}
