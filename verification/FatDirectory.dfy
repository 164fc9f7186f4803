/** Scanning a directory: what has been established after the areas up to some position have been
looked at, and what follows about names and free slots. */
module FatDirectory {
  import opened FatTable
  import opened Dirent
  import opened FatInvariant
  import opened FatPath

  /** dir_lookup compares the names of visible entries. */
  predicate Matches(e: Bytes, target: Bytes)
    requires |e| == SIZE
  {
    Visible(e) && Name(e) == target
  }

  ghost predicate InDir(g: Geo, w: Witness, d: int, s: Slot)
    requires |w.home| == |w.isDir| == g.max && g.Ok()
  {
    IsSlot(g, w, s) && DirOf(w, s.a) == d
  }

  /** No slot in the first j areas of directory d ends the scan or matches. */
  ghost predicate ScannedTo(g: Geo, v: View, w: Witness, d: int, target: Bytes, j: int)
    requires Shape(g, v, w)
  {
    forall s :: InDir(g, w, d, s) && AreaPos(w, s.a) < j ==> !IsEnd(Ent(g, v, s)) && !Matches(Ent(g, v, s), target)
  }

  ghost predicate NoFreeTo(g: Geo, v: View, w: Witness, d: int, j: int)
    requires Shape(g, v, w)
  {
    forall s :: InDir(g, w, d, s) && AreaPos(w, s.a) < j ==> !IsFree(Ent(g, v, s))
  }

  /** x is the first free slot of directory d. */
  ghost predicate FirstFreeSlot(g: Geo, v: View, w: Witness, d: int, x: Slot)
    requires Shape(g, v, w)
  {
    && InDir(g, w, d, x) && IsFree(Ent(g, v, x))
    && forall s :: InDir(g, w, d, s) && Precedes(w, s, x) ==> !IsFree(Ent(g, v, s))
  }

  /** No slot of directory d is free. */
  ghost predicate NoFree(g: Geo, v: View, w: Witness, d: int)
    requires Shape(g, v, w)
  {
    forall s :: InDir(g, w, d, s) ==> !IsFree(Ent(g, v, s))
  }

  /** The areas of directory d: the root area, or the clusters of its chain. */
  ghost function AreaCount(w: Witness, d: int): nat
    requires d == 0 || 0 <= d < |w.chain|
  {
    if d == 0 then 1 else |w.chain[d]|
  }

  ghost function AreaAt(w: Witness, d: int, j: nat): int
    requires d == 0 || (0 <= d < |w.chain| && j < |w.chain[d]|)
  {
    if d == 0 then 0 else w.chain[d][j]
  }

  lemma AreaAtOk(g: Geo, v: View, w: Witness, d: int, j: nat)
    requires Inv(g, v, w) && IsDirNo(g, w, d) && j < AreaCount(w, d)
    ensures var a := AreaAt(w, d, j); DirArea(g, w, a) && DirOf(w, a) == d && AreaPos(w, a) == j && (a == 0 || 2 <= a < g.max)
    ensures d == 0 <==> AreaAt(w, d, j) == 0
  {
    if d != 0 { ChainMember(g, v, w, NONE, [], d, j); }
  }

  lemma DirAreaIs(g: Geo, v: View, w: Witness, d: int, a: int)
    requires Inv(g, v, w) && IsDirNo(g, w, d) && DirArea(g, w, a) && DirOf(w, a) == d
    ensures 0 <= AreaPos(w, a) < AreaCount(w, d) && AreaAt(w, d, AreaPos(w, a)) == a
  {
    if a != 0 { assert ClusterOk(g, v, w, [], a); }
  }

  lemma ScanStart(g: Geo, v: View, w: Witness, d: int, target: Bytes)
    requires Inv(g, v, w) && IsDirNo(g, w, d)
    ensures AreaCount(w, d) > 0 && AreaAt(w, d, 0) == d
    ensures ScannedTo(g, v, w, d, target, 0) && NoFreeTo(g, v, w, d, 0)
  {
    if d != 0 { assert HeadOk(g, v, w, NONE, d); }
    forall s | InDir(g, w, d, s) ensures AreaPos(w, s.a) >= 0 { DirAreaIs(g, v, w, d, s.a); }
  }

  lemma ScanMore(g: Geo, v: View, w: Witness, d: int, target: Bytes, j: nat)
    requires Inv(g, v, w) && IsDirNo(g, w, d) && j < AreaCount(w, d) && ScannedTo(g, v, w, d, target, j)
    requires AreaAt(w, d, j) == 0 || 2 <= AreaAt(w, d, j) < g.max
    requires forall k :: 0 <= k < g.Slots(AreaAt(w, d, j)) ==>
               !IsEnd(Ent(g, v, Slot(AreaAt(w, d, j), k))) && !Matches(Ent(g, v, Slot(AreaAt(w, d, j), k)), target)
    ensures ScannedTo(g, v, w, d, target, j + 1)
  {
    var a := AreaAt(w, d, j);
    forall s | InDir(g, w, d, s) && AreaPos(w, s.a) < j + 1 ensures !IsEnd(Ent(g, v, s)) && !Matches(Ent(g, v, s), target) {
      DirAreaIs(g, v, w, d, s.a);
      if AreaPos(w, s.a) == j { assert s == Slot(a, s.k); }
    }
  }

  lemma NoFreeMore(g: Geo, v: View, w: Witness, d: int, j: nat)
    requires Inv(g, v, w) && IsDirNo(g, w, d) && j < AreaCount(w, d) && NoFreeTo(g, v, w, d, j)
    requires AreaAt(w, d, j) == 0 || 2 <= AreaAt(w, d, j) < g.max
    requires forall k :: 0 <= k < g.Slots(AreaAt(w, d, j)) ==> !IsFree(Ent(g, v, Slot(AreaAt(w, d, j), k)))
    ensures NoFreeTo(g, v, w, d, j + 1)
  {
    var a := AreaAt(w, d, j);
    forall s | InDir(g, w, d, s) && AreaPos(w, s.a) < j + 1 ensures !IsFree(Ent(g, v, s)) {
      DirAreaIs(g, v, w, d, s.a);
      if AreaPos(w, s.a) == j { assert s == Slot(a, s.k); }
    }
  }

  /** The first free slot found in area j when the earlier areas had none. */
  lemma FirstFreeFound(g: Geo, v: View, w: Witness, d: int, j: nat, k: nat)
    requires Inv(g, v, w) && IsDirNo(g, w, d) && j < AreaCount(w, d) && NoFreeTo(g, v, w, d, j)
    requires AreaAt(w, d, j) == 0 || 2 <= AreaAt(w, d, j) < g.max
    requires k < g.Slots(AreaAt(w, d, j)) && IsFree(Ent(g, v, Slot(AreaAt(w, d, j), k)))
    requires forall i :: 0 <= i < k ==> !IsFree(Ent(g, v, Slot(AreaAt(w, d, j), i)))
    ensures FirstFreeSlot(g, v, w, d, Slot(AreaAt(w, d, j), k))
  {
    var x := Slot(AreaAt(w, d, j), k);
    AreaAtOk(g, v, w, d, j);
    forall s | InDir(g, w, d, s) && Precedes(w, s, x) ensures !IsFree(Ent(g, v, s)) {
      DirAreaIs(g, v, w, d, s.a);
      if s.a == x.a { assert s == Slot(x.a, s.k); }
    }
  }

  /** A matching entry is the one Lookup finds. */
  lemma MatchFound(g: Geo, v: View, w: Witness, d: int, target: Bytes, x: Slot)
    requires Inv(g, v, w) && InDir(g, w, d, x) && |target| == NAME_LEN && target[0] != DOT && Matches(Ent(g, v, x), target)
    ensures Lookup(g, v, w, d, target) == x && x != NONE && LiveAt(g, v, w, NONE, x)
  {
    assert Name(Ent(g, v, x))[0] == Ent(g, v, x)[0];
    assert Named(g, v, w, d, target, x);
    LookupUnique(g, v, w, d, target, x);
  }

  /** The scan reached an end entry without a match: the name is absent. */
  lemma AbsentAtEnd(g: Geo, v: View, w: Witness, d: int, target: Bytes, j: nat, k: nat)
    requires Inv(g, v, w) && IsDirNo(g, w, d) && j < AreaCount(w, d) && ScannedTo(g, v, w, d, target, j)
    requires AreaAt(w, d, j) == 0 || 2 <= AreaAt(w, d, j) < g.max
    requires k < g.Slots(AreaAt(w, d, j)) && IsEnd(Ent(g, v, Slot(AreaAt(w, d, j), k)))
    requires forall i :: 0 <= i < k ==> !Matches(Ent(g, v, Slot(AreaAt(w, d, j), i)), target)
    ensures Lookup(g, v, w, d, target) == NONE
  {
    AreaAtOk(g, v, w, d, j);
    var y := Slot(AreaAt(w, d, j), k);
    forall s | InDir(g, w, d, s) ensures !Matches(Ent(g, v, s), target) {
      DirAreaIs(g, v, w, d, s.a);
      assert PairOk(g, v, w, NONE, y, s);
      if AreaPos(w, s.a) == j { assert s == Slot(y.a, s.k); }
    }
  }

  lemma AbsentThrough(g: Geo, v: View, w: Witness, d: int, target: Bytes)
    requires Inv(g, v, w) && IsDirNo(g, w, d) && ScannedTo(g, v, w, d, target, AreaCount(w, d))
    ensures Lookup(g, v, w, d, target) == NONE
  {
    var r := Lookup(g, v, w, d, target);
    if r != NONE { DirAreaIs(g, v, w, d, r.a); }
  }

  /** x can take a new entry of that name. */
  ghost predicate Creatable(g: Geo, v: View, w: Witness, d: int, target: Bytes, x: Slot)
    requires Shape(g, v, w)
  {
    FirstFreeSlot(g, v, w, d, x) && Lookup(g, v, w, d, target) == NONE
  }

  lemma CreatableOk(g: Geo, v: View, w: Witness, d: int, target: Bytes, x: Slot)
    requires Inv(g, v, w) && Creatable(g, v, w, d, target, x)
    ensures GInv(g, v, w, x, []) && NameFree(g, v, w, x, target) && FrontFull(g, v, w, x)
  {
    Exempt(g, v, w, x);
    forall s | LiveAt(g, v, w, x, s) && DirOf(w, s.a) == DirOf(w, x.a) ensures Name(Ent(g, v, s)) != target {
      assert s != NONE;
      assert !Named(g, v, w, d, target, s);
    }
  }

  /** An existing entry can be replaced by one of the same name. */
  lemma ReplaceOk(g: Geo, v: View, w: Witness, d: int, target: Bytes, x: Slot, w': Witness, pend: seq<int>)
    requires Inv(g, v, w) && Named(g, v, w, d, target, x)
    requires GInv(g, v, w', x, pend) && IsSlot(g, w', x)
    requires forall s :: IsSlot(g, w', s) ==> IsSlot(g, w, s) && DirOf(w', s.a) == DirOf(w, s.a)
    ensures NameFree(g, v, w', x, target) && FrontFull(g, v, w', x)
  {
    forall s | LiveAt(g, v, w', x, s) && DirOf(w', s.a) == DirOf(w', x.a) ensures Name(Ent(g, v, s)) != target {
      assert PairOk(g, v, w, NONE, s, x);
    }
    UsedFrontFull(g, v, w', x, x, pend);
  }
}
