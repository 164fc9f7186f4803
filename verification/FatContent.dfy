/** File contents as the concatenation of a chain's clusters, and what an operation leaves alone. */
module FatContent {
  import opened FatTable
  import opened Dirent
  import opened FatInvariant

  // ----- contents -----

  ghost predicate OnVolume(g: Geo, v: View, s: seq<int>) {
    && g.Ok() && |v.cl| == g.max
    && (forall a :: 2 <= a < g.max ==> |v.cl[a]| == g.ClusterSize())
    && (forall i :: 0 <= i < |s| ==> 2 <= s[i] < g.max)
  }

  /** The bytes a chain delivers. */
  ghost function Content(g: Geo, v: View, s: seq<int>): (r: Bytes)
    requires OnVolume(g, v, s)
    ensures |r| == |s| * g.ClusterSize()
  {
    if s == [] then [] else
      var n := |s| - 1;
      assert n * g.ClusterSize() + g.ClusterSize() == |s| * g.ClusterSize();
      Content(g, v, s[..n]) + v.cl[s[n]]
  }

  lemma ContentAppend(g: Geo, v: View, s: seq<int>, c: int)
    requires OnVolume(g, v, s + [c])
    ensures OnVolume(g, v, s) && 2 <= c < g.max && Content(g, v, s + [c]) == Content(g, v, s) + v.cl[c]
  {
    forall i | 0 <= i < |s| ensures 2 <= s[i] < g.max { assert (s + [c])[i] == s[i]; }
    assert (s + [c])[|s|] == c;
    assert (s + [c])[..|s|] == s;
  }

  lemma {:induction false} ContentFrame(g: Geo, v: View, v': View, s: seq<int>)
    requires OnVolume(g, v, s) && OnVolume(g, v', s)
    requires forall i :: 0 <= i < |s| ==> v'.cl[s[i]] == v.cl[s[i]]
    ensures Content(g, v', s) == Content(g, v, s)
  {
    if s != [] { ContentFrame(g, v, v', s[..|s| - 1]); }
  }

  lemma LastApart(a: seq<int>, b: seq<int>)
    requires b != []
    ensures var n := |b| - 1; a + b == (a + b[..n]) + [b[n]] && b == b[..n] + [b[n]]
  {
  }

  lemma AppendApart(a: Bytes, b: Bytes, c: Bytes)
    ensures (a + b) + c == a + (b + c)
  {
  }

  lemma {:induction false} ContentConcat(g: Geo, v: View, a: seq<int>, b: seq<int>)
    requires OnVolume(g, v, a) && OnVolume(g, v, b)
    ensures OnVolume(g, v, a + b) && Content(g, v, a + b) == Content(g, v, a) + Content(g, v, b)
  {
    if b == [] {
      assert a + b == a && Content(g, v, b) == [];
    } else {
      var n := |b| - 1;
      hide Content;
      ContentConcat(g, v, a, b[..n]);
      LastApart(a, b);
      ContentAppend(g, v, a + b[..n], b[n]);
      ContentAppend(g, v, b[..n], b[n]);
      AppendApart(Content(g, v, a), Content(g, v, b[..n]), v.cl[b[n]]);
    }
  }

  function Splice(b: Bytes, at: nat, data: Bytes): (r: Bytes)
    requires at + |data| <= |b|
    ensures |r| == |b|
    ensures forall i :: 0 <= i < |b| ==> r[i] == if at <= i < at + |data| then data[i - at] else b[i]
  {
    b[..at] + data + b[at + |data|..]
  }

  lemma ContentSplit(g: Geo, v: View, s: seq<int>, i: nat)
    requires OnVolume(g, v, s) && i < |s|
    ensures OnVolume(g, v, s[..i]) && OnVolume(g, v, s[i + 1..])
    ensures Content(g, v, s) == Content(g, v, s[..i]) + (v.cl[s[i]] + Content(g, v, s[i + 1..]))
    ensures |Content(g, v, s[..i])| == i * g.ClusterSize()
  {
    hide Content;
    var pre, post := s[..i], s[i + 1..];
    SplitAround(s, i);
    ContentOne(g, v, s[i]);
    ContentConcat(g, v, [s[i]], post);
    ContentConcat(g, v, pre, [s[i]] + post);
    ContentLength(g, v, pre);
  }

  lemma SplitAround(s: seq<int>, i: nat)
    requires i < |s|
    ensures s == s[..i] + ([s[i]] + s[i + 1..])
  {
  }

  lemma ContentOne(g: Geo, v: View, c: int)
    requires OnVolume(g, v, [c])
    ensures 2 <= c < g.max && Content(g, v, [c]) == v.cl[c]
  {
    ContentAppend(g, v, [], c);
    assert [] + [c] == [c];
  }

  lemma ContentLength(g: Geo, v: View, s: seq<int>)
    requires OnVolume(g, v, s)
    ensures |Content(g, v, s)| == |s| * g.ClusterSize()
  {
  }

  /** Splicing into cluster i of a chain without repetition splices into the contents. */
  lemma ContentSplice(g: Geo, v: View, s: seq<int>, i: nat, at: nat, data: Bytes)
    requires OnVolume(g, v, s) && i < |s| && at + |data| <= g.ClusterSize()
    requires forall j :: 0 <= j < |s| && j != i ==> s[j] != s[i]
    ensures i * g.ClusterSize() + at + |data| <= |s| * g.ClusterSize()
    ensures var v' := v.(cl := v.cl[s[i] := Splice(v.cl[s[i]], at, data)]);
            OnVolume(g, v', s) && Content(g, v', s) == Splice(Content(g, v, s), i * g.ClusterSize() + at, data)
  {
    var v' := v.(cl := v.cl[s[i] := Splice(v.cl[s[i]], at, data)]);
    ContentSplit(g, v, s, i);
    ContentSplit(g, v', s, i);
    ContentFrame(g, v, v', s[..i]);
    ContentFrame(g, v, v', s[i + 1..]);
    SpliceMiddle(Content(g, v, s[..i]), v.cl[s[i]], Content(g, v, s[i + 1..]), at, data);
    assert |Content(g, v, s)| == |s| * g.ClusterSize();
  }

  lemma SpliceMiddle(a: Bytes, b: Bytes, c: Bytes, at: nat, data: Bytes)
    requires at + |data| <= |b|
    ensures Splice(a + (b + c), |a| + at, data) == a + (Splice(b, at, data) + c)
  {
  }

  // ----- what stays as it was -----

  ghost predicate SameBut(b0: Bytes, b1: Bytes, k: int) {
    |b0| == |b1| && forall i :: 0 <= i < |b0| && !(SIZE * k <= i < SIZE * k + SIZE) ==> b1[i] == b0[i]
  }

  ghost predicate OtherCluster(g: Geo, v0: View, w0: Witness, v: View, w: Witness, f: int, x: Slot, c: int)
    requires Shape(g, v0, w0) && Shape(g, v, w) && 2 <= c < g.max
  {
    w0.home[c] != 0 && w0.home[c] !in Tree(g, w0, f) ==>
      && w.home[c] == w0.home[c] && w.pos[c] == w0.pos[c]
      && (if c == x.a then SameBut(v0.cl[c], v.cl[c], x.k) else v.cl[c] == v0.cl[c])
  }

  ghost predicate OtherHead(g: Geo, v0: View, w0: Witness, v: View, w: Witness, f: int, h: int)
    requires Shape(g, v0, w0) && Shape(g, v, w) && 2 <= h < g.max
  {
    h !in Tree(g, w0, f) && w0.chain[h] != [] ==>
      && w0.chain[h] <= w.chain[h] && w.owner[h] == w0.owner[h] && w.isDir[h] == w0.isDir[h] && w.depth[h] == w0.depth[h]
      && (!w0.isDir[h] ==> w.chain[h] == w0.chain[h])
  }

  /** From (v0, w0) to (v, w) only the entry in slot x and its old chain f, with everything below it, may
      have changed, apart from directories that have grown at their end. */
  ghost predicate Others(g: Geo, v0: View, w0: Witness, v: View, w: Witness, f: int, x: Slot) {
    && Shape(g, v0, w0) && Shape(g, v, w)
    && (if x.a == 0 then SameBut(v0.cl[0], v.cl[0], x.k) else v.cl[0] == v0.cl[0])
    && (forall c {:trigger OtherCluster(g, v0, w0, v, w, f, x, c)} :: 2 <= c < g.max ==> OtherCluster(g, v0, w0, v, w, f, x, c))
    && (forall h {:trigger OtherHead(g, v0, w0, v, w, f, h)} :: 2 <= h < g.max ==> OtherHead(g, v0, w0, v, w, f, h))
  }

  lemma OthersRefl(g: Geo, v: View, w: Witness, f: int, x: Slot)
    requires Shape(g, v, w)
    ensures Others(g, v, w, v, w, f, x)
  {
  }

  lemma OthersDetach(g: Geo, v: View, w: Witness, f: int, x: Slot)
    requires Shape(g, v, w)
    ensures Others(g, v, w, v, DetachW(g, w, f), f, x)
  {
    hide Tree, Strays;
  }

  /** Changes confined to the table and to clusters nobody owns. */
  lemma OthersPend(g: Geo, v0: View, w0: Witness, v: View, v': View, w: Witness, f: int, x: Slot)
    requires Others(g, v0, w0, v, w, f, x) && Shape(g, v', w)
    requires v'.cl[0] == v.cl[0] && forall c :: 2 <= c < g.max && w.home[c] != 0 ==> v'.cl[c] == v.cl[c]
    ensures Others(g, v0, w0, v', w, f, x)
  {
    hide Tree;
    forall c | 2 <= c < g.max ensures OtherCluster(g, v0, w0, v', w, f, x, c) { assert OtherCluster(g, v0, w0, v, w, f, x, c); }
    forall h | 2 <= h < g.max ensures OtherHead(g, v0, w0, v', w, f, h) { assert OtherHead(g, v0, w0, v, w, f, h); }
  }

  lemma SameButStore(b0: Bytes, b1: Bytes, k: nat, e: Bytes)
    requires SameBut(b0, b1, k) && SIZE * k + SIZE <= |b1| && |e| == SIZE
    ensures SameBut(b0, WithEntry(b1, k, e), k)
  {
  }

  lemma OthersStore(g: Geo, v0: View, w0: Witness, v: View, w: Witness, f: int, x: Slot, e: Bytes)
    requires Others(g, v0, w0, v, w, f, x) && IsSlot(g, w, x) && |e| == SIZE
    ensures Others(g, v0, w0, Store(g, v, x, e), w, f, x)
  {
    hide Tree;
    var v' := Store(g, v, x, e);
    StoreEnt(g, v, w, x, e, x);
    if x.a == 0 { SameButStore(v0.cl[0], v.cl[0], x.k, e); }
    forall c | 2 <= c < g.max ensures OtherCluster(g, v0, w0, v', w, f, x, c) {
      assert OtherCluster(g, v0, w0, v, w, f, x, c);
      if c == x.a && w0.home[c] != 0 && w0.home[c] !in Tree(g, w0, f) { SameButStore(v0.cl[c], v.cl[c], x.k, e); }
    }
    forall h | 2 <= h < g.max ensures OtherHead(g, v0, w0, v', w, f, h) { assert OtherHead(g, v0, w0, v, w, f, h); }
  }

  lemma OthersAttach(g: Geo, v0: View, w0: Witness, v: View, w: Witness, f: int, x: Slot, pend: seq<int>, dir: bool, dep: int)
    requires Others(g, v0, w0, v, w, f, x) && GInv(g, v, w, x, pend)
    requires |pend| > 0 ==> 0 <= pend[0] < g.max
    ensures Others(g, v0, w0, v, AttachW(g, w, pend, x, dir, dep), f, x)
  {
    hide Tree;
    if pend != [] { PendHead(g, v, w, x, pend); }
    var w' := AttachW(g, w, pend, x, dir, dep);
    forall c | 2 <= c < g.max ensures OtherCluster(g, v0, w0, v, w', f, x, c) {
      assert OtherCluster(g, v0, w0, v, w, f, x, c);
      if c in pend {
        var i :| 0 <= i < |pend| && pend[i] == c;
        PendAway(g, v, w, x, pend, i);
      }
    }
    forall h | 2 <= h < g.max ensures OtherHead(g, v0, w0, v, w', f, h) { assert OtherHead(g, v0, w0, v, w, f, h); }
  }

  lemma OthersGrow(g: Geo, v0: View, w0: Witness, v: View, w: Witness, f: int, x: Slot, d: int, c: int)
    requires Others(g, v0, w0, v, w, f, x) && GInv(g, v, w, NONE, [c]) && 2 <= d < g.max && w.isDir[d] && 2 <= c < g.max
    requires |w.chain[d]| > 0 && 2 <= w.chain[d][|w.chain[d]| - 1] < g.max
    ensures Others(g, v0, w0, GrowV(v, w, d, c), GrowW(w, d, c), f, x)
  {
    hide Tree;
    PendAway(g, v, w, NONE, [c], 0);
    var w' := GrowW(w, d, c);
    var v' := GrowV(v, w, d, c);
    assert Shape(g, v', w');
    forall b | 2 <= b < g.max ensures OtherCluster(g, v0, w0, v', w', f, x, b) { assert OtherCluster(g, v0, w0, v, w, f, x, b); }
    forall h | 2 <= h < g.max ensures OtherHead(g, v0, w0, v', w', f, h) { assert OtherHead(g, v0, w0, v, w, f, h); }
  }

  /** Every other entry keeps its record, and every other file its chain and all its bytes. */
  lemma OtherFileKept(g: Geo, v0: View, w0: Witness, v: View, w: Witness, f: int, x: Slot, s: Slot)
    requires Others(g, v0, w0, v, w, f, x) && Inv(g, v0, w0) && LiveAt(g, v0, w0, NONE, s) && s != x
    requires DirOf(w0, s.a) !in Tree(g, w0, f)
    ensures Ent(g, v, s) == Ent(g, v0, s)
    ensures var h := First(Ent(g, v0, s));
            h != 0 && h !in Tree(g, w0, f) && !IsDirectory(Ent(g, v0, s)) ==>
              && 2 <= h < g.max && w.chain[h] == w0.chain[h] && OnVolume(g, v0, w0.chain[h]) && OnVolume(g, v, w0.chain[h])
              && (x.a == 0 || (2 <= x.a < g.max && w0.home[x.a] != h) ==> Content(g, v, w.chain[h]) == Content(g, v0, w0.chain[h]))
  {
    hide Tree;
    if s.a != 0 { assert OtherCluster(g, v0, w0, v, w, f, x, s.a); }
    forall i | 0 <= i < SIZE ensures Ent(g, v, s)[i] == Ent(g, v0, s)[i] {
      assert Ent(g, v, s)[i] == v.cl[s.a][SIZE * s.k + i];
    }
    var h := First(Ent(g, v0, s));
    assert SlotOk(g, v0, w0, NONE, s);
    if h != 0 && h !in Tree(g, w0, f) && !IsDirectory(Ent(g, v0, s)) {
      assert OtherHead(g, v0, w0, v, w, f, h);
      var ch := w0.chain[h];
      forall i | 0 <= i < |ch| ensures 2 <= ch[i] < g.max && w0.home[ch[i]] == h { ChainMember(g, v0, w0, NONE, [], h, i); }
      if x.a == 0 || (2 <= x.a < g.max && w0.home[x.a] != h) {
        forall i | 0 <= i < |ch| ensures v.cl[ch[i]] == v0.cl[ch[i]] { assert OtherCluster(g, v0, w0, v, w, f, x, ch[i]); }
        ContentFrame(g, v0, v, ch);
      }
    }
  }
}
