/** fat_write_at: part of a file is overwritten, and the file grows when the part lies behind its end. */
module FatWriteAt {
  import opened Bits
  import opened FatTable
  import opened FatBuffer
  import opened Dirent
  import opened FatInvariant
  import opened FatContent
  import opened FatDisk
  import opened FatPath
  import opened FatUpdate
  import opened FatUnique
  import opened FatVolume
  import opened FatFiles
  import opened FatWrite

  // ----- contents -----

  /** raw with the data in place from offset on. */
  function Patch(raw: Bytes, offset: nat, data: Bytes): (r: Bytes)
    ensures |r| == |raw|
    ensures forall i :: 0 <= i < |raw| ==> r[i] == if offset <= i < offset + |data| then data[i - offset] else raw[i]
  {
    seq(|raw|, i requires 0 <= i < |raw| => if offset <= i < offset + |data| then data[i - offset] else raw[i])
  }

  lemma PatchMore(raw: Bytes, offset: nat, data: Bytes, done: nat, n: nat)
    requires done + n <= |data| && offset + done + n <= |raw|
    ensures Splice(Patch(raw, offset, data[..done]), offset + done, data[done..done + n]) == Patch(raw, offset, data[..done + n])
  {
  }

  lemma PatchLonger(raw: Bytes, offset: nat, data: Bytes, more: Bytes)
    requires data == [] || offset + |data| <= |raw|
    ensures Patch(raw + more, offset, data) == Patch(raw, offset, data) + more
  {
  }

  // ----- the chain under way -----

  /** A write in progress: the volume before it, the first cluster f, slot x and name of the file, what is
      to be written where, and the volume v1 in which the chain was still pend0. */
  datatype Job = Job(v0: View, w0: Witness, f: int, x: Slot, name: Bytes, pend0: seq<int>, offset: nat, data: Bytes, v1: View)

  /** pend is the old chain, lengthened by the lowest free clusters as far as the write has come; its
      clusters hold what they held before the write, with the first done bytes of the data in place. */
  ghost predicate OnJob(g: Geo, j: Job, v: View, w: Witness, pend: seq<int>, done: nat) {
    && Mid(g, j.v0, j.w0, v, w, j.f, j.x, j.name, pend)
    && j.pend0 <= pend && OnVolume(g, v, pend) && OnVolume(g, j.v1, pend)
    && done <= |j.data| && (done == 0 || j.offset + done <= |pend| * g.ClusterSize())
    && Content(g, v, pend) == Patch(Content(g, j.v1, pend), j.offset, j.data[..done])
    && (forall c :: 2 <= c < g.max && c !in pend ==> v.cl[c] == j.v1.cl[c])
    && FreeList(j.v1.t, 2) == pend[|j.pend0|..] + FreeList(v.t, 2)
  }

  lemma JobExtend(g: Geo, j: Job, v: View, w: Witness, pend: seq<int>, done: nat, c: nat)
    requires OnJob(g, j, v, w, pend, done) && 2 <= c < g.max && |v.t| >= 2 && c == FirstFree(v.t, 2) && v.t[c] == FREE
    ensures |pend| > 0 ==> 2 <= pend[|pend| - 1] < g.max
    ensures OnJob(g, j, v.(t := Extended(v.t, pend, c)), w, pend + [c], done)
  {
    if pend != [] { PendAway(g, v, w, j.x, pend, |pend| - 1); }
    FreeHead(v.t, Extended(v.t, pend, c), 2, c);
    HeadMoves(j.pend0, pend, c, FreeList(v.t, 2), FreeList(Extended(v.t, pend, c), 2));
    MidExtend(g, j.v0, j.w0, v, w, j.f, j.x, j.name, pend, c);
    ContentAppend(g, j.v1, pend, c);
    PatchLonger(Content(g, j.v1, pend), j.offset, j.data[..done], j.v1.cl[c]);
    assert c !in pend by {
      if c in pend { var i :| 0 <= i < |pend| && pend[i] == c; PendAway(g, v, w, j.x, pend, i); }
    }
  }

  lemma HeadMoves(pend0: seq<int>, pend: seq<int>, c: int, free: seq<int>, free': seq<int>)
    requires pend0 <= pend && free == [c] + free'
    ensures pend[|pend0|..] + free == (pend + [c])[|pend0|..] + free'
  {
  }

  /** The next n bytes of the data go to position at of the i-th cluster. */
  lemma JobWrite(g: Geo, j: Job, v: View, w: Witness, pend: seq<int>, done: nat, i: nat, at: nat, n: nat)
    requires OnJob(g, j, v, w, pend, done)
    requires i < |pend| && done + n <= |j.data| && at + n <= g.ClusterSize() && j.offset + done == i * g.ClusterSize() + at
    ensures 2 <= pend[i] < g.max && |v.cl[pend[i]]| == g.ClusterSize()
    ensures OnJob(g, j, v.(cl := v.cl[pend[i] := Splice(v.cl[pend[i]], at, j.data[done..done + n])]), w, pend, done + n)
  {
    MidWrite(g, j.v0, j.w0, v, w, j.f, j.x, j.name, pend, i, at, j.data[done..done + n]);
    PatchMore(Content(g, j.v1, pend), j.offset, j.data, done, n);
  }

  // ----- the loops -----

  /** The chain is no longer than before, or ends at index i. */
  ghost predicate Reach(j: Job, pend: seq<int>, i: int) {
    |pend| == |j.pend0| || |pend| == i + 1
  }

  /** The first cluster of the chain; one is taken when the file has none. */
  method FirstCluster(vol: Volume, first: nat, ghost j: Job, ghost pend: seq<int>) returns (r: int, cluster: nat, ghost pend': seq<int>)
    requires vol.Ready() && OnJob(vol.l.G(), j, vol.V(), vol.w, pend, 0) && first == Head(pend)
    modifies vol.fat.buf
    ensures vol.Ready() && (r == 0 || r == 3)
    ensures OnJob(vol.l.G(), j, vol.V(), vol.w, pend', 0)
    ensures r == 0 ==> pend' != [] && cluster == pend'[0] && (pend == j.pend0 ==> Reach(j, pend', 0))
    ensures r == 3 ==> pend' == pend == [] && Room(vol.V().t) == 0
  {
    ghost var g, v := vol.l.G(), vol.V();
    r, cluster, pend' := 0, first, pend;
    if pend != [] { PendAway(g, v, vol.w, j.x, pend, 0); }
    if first < 2 {
      UsedLimit(v.t, 2);
      cluster := vol.fat.AllocCluster();
      if cluster == 0 {
        r := 3;
        return;
      }
      JobExtend(g, j, v, vol.w, pend, 0, cluster);
      assert vol.V() == v.(t := Extended(v.t, pend, cluster));
      pend' := pend + [cluster];
    }
  }

  /** The cluster after pend[i]: the linked one, or a new one when the chain ends there. */
  method Advance(vol: Volume, cluster: nat, ghost j: Job, ghost pend: seq<int>, ghost done: nat, ghost i: nat)
    returns (r: int, next: nat, ghost pend': seq<int>)
    requires vol.Ready() && OnJob(vol.l.G(), j, vol.V(), vol.w, pend, done) && i < |pend| && cluster == pend[i]
    modifies vol.fat.buf
    ensures vol.Ready() && (r == 0 || r == 3)
    ensures OnJob(vol.l.G(), j, vol.V(), vol.w, pend', done)
    ensures r == 0 ==> i + 1 < |pend'| && next == pend'[i + 1] && (Reach(j, pend, i) ==> Reach(j, pend', i + 1)) && pend <= pend'
    ensures r == 3 ==> pend' == pend && |pend| == i + 1 && Room(vol.V().t) == 0
  {
    hide Others, Untouched, NameFree, FrontFull;
    ghost var g, v := vol.l.G(), vol.V();
    pend' := pend;
    PendAway(g, v, vol.w, j.x, pend, i);
    assert Links(v.t, pend, i);
    if i + 1 < |pend| { PendAway(g, v, vol.w, j.x, pend, i + 1); }
    r := 0;
    next := vol.fat.Next(cluster);
    if next == FREE || next >= EOC {
      UsedLimit(v.t, 2);
      next := vol.fat.AllocLinked(cluster);
      if next == 0 {
        r := 3;
        return;
      }
      JobExtend(g, j, v, vol.w, pend, done, next);
      assert vol.V() == v.(t := Extended(v.t, pend, next));
      pend' := pend + [next];
    }
  }

  /** Follow the chain to index start, lengthening it on the way. */
  method SkipTo(vol: Volume, first: nat, start: nat, ghost j: Job, ghost pend0: seq<int>) returns (r: int, cluster: nat, ghost pend: seq<int>)
    requires vol.Ready() && OnJob(vol.l.G(), j, vol.V(), vol.w, pend0, 0) && pend0 != [] && first == pend0[0] && Reach(j, pend0, 0)
    modifies vol.fat.buf
    ensures vol.Ready() && (r == 0 || r == 3)
    ensures OnJob(vol.l.G(), j, vol.V(), vol.w, pend, 0)
    ensures r == 0 ==> start < |pend| && cluster == pend[start] && Reach(j, pend, start) && pend0 <= pend
    ensures r == 3 ==> pend != [] && |pend| <= start && Room(vol.V().t) == 0
  {
    hide OnJob, Reach;
    r, cluster, pend := 0, first, pend0;
    var i := 0;
    while i < start && r == 0
      invariant i <= start && vol.Ready() && OnJob(vol.l.G(), j, vol.V(), vol.w, pend, 0) && pend != []
      invariant if r == 0 then i < |pend| && cluster == pend[i] && Reach(j, pend, i) && pend0 <= pend else r == 3 && |pend| <= i && Room(vol.V().t) == 0
    {
      r, cluster, pend := Advance(vol, cluster, j, pend, 0, i);
      i := i + 1;
    }
  }

  /** One cluster: fetch it when only a part is replaced, put the next bytes in, write it. */
  method PutPart(vol: Volume, cluster: nat, at: nat, n: nat, data: Bytes, done: nat, ghost j: Job, ghost pend: seq<int>, ghost i: nat) returns (err: bool)
    requires vol.Ready() && OnJob(vol.l.G(), j, vol.V(), vol.w, pend, done) && data == j.data
    requires i < |pend| && cluster == pend[i]
    requires done + n <= |data| && at + n <= vol.l.G().ClusterSize() && j.offset + done == i * vol.l.G().ClusterSize() + at
    modifies vol.dsk
    ensures vol.Ready()
    ensures !err ==> OnJob(vol.l.G(), j, vol.V(), vol.w, pend, done + n)
    ensures err ==> vol.dsk.faulty
  {
    ghost var g, v := vol.l.G(), vol.V();
    JobWrite(g, j, v, vol.w, pend, done, i, at, n);
    var size := SECTOR * vol.l.sectorsPerCluster;
    var buf := seq(size, _ => 0);
    if at != 0 || n < size {
      err, buf := vol.ReadCluster(cluster);
      if err {
        return;
      }
    }
    var b := Splice(buf, at, data[done..done + n]);
    assert b == Splice(v.cl[pend[i]], at, data[done..done + n]);
    err := vol.WriteCluster(cluster, b);
  }

  /** Byte offset + done of the file is byte at of cluster idx, and there is something left to write. */
  ghost predicate Here(cs: nat, offset: nat, len: nat, done: nat, idx: nat, at: nat) {
    done < len && at < cs && offset + done == idx * cs + at
  }

  /** The last byte of the range lies in cluster end. */
  ghost predicate EndsIn(cs: nat, offset: nat, len: nat, end: nat) {
    end * cs <= offset + len - 1 < (end + 1) * cs
  }

  function PartSize(cs: nat, len: nat, done: nat, at: nat): (r: nat)
    requires done <= len && at <= cs
    ensures done + r <= len && at + r <= cs
  {
    if len - done < cs - at then len - done else cs - at
  }

  /** After one part the write goes on at the start of the next cluster, or it is complete. */
  lemma PartStep(cs: nat, offset: nat, len: nat, done: nat, idx: nat, at: nat, end: nat)
    requires Here(cs, offset, len, done, idx, at) && EndsIn(cs, offset, len, end)
    ensures 0 < PartSize(cs, len, done, at) && idx <= end
    ensures idx < end ==> Here(cs, offset, len, done + PartSize(cs, len, done, at), idx + 1, 0)
    ensures idx == end ==> done + PartSize(cs, len, done, at) == len
  {
    assert (idx + 1) * cs == idx * cs + cs;
    if idx > end { MulMono(end + 1, idx, cs); }
    if idx < end { MulMono(idx + 1, end, cs); }
  }

  /** The write loop, from cluster index start to end. */
  method PutParts(vol: Volume, first: nat, start: nat, end: nat, at0: nat, data: Bytes, ghost j: Job, ghost pend0: seq<int>)
    returns (r: int, ghost pend: seq<int>, ghost written: nat)
    requires vol.Ready() && OnJob(vol.l.G(), j, vol.V(), vol.w, pend0, 0) && data == j.data
    requires start < |pend0| && first == pend0[start] && Reach(j, pend0, start)
    requires Here(vol.l.G().ClusterSize(), j.offset, |data|, 0, start, at0) && start <= end
    requires EndsIn(vol.l.G().ClusterSize(), j.offset, |data|, end)
    modifies vol.fat.buf, vol.dsk
    ensures vol.Ready() && (r == 0 || r == 1 || r == 3)
    ensures r != 1 ==> OnJob(vol.l.G(), j, vol.V(), vol.w, pend, written)
    ensures r == 0 ==> written == |data| && end < |pend| && Reach(j, pend, end) && pend0 <= pend
    ensures r == 3 ==> pend != [] && |pend| <= end && Room(vol.V().t) == 0
    ensures r == 1 ==> vol.dsk.faulty
  {
    hide OnJob, Reach;
    var cs := SECTOR * vol.l.sectorsPerCluster;
    var idx, at, done, cluster := start, at0, 0, first;
    r, pend, written := 0, pend0, 0;
    while idx <= end && r == 0
      invariant vol.Ready() && OnJob(vol.l.G(), j, vol.V(), vol.w, pend, done) && pend != [] && written == done
      invariant r == 0 && idx <= end ==> Here(cs, j.offset, |data|, done, idx, at) && idx < |pend| && cluster == pend[idx] && Reach(j, pend, idx) && pend0 <= pend
      invariant r == 0 && idx > end ==> idx == end + 1 && done == |data| && end < |pend| && Reach(j, pend, end) && pend0 <= pend
      invariant r != 0 ==> r == 3 && |pend| <= idx <= end && Room(vol.V().t) == 0
      decreases end + 1 - idx
    {
      PartStep(cs, j.offset, |data|, done, idx, at, end);
      var n := PartSize(cs, |data|, done, at);
      var err := PutPart(vol, cluster, at, n, data, done, j, pend, idx);
      if err {
        return 1, pend, done;
      }
      done, at := done + n, 0;
      written := done;
      if idx < end {
        r, cluster, pend := Advance(vol, cluster, j, pend, done, idx);
      }
      idx := idx + 1;
    }
  }

  // ----- fat_write_at -----

  function Max(a: int, b: int): int { if a < b then b else a }

  /** A chain lengthened no further than the write needs is as long as the new size asks for. */
  lemma NewLength(n0: nat, n: nat, oldSize: int, offset: nat, len: nat, end: nat, cs: nat)
    requires cs > 0 && len > 0 && EndsIn(cs, offset, len, end)
    requires if n0 == 0 then oldSize == 0 else CeilIs(n0, oldSize, cs)
    requires n0 <= n && end < n && (n == n0 || n == end + 1)
    ensures CeilIs(n, Max(oldSize, offset + len), cs)
  {
    MulMono(end + 1, n, cs);
    if n == end + 1 {
      MulMono(n0, n, cs);
      if n0 < n { MulMono(n0, end, cs); }
    }
  }

  lemma LongerNotCeil(n0: nat, n: nat, size: int, cs: nat)
    requires CeilIs(n0, size, cs) && n0 < n
    ensures !CeilIs(n, size, cs)
  {
    MulMono(n0, n - 1, cs);
  }

  /** The entry the write starts from. */
  ghost predicate Base(g: Geo, v0: View, w0: Witness, path: Bytes, name: Bytes, ent: Bytes)
    requires Shape(g, v0, w0)
  {
    var x0 := FileSlot(g, v0, w0, path);
    |name| == NAME_LEN && ent == if x0 != NONE then Ent(g, v0, x0) else Make(name, ATTR_ARCHIVE, 0, 0)
  }

  /** The free clusters suffice to lengthen the file up to byte reach. */
  ghost predicate ReachFits(g: Geo, v: View, w: Witness, path: Bytes, reach: nat)
    requires Shape(g, v, w) && reach > 0
  {
    (reach - 1) / g.ClusterSize() + 1 <= FileCount(g, v, w, path) + Room(v.t) - Growth(g, v, w, path)
  }

  /** The clusters of the file a path denotes, in order; none when there is no file. */
  ghost function OldChain(g: Geo, v: View, w: Witness, path: Bytes): (r: seq<int>)
    requires Shape(g, v, w)
    ensures |r| == FileCount(g, v, w, path)
  {
    var x := FileSlot(g, v, w, path);
    if x == NONE then [] else EntryChain(g, w, Ent(g, v, x))
  }

  /** The clusters of the file after a write up to byte reach: the old ones and, behind them, the lowest
      free ones, except the one by which its directory may have to grow first. */
  ghost function NewChain(g: Geo, v: View, w: Witness, path: Bytes, reach: nat): seq<int>
    requires Shape(g, v, w) && reach > 0 && ReachFits(g, v, w, path, reach)
  {
    var chain, n := OldChain(g, v, w, path), (reach - 1) / g.ClusterSize() + 1;
    FreeCount(v.t, 2);
    if n <= |chain| then chain else chain + FreeList(v.t, 2)[Growth(g, v, w, path)..Growth(g, v, w, path) + n - |chain|]
  }

  /** The result of a successful fat_write_at. The chain is lengthened as far as the range reaches and its
      clusters hold what they held before, with the data in its place: so when the file was shorter than
      offset, the bytes between its old end and offset are those the clusters held before. */
  ghost predicate Overwritten(g: Geo, v0: View, w0: Witness, v: View, w: Witness, path: Bytes, offset: nat, data: Bytes)
    requires Shape(g, v0, w0) && Shape(g, v, w)
  {
    var x := FileSlot(g, v, w, path);
    x != NONE && OverwrittenBy(g, v0, w0, v, w, path, offset, data, Ent(g, v, x))
  }

  ghost predicate OverwrittenBy(g: Geo, v0: View, w0: Witness, v: View, w: Witness, path: Bytes, offset: nat, data: Bytes, e: Bytes)
    requires Shape(g, v0, w0) && Shape(g, v, w) && |e| == SIZE
  {
    var x0 := FileSlot(g, v0, w0, path);
    var chain := EntryChain(g, w, e);
    && data != [] && ReachFits(g, v0, w0, path, offset + |data|) && chain == NewChain(g, v0, w0, path, offset + |data|)
    && OnVolume(g, v, chain) && OnVolume(g, v0, chain)
    && Content(g, v, chain) == Patch(Content(g, v0, chain), offset, data)
    && Updated(g, v0, w0, v, w, path, e, Content(g, v, chain))
    && First(e) >= 0 && |Resolve(g, v0, w0, path).name| == NAME_LEN
    && e == if x0 != NONE then WithFields(Ent(g, v0, x0), First(e), Max(FileSize(Ent(g, v0, x0)), offset + |data|))
            else Make(Resolve(g, v0, w0, path).name, ATTR_ARCHIVE, First(e), offset + |data|)
  }

  lemma FitsIfReached(g: Geo, j: Job, v: View, w: Witness, pend: seq<int>, done: nat, end: nat, path: Bytes)
    requires Shape(g, j.v0, j.w0) && OnJob(g, j, v, w, pend, done) && |j.v1.t| == g.max && Room(j.v1.t) == Room(j.v0.t) - Growth(g, j.v0, j.w0, path)
    requires EndsIn(g.ClusterSize(), j.offset, |j.data|, end) && j.data != [] && j.pend0 == OldChain(g, j.v0, j.w0, path)
    ensures end < |pend| && Reach(j, pend, end) ==> ReachFits(g, j.v0, j.w0, path, j.offset + |j.data|)
    ensures |pend| <= end && Room(v.t) == 0 ==> !ReachFits(g, j.v0, j.w0, path, j.offset + |j.data|)
    ensures Room(v.t) + |pend| == Room(j.v0.t) - Growth(g, j.v0, j.w0, path) + FileCount(g, j.v0, j.w0, path)
  {
    hide Others, Untouched, NameFree, FrontFull, Content, Patch, Growth, EntryChain, FileSlot, Strays;
    DivIs(j.offset + |j.data| - 1, g.ClusterSize(), end);
    FreeCount(v.t, 2);
    FreeCount(j.v1.t, 2);
  }

  /** The chain of a completed write, in terms of the volume before it. */
  lemma ChainIs(g: Geo, j: Job, v: View, w: Witness, pend: seq<int>, end: nat, path: Bytes)
    requires Shape(g, j.v0, j.w0) && OnJob(g, j, v, w, pend, |j.data|) && j.data != [] && end < |pend| && Reach(j, pend, end)
    requires EndsIn(g.ClusterSize(), j.offset, |j.data|, end) && ReachFits(g, j.v0, j.w0, path, j.offset + |j.data|)
    requires Took(j.v0, j.v1, Growth(g, j.v0, j.w0, path)) && j.pend0 == OldChain(g, j.v0, j.w0, path)
    requires j.pend0 != [] ==> j.v1 == j.v0
    ensures pend == NewChain(g, j.v0, j.w0, path, j.offset + |j.data|)
    ensures OnVolume(g, j.v0, pend) && OnVolume(g, j.v1, pend) && Content(g, j.v1, pend) == Content(g, j.v0, pend)
  {
    hide OnJob, Content, NewChain, FreeList, OldChain, Growth, Took;
    JobList(g, j, v, w, pend, |j.data|);
    TookList(j.v0, j.v1, Growth(g, j.v0, j.w0, path));
    NewChainAt(g, j.v0, j.w0, path, j.offset + |j.data|, end);
    TakenFromList(FreeList(j.v0.t, 2), Growth(g, j.v0, j.w0, path), j.pend0, pend, FreeList(v.t, 2), end);
    SameClusters(g, j, v, w, pend, path);
  }

  lemma JobList(g: Geo, j: Job, v: View, w: Witness, pend: seq<int>, done: nat)
    requires OnJob(g, j, v, w, pend, done)
    ensures j.pend0 <= pend && FreeList(j.v1.t, 2) == pend[|j.pend0|..] + FreeList(v.t, 2)
    ensures OnVolume(g, v, pend) && OnVolume(g, j.v1, pend)
  {
  }

  lemma TookList(v0: View, v: View, n: nat)
    requires Took(v0, v, n)
    ensures n <= |FreeList(v0.t, 2)| && FreeList(v.t, 2) == FreeList(v0.t, 2)[n..] && |v0.cl| == |v.cl|
  {
  }

  /** The chain of a file written up to a byte in cluster number end. */
  lemma NewChainAt(g: Geo, v: View, w: Witness, path: Bytes, reach: nat, end: nat)
    requires Shape(g, v, w) && reach > 0 && ReachFits(g, v, w, path, reach) && end * g.ClusterSize() <= reach - 1 < (end + 1) * g.ClusterSize()
    ensures var chain, free, m := OldChain(g, v, w, path), FreeList(v.t, 2), Growth(g, v, w, path);
            NewChain(g, v, w, path, reach)
            == if end < |chain| then chain else if m + end + 1 - |chain| <= |free| then chain + free[m..m + end + 1 - |chain|] else []
  {
    hide Resolve, EntryChain, FileSlot, FreeList;
    assert (end + 1) * g.ClusterSize() == end * g.ClusterSize() + g.ClusterSize();
    DivIs(reach - 1, g.ClusterSize(), end);
    FreeCount(v.t, 2);
  }

  lemma TakenFromList(free: seq<int>, m: nat, pend0: seq<int>, pend: seq<int>, rest: seq<int>, end: nat)
    requires m <= |free| && pend0 <= pend && free[m..] == pend[|pend0|..] + rest
    requires end < |pend| && (|pend| == |pend0| || |pend| == end + 1)
    ensures end >= |pend0| ==> m + end + 1 - |pend0| <= |free|
    ensures pend == if end < |pend0| then pend0 else pend0 + free[m..m + end + 1 - |pend0|]
  {
    var k := |pend| - |pend0|;
    assert free[m..m + k] == free[m..][..k];
    assert pend == pend0 + pend[|pend0|..];
  }

  lemma SameClusters(g: Geo, j: Job, v: View, w: Witness, pend: seq<int>, path: Bytes)
    requires Shape(g, j.v0, j.w0) && OnJob(g, j, v, w, pend, |j.data|) && Took(j.v0, j.v1, Growth(g, j.v0, j.w0, path))
    requires j.pend0 != [] ==> j.v1 == j.v0
    ensures OnVolume(g, j.v0, pend) && OnVolume(g, j.v1, pend) && Content(g, j.v1, pend) == Content(g, j.v0, pend)
  {
    hide OnJob, FreeList, Growth, Content;
    JobList(g, j, v, w, pend, |j.data|);
    FreeMembers(j.v1.t, 2);
    forall i | 0 <= i < |pend| ensures j.v1.cl[pend[i]] == j.v0.cl[pend[i]] {
      if j.pend0 == [] { assert pend[i] == (pend[0..] + FreeList(v.t, 2))[i] && pend[i] in FreeList(j.v1.t, 2); }
    }
    ContentFrame(g, j.v0, j.v1, pend);
  }

  lemma NoPlaceToReach(g: Geo, v: View, w: Witness, path: Bytes, offset: nat, len: nat)
    requires Shape(g, v, w) && len > 0
    ensures NoWay(g, v, w, path) || Resolve(g, v, w, path) == Root ==> !HasPlace(g, v, w, path)
    ensures DirectoryFull(g, v, w, path) && Room(v.t) == 0 ==> !ReachFits(g, v, w, path, offset + len)
  {
    hide Resolve, GInv, Room;
    if DirectoryFull(g, v, w, path) && Room(v.t) == 0 {
      Quotient(offset + len - 1, g.ClusterSize());
    }
  }

  lemma Quotient(a: nat, d: nat)
    requires d > 0
    ensures a / d >= 0
  {
  }

  /** The result of fat_write_at when the disk is full: every free cluster has been taken, for the
      directory if it had to grow and otherwise for the file, and none is given back. So the volume is
      consistent exactly when it was and there was none to take for the file. No other file is touched. */
  ghost predicate Leaked(g: Geo, v0: View, w0: Witness, v: View, w: Witness, path: Bytes)
    requires Shape(g, v0, w0)
  {
    && Room(v.t) == 0
    && (VolumeOk(g, v) <==> VolumeOk(g, v0) && Room(v0.t) == Growth(g, v0, w0, path))
    && RestKept(g, v0, w0, v, w, path)
  }

  lemma StoppedAt(g: Geo, j: Job, v: View, w: Witness, pend: seq<int>, done: nat, path: Bytes, d: int)
    requires OnJob(g, j, v, w, pend, done) && Underway(g, j.v0, j.w0, v, w, path, d, j.name, j.x, pend)
    requires !DirectoryTarget(g, j.v0, j.w0, path) && j.pend0 == OldChain(g, j.v0, j.w0, path)
    ensures VolumeOk(g, v) <==> VolumeOk(g, j.v0) && |pend| == |j.pend0|
  {
    hide Others, Untouched, NameFree, FrontFull, Content, Patch, Strays, Tree, FreeList;
    PlainStop(g, j.v0, j.w0, v, w, path, d, j.name, j.x, pend);
    if pend != [] { PendAway(g, v, w, j.x, pend, 0); }
    assert |pend| == |j.pend0| ==> pend == j.pend0;
    if FileSlot(g, j.v0, j.w0, path) != NONE {
      var e := Ent(g, j.v0, j.x);
      if First(e) != 0 {
        assert HeadOk(g, j.v0, j.w0, NONE, First(e));
        if |j.pend0| < |pend| { LongerNotCeil(|j.pend0|, |pend|, FileSize(e), g.ClusterSize()); }
      }
    }
  }

  lemma LeakedNow(g: Geo, j: Job, v: View, w: Witness, pend: seq<int>, done: nat, path: Bytes, d: int)
    requires OnJob(g, j, v, w, pend, done) && Underway(g, j.v0, j.w0, v, w, path, d, j.name, j.x, pend) && Room(v.t) == 0
    requires !DirectoryTarget(g, j.v0, j.w0, path) && j.pend0 == OldChain(g, j.v0, j.w0, path)
    requires |j.v1.t| == g.max && Room(j.v1.t) == Room(j.v0.t) - Growth(g, j.v0, j.w0, path)
    ensures Leaked(g, j.v0, j.w0, v, w, path)
  {
    StoppedAt(g, j, v, w, pend, done, path, d);
    FreeCount(v.t, 2);
    FreeCount(j.v1.t, 2);
    hide RestKept, VolumeOk, Growth;
    RestIsKept(g, j.v0, j.w0, v, w, path, d, j.name, j.x, pend);
  }

  /** The data part of fat_write_at: the chain is lengthened as far as the write needs, and no further. */
  method PutData(vol: Volume, first0: nat, offset: nat, data: Bytes, ghost j: Job, ghost pend0: seq<int>)
    returns (r: int, first: nat, ghost pend: seq<int>, ghost written: nat, ghost end: nat)
    requires vol.Ready() && OnJob(vol.l.G(), j, vol.V(), vol.w, pend0, 0) && pend0 == j.pend0 && first0 == Head(pend0)
    requires data != [] && data == j.data && offset == j.offset
    modifies vol.fat.buf, vol.dsk
    ensures vol.Ready() && (r == 0 || r == 1 || r == 3)
    ensures r != 1 ==> OnJob(vol.l.G(), j, vol.V(), vol.w, pend, written)
    ensures EndsIn(vol.l.G().ClusterSize(), offset, |data|, end)
    ensures r == 0 ==> written == |data| && end < |pend| && Reach(j, pend, end) && first == pend[0]
    ensures r == 3 ==> Room(vol.V().t) == 0 && |pend| <= end
    ensures r == 1 ==> vol.dsk.faulty
  {
    hide OnJob, Reach, EndsIn;
    var cs := SECTOR * vol.l.sectorsPerCluster;
    WriteRange(offset, |data|, cs);
    var start, last := offset / cs, (offset + |data| - 1) / cs;
    end, written := last, 0;
    r, first, pend := FirstCluster(vol, first0, j, pend0);
    if r != 0 {
      return;
    }
    var cluster;
    r, cluster, pend := SkipTo(vol, first, start, j, pend);
    if r != 0 {
      return;
    }
    r, pend, written := PutParts(vol, cluster, start, last, offset % cs, data, j, pend);
  }

  lemma WriteRange(offset: nat, len: nat, cs: nat)
    requires cs > 0 && len > 0
    ensures 0 <= offset / cs && 0 <= (offset + len - 1) / cs
    ensures Here(cs, offset, len, 0, offset / cs, offset % cs) && offset / cs <= (offset + len - 1) / cs
    ensures EndsIn(cs, offset, len, (offset + len - 1) / cs)
  {
    var e := (offset + len - 1) / cs;
    assert (e + 1) * cs == e * cs + cs;
    if e < offset / cs { MulMono(e + 1, offset / cs, cs); }
  }

  lemma {:induction false} DistinctBound(s: seq<int>, n: nat)
    requires forall i :: 0 <= i < |s| ==> 0 <= s[i] < n
    requires forall i, j :: 0 <= i < j < |s| ==> s[i] != s[j]
    ensures |s| <= n
    decreases n
  {
    if s != [] {
      assert 0 <= s[0] < n;
      if n - 1 in s {
        var k :| 0 <= k < |s| && s[k] == n - 1;
        DistinctBound(s[..k] + s[k + 1..], n - 1);
      } else {
        DistinctBound(s, n - 1);
      }
    }
  }

  /** A size on the volume fits its 32-bit field. */
  lemma SizeBound(g: Geo, v: View, w: Witness, x: Slot)
    requires Inv(g, v, w) && LiveAt(g, v, w, NONE, x) && g.perCluster < 4096
    ensures 0 <= FileSize(Ent(g, v, x)) < 0x2000_0000
  {
    var f := First(Ent(g, v, x));
    assert SlotOk(g, v, w, NONE, x);
    if f != 0 && !IsDirectory(Ent(g, v, x)) {
      ChainBound(g, v, w, f);
      SmallProduct(|w.chain[f]|, g.ClusterSize());
      MulMono(0, |w.chain[f]| - 1, g.ClusterSize());
    }
  }

  lemma ChainBound(g: Geo, v: View, w: Witness, h: int)
    requires Inv(g, v, w) && 2 <= h < g.max
    ensures |w.chain[h]| <= g.max
  {
    var s := w.chain[h];
    assert HeadOk(g, v, w, NONE, h);
    forall i | 0 <= i < |s| ensures 0 <= s[i] < g.max { ChainMember(g, v, w, NONE, [], h, i); }
    forall i, j | 0 <= i < j < |s| ensures s[i] != s[j] { ChainDistinct(v.t, s, i, j); }
    DistinctBound(s, g.max);
  }

  lemma SmallProduct(n: nat, cs: nat)
    requires n <= 3072 && cs < 131072
    ensures n * cs < 0x2000_0000
  {
    MulMono(n, 3072, cs);
  }

  lemma PlainFile(g: Geo, v: View, w: Witness, path: Bytes, d: int, name: Bytes)
    requires Shape(g, v, w) && PlainTarget(g, v, w, path) && Resolve(g, v, w, path) == At(d, name) && FileSlot(g, v, w, path) != NONE
    ensures var y := FileSlot(g, v, w, path); LiveAt(g, v, w, NONE, y) && !IsDirectory(Ent(g, v, y)) && Name(Ent(g, v, y)) == name
  {
  }

  lemma SlotOkAt(g: Geo, v: View, w: Witness, y: Slot)
    requires Inv(g, v, w)
    ensures Shape(g, v, w) && SlotOk(g, v, w, NONE, y)
  {
  }

  /** The entry a write starts from: its size fits the old chain. */
  lemma BaseOk(g: Geo, v0: View, w0: Witness, path: Bytes, d: int, name: Bytes, ent: Bytes, pend0: seq<int>)
    requires Inv(g, v0, w0) && PlainTarget(g, v0, w0, path) && Resolve(g, v0, w0, path) == At(d, name)
    requires |ent| == SIZE && |name| == NAME_LEN && name[0] != DOT && Base(g, v0, w0, path, name, ent) && g.perCluster < 4096
    requires pend0 == OldChain(g, v0, w0, path)
    ensures Live(ent) && !IsDirectory(ent) && Name(ent) == name && 0 <= FileSize(ent) < WORD
    ensures if pend0 == [] then FileSize(ent) == 0 else CeilIs(|pend0|, FileSize(ent), g.ClusterSize())
  {
    hide GInv, PlainTarget, Resolve, FileSlot, Make, WithFields, HeadOk, PairOk, ClusterOk;
    InvShape(g, v0, w0);
    var y := FileSlot(g, v0, w0, path);
    if y != NONE {
      PlainFile(g, v0, w0, path, d, name);
      SlotOkAt(g, v0, w0, y);
      SizeBound(g, v0, w0, y);
    } else {
      PlainName(g, v0, w0, path, d, name);
      MakeThenFields(name, ATTR_ARCHIVE, 0, 0);
      assert Name(ent)[0] == ent[0];
    }
  }

  /** The finished entry: its fields, and that it fits the chain. */
  lemma NewRecord(g: Geo, j: Job, v: View, w: Witness, pend: seq<int>, ent: Bytes, first: nat, end: nat)
    requires OnJob(g, j, v, w, pend, |j.data|) && |ent| == SIZE && Live(ent) && !IsDirectory(ent) && FileSize(ent) >= 0
    requires if j.pend0 == [] then FileSize(ent) == 0 else CeilIs(|j.pend0|, FileSize(ent), g.ClusterSize())
    requires end < |pend| && Reach(j, pend, end) && first == Head(pend) && j.data != []
    requires EndsIn(g.ClusterSize(), j.offset, |j.data|, end)
    requires j.offset + |j.data| < WORD && FileSize(ent) < WORD
    ensures var size := Max(FileSize(ent), j.offset + |j.data|);
            var e := WithFields(ent, first, size);
            Live(e) && !IsDirectory(e) && Name(e) == Name(ent) && First(e) == Head(pend) && FileSize(e) == size && CeilIs(|pend|, size, g.ClusterSize())
  {
    PendAway(g, v, w, j.x, pend, 0);
    NewLength(|j.pend0|, |pend|, FileSize(ent), j.offset, |j.data|, end, g.ClusterSize());
    var size := Max(FileSize(ent), j.offset + |j.data|);
    WithFieldsRead(ent, first, size);
    SameName(ent, first, size);
  }

  lemma SameName(ent: Bytes, first: nat, size: nat)
    requires |ent| == SIZE
    ensures Live(WithFields(ent, first, size)) == Live(ent) && IsDirectory(WithFields(ent, first, size)) == IsDirectory(ent)
  {
    var e := WithFields(ent, first, size);
    assert e[0] == Name(e)[0] && e[1] == Name(e)[1] && e[2] == Name(e)[2];
    assert ent[0] == Name(ent)[0] && ent[1] == Name(ent)[1] && ent[2] == Name(ent)[2];
  }

  /** What a successful fat_write_at has done. A directory is written to like a file, and gets a size. */
  ghost predicate PutAt(g: Geo, v0: View, w0: Witness, v: View, w: Witness, path: Bytes, offset: nat, data: Bytes)
    requires Shape(g, v0, w0)
  {
    if !StorableName(g, v0, w0, path) then Inv(g, v, w) && Buried(g, v0, w0, v, w, path, ClustersFor(offset + |data|, g.ClusterSize()))
    else if DirectoryTarget(g, v0, w0, path) then !VolumeOk(g, v) && RestKept(g, v0, w0, v, w, path)
    else Inv(g, v, w) && Overwritten(g, v0, w0, v, w, path, offset, data)
  }

  /** A successful fat_write_at leaves a consistent volume exactly when the target is no directory and its
      name can be stored. */
  lemma PutAtLoss(g: Geo, v0: View, w0: Witness, v: View, w: Witness, path: Bytes, offset: nat, data: Bytes)
    requires Inv(g, v0, w0) && g.ClusterSize() > 0 && data != [] && PutAt(g, v0, w0, v, w, path, offset, data)
    ensures VolumeOk(g, v) <==> VolumeOk(g, v0) && PlainTarget(g, v0, w0, path)
  {
    hide GInv, VolumeOk, Updated, RestKept, Buried, NewChain, ReachFits, Content, Patch, FileSlot;
    InvShape(g, v0, w0);
    if !StorableName(g, v0, w0, path) {
      Quotients(offset + |data|, g.ClusterSize());
      BuriedLoss(g, v0, w0, v, w, path, ClustersFor(offset + |data|, g.ClusterSize()));
    } else if !DirectoryTarget(g, v0, w0, path) {
      InvShape(g, v, w);
      assert FileSlot(g, v, w, path) != NONE ==> LiveAt(g, v, w, NONE, FileSlot(g, v, w, path)) by { SlotFound(g, v, w, path); }
      var e := Ent(g, v, FileSlot(g, v, w, path));
      UpdatedLoss(g, v0, w0, v, w, path, e, Content(g, v, EntryChain(g, w, e)));
    }
  }

  /** fat_write_at */
  method WriteAt(vol: Volume, path: Bytes, offset: nat, data: Bytes) returns (r: int)
    requires vol.Valid() && offset + |data| < WORD && 0 !in path
    modifies vol`w, vol.fat.buf, vol.dsk
    ensures r == 0 || r == 1 || r == 2 || r == 3 || r == 4 || r == UNSET_SLOT
    ensures data == [] ==> r == 0 && vol.Valid() && vol.V() == old(vol.V()) && vol.w == old(vol.w)
    ensures r == 0 && data != [] ==> vol.Ready() && vol.Synced() && PutAt(vol.l.G(), old(vol.V()), old(vol.w), vol.V(), vol.w, path, offset, data)
    ensures r == 3 ==> vol.Ready() && Room(vol.V().t) == 0 && RestKept(vol.l.G(), old(vol.V()), old(vol.w), vol.V(), vol.w, path)
    ensures r == 3 && !DirectoryTarget(vol.l.G(), old(vol.V()), old(vol.w), path) ==> Leaked(vol.l.G(), old(vol.V()), old(vol.w), vol.V(), vol.w, path)
    ensures r == 2 || r == UNSET_SLOT ==> vol.Valid() && vol.V() == old(vol.V()) && vol.w == old(vol.w) && DirectoryFull(vol.l.G(), vol.V(), vol.w, path)
    ensures r == 4 ==> vol.Valid() && vol.V() == old(vol.V()) && vol.w == old(vol.w) && Resolve(vol.l.G(), old(vol.V()), old(vol.w), path) == Root
    ensures r == 1 ==> vol.dsk.faulty || NoWay(vol.l.G(), old(vol.V()), old(vol.w), path)
    ensures r == 0 && data != [] ==> HasPlace(vol.l.G(), old(vol.V()), old(vol.w), path) && ReachFits(vol.l.G(), old(vol.V()), old(vol.w), path, offset + |data|)
    ensures r != 0 && data != [] ==> vol.dsk.faulty || !HasPlace(vol.l.G(), old(vol.V()), old(vol.w), path) || !ReachFits(vol.l.G(), old(vol.V()), old(vol.w), path, offset + |data|)
    ensures r == 0 && data != [] && PlainTarget(vol.l.G(), old(vol.V()), old(vol.w), path) ==>
      Inv(vol.l.G(), vol.V(), vol.w) &&
      Room(vol.V().t) + FileCount(vol.l.G(), vol.V(), vol.w, path) == Room(old(vol.V()).t) - Growth(vol.l.G(), old(vol.V()), old(vol.w), path) + FileCount(vol.l.G(), old(vol.V()), old(vol.w), path)
  {
    hide Volume.V, Volume.Synced, Areas, Underway, Took, ReachFits, HasPlace, Growth, Room, FileCount, RestKept, Leaked, PutAt, PlainTarget, DirectoryTarget;
    if |data| == 0 {
      return 0;
    }
    ghost var g, v0, w0 := vol.l.G(), vol.V(), vol.w;
    var slot, name, e;
    ghost var d, x, pend0;
    r, slot, name, e, d, x, pend0 := StartWrite(vol, path);
    if r != 0 {
      NoPlaceToReach(g, v0, w0, path, offset, |data|);
      return;
    }
    StartBase(g, v0, w0, vol.V(), vol.w, path, d, name, x, pend0, slot.found, e);
    var ent := if slot.found then e else Make(name, ATTR_ARCHIVE, 0, 0);
    r := WriteRangeOf(vol, slot, ent, offset, data, v0, w0, path, d, name, x, pend0);
  }

  /** The entry the write starts from, and its chain. */
  lemma StartBase(g: Geo, v0: View, w0: Witness, v: View, w: Witness, path: Bytes, d: int, name: Bytes, x: Slot, pend: seq<int>, found: bool, e: Bytes)
    requires Started(g, v0, w0, v, w, path, d, name, x, pend, found, e) && 0 !in path && g.perCluster < 4096
    ensures |name| == NAME_LEN && name[0] != 0
    ensures var ent := if found then e else Make(name, ATTR_ARCHIVE, 0, 0);
            && |ent| == SIZE && Shape(g, v0, w0) && Base(g, v0, w0, path, name, ent) && 0 <= First(ent) == Head(pend) && FileSize(ent) >= 0
            && pend == OldChain(g, v0, w0, path)
    ensures FileSlot(g, v0, w0, path) != NONE ==> v == v0
  {
    hide Mid, Took, HasPlace, Growth;
    NameOf(g, v0, w0, v, w, path, d, name, x, pend);
    UnderwayMid(g, v0, w0, v, w, path, d, name, x, pend);
    if pend != [] { MidShape(g, v0, w0, v, w, OldFirst(g, v0, w0, path), x, name, pend); PendAway(g, v, w, x, pend, 0); }
    MakeThenFields(name, ATTR_ARCHIVE, 0, 0);
    if found { SizeBound(g, v0, w0, x); }
  }

  /** The part of fat_write_at after the slot is known. */
  method WriteRangeOf(vol: Volume, slot: DirSlot, ent: Bytes, offset: nat, data: Bytes, ghost v0: View, ghost w0: Witness, ghost path: Bytes, ghost d: int, ghost name: Bytes, ghost x: Slot, ghost pend0: seq<int>)
    returns (r: int)
    requires vol.Ready() && Underway(vol.l.G(), v0, w0, vol.V(), vol.w, path, d, name, x, pend0) && Places(vol.l, slot, x)
    requires |ent| == SIZE && Base(vol.l.G(), v0, w0, path, name, ent) && 0 <= First(ent) == Head(pend0) && FileSize(ent) >= 0
    requires pend0 == OldChain(vol.l.G(), v0, w0, path) && (FileSlot(vol.l.G(), v0, w0, path) != NONE ==> vol.V() == v0)
    requires data != [] && offset + |data| < WORD && Took(v0, vol.V(), Growth(vol.l.G(), v0, w0, path)) && 0 !in path
    modifies vol`w, vol.fat.buf, vol.dsk
    ensures r == 0 || r == 1 || r == 3
    ensures r == 0 ==> vol.Ready() && vol.Synced() && PutAt(vol.l.G(), v0, w0, vol.V(), vol.w, path, offset, data)
    ensures r == 3 ==> vol.Ready() && Room(vol.V().t) == 0 && RestKept(vol.l.G(), v0, w0, vol.V(), vol.w, path)
    ensures r == 3 && !DirectoryTarget(vol.l.G(), v0, w0, path) ==> Leaked(vol.l.G(), v0, w0, vol.V(), vol.w, path)
    ensures r == 1 ==> vol.dsk.faulty
    ensures r == 0 ==> ReachFits(vol.l.G(), v0, w0, path, offset + |data|)
    ensures r == 3 ==> !ReachFits(vol.l.G(), v0, w0, path, offset + |data|)
    ensures r == 0 && PlainTarget(vol.l.G(), v0, w0, path) ==>
      Inv(vol.l.G(), vol.V(), vol.w) &&
      Room(vol.V().t) + FileCount(vol.l.G(), vol.V(), vol.w, path) == Room(v0.t) - Growth(vol.l.G(), v0, w0, path) + FileCount(vol.l.G(), v0, w0, path)
  {
    hide Volume.V, Volume.Synced, Areas, EndsIn, Reach, PutAt, Leaked, RestKept, ReachFits, Took, Growth, Room, FileCount, OldChain, PlainTarget, DirectoryTarget, Base, Underway, OnJob, GInv, FileSlot, Places, Resolve;
    ghost var g := vol.l.G();
    UnderwayMid(g, v0, w0, vol.V(), vol.w, path, d, name, x, pend0);
    TookRoom(v0, vol.V(), Growth(g, v0, w0, path));
    ghost var j := Job(v0, w0, OldFirst(g, v0, w0, path), x, name, pend0, offset, data, vol.V());
    JobStart(g, j, vol.w);
    var first;
    ghost var pend, written, end;
    r, first, pend, written, end := PutData(vol, First(ent), offset, data, j, pend0);
    if r == 1 {
      return;
    }
    JobUnderway(g, j, vol.V(), vol.w, path, d, pend, written);
    FitsIfReached(g, j, vol.V(), vol.w, pend, written, end, path);
    if r == 3 {
      if !DirectoryTarget(g, v0, w0, path) { LeakedNow(g, j, vol.V(), vol.w, pend, written, path, d); }
      RestIsKept(g, v0, w0, vol.V(), vol.w, path, d, name, x, pend);
      return;
    }
    r := PutRecord(vol, slot, ent, first, offset + |data|, j, path, d, pend, end);
  }

  lemma JobUnderway(g: Geo, j: Job, v: View, w: Witness, path: Bytes, d: int, pend: seq<int>, done: nat)
    requires Underway(g, j.v0, j.w0, j.v1, w, path, d, j.name, j.x, j.pend0) && j.f == OldFirst(g, j.v0, j.w0, path)
    requires OnJob(g, j, v, w, pend, done)
    ensures Underway(g, j.v0, j.w0, v, w, path, d, j.name, j.x, pend) && |v.t| == |j.v1.t| == g.max
  {
    hide Others, Untouched, NameFree, FrontFull, Content, Patch, Strays, HeadOk, ClusterOk, SlotOk, PairOk, FreeList, OnVolume;
  }

  /** All data has been written, to a chain as long as the write needs and no longer. */
  ghost predicate Complete(g: Geo, j: Job, v: View, w: Witness, pend: seq<int>, end: nat, path: Bytes, d: int, ent: Bytes) {
    && OnJob(g, j, v, w, pend, |j.data|) && Underway(g, j.v0, j.w0, v, w, path, d, j.name, j.x, pend) && 0 !in path
    && |ent| == SIZE && Base(g, j.v0, j.w0, path, j.name, ent) && FileSize(ent) >= 0
    && j.pend0 == OldChain(g, j.v0, j.w0, path) && (FileSlot(g, j.v0, j.w0, path) != NONE ==> j.v1 == j.v0)
    && Took(j.v0, j.v1, Growth(g, j.v0, j.w0, path)) && j.data != [] && j.offset + |j.data| < WORD
    && end < |pend| && Reach(j, pend, end) && EndsIn(g.ClusterSize(), j.offset, |j.data|, end)
    && ReachFits(g, j.v0, j.w0, path, j.offset + |j.data|)
  }

  /** The end of fat_write_at: the entry gets its first cluster and its new size. */
  method PutRecord(vol: Volume, slot: DirSlot, ent: Bytes, first: nat, reach: nat, ghost j: Job, ghost path: Bytes, ghost d: int, ghost pend: seq<int>, ghost end: nat)
    returns (r: int)
    requires vol.Ready() && Complete(vol.l.G(), j, vol.V(), vol.w, pend, end, path, d, ent) && Places(vol.l, slot, j.x)
    requires first == Head(pend) && reach == j.offset + |j.data|
    modifies vol`w, vol.dsk
    ensures r == 0 || r == 1
    ensures r == 0 ==> vol.Ready() && vol.Synced() && PutAt(vol.l.G(), j.v0, j.w0, vol.V(), vol.w, path, j.offset, j.data)
    ensures r == 1 ==> vol.dsk.faulty
    ensures r == 0 ==> vol.V().t == old(vol.V()).t
    ensures r == 0 && PlainTarget(vol.l.G(), j.v0, j.w0, path) ==> Inv(vol.l.G(), vol.V(), vol.w) && FileCount(vol.l.G(), vol.V(), vol.w, path) == |pend|
  {
    hide Volume.V, Volume.Synced, Areas, Complete, PutAt, Recorded, DeliveredOn, CanFinish, Finished, WithFields, First, FileSize, Base, OnJob, Underway, PlainTarget, FileCount;
    ghost var g, v := vol.l.G(), vol.V();
    RecordReady(g, j, v, vol.w, pend, ent, first, reach, end, path, d);
    CompleteParts(g, j, v, vol.w, pend, end, path, d, ent);
    var e := WithFields(ent, first, Max(FileSize(ent), reach));
    r := FinishWrite(vol, slot, e, j.v0, j.w0, path, d, j.name, j.x, pend);
    if r == 0 {
      PutAtNow(g, j, v, vol.V(), vol.w, pend, path, d, ent, first, e);
    }
  }

  /** e is the entry the write started from, with its new first cluster and size. */
  ghost predicate Recorded(g: Geo, j: Job, path: Bytes, d: int, ent: Bytes, first: nat, e: Bytes) {
    && Shape(g, j.v0, j.w0) && |ent| == SIZE && FileSize(ent) >= 0 && |e| == SIZE && First(e) == first
    && Base(g, j.v0, j.w0, path, j.name, ent) && Resolve(g, j.v0, j.w0, path) == At(d, j.name) && |j.name| == NAME_LEN && j.name[0] != 0
    && e == WithFields(ent, first, Max(FileSize(ent), j.offset + |j.data|))
    && (j.name[0] != DELETED ==> (SizedDirectory(e) <==> DirectoryTarget(g, j.v0, j.w0, path)))
  }

  /** All data is in the chain, which is the one the volume before determines. */
  ghost predicate DeliveredOn(g: Geo, j: Job, v: View, pend: seq<int>, path: Bytes) {
    && Shape(g, j.v0, j.w0) && j.data != []
    && ReachFits(g, j.v0, j.w0, path, j.offset + |j.data|) && pend == NewChain(g, j.v0, j.w0, path, j.offset + |j.data|)
    && OnVolume(g, v, pend) && OnVolume(g, j.v0, pend)
    && Content(g, v, pend) == Patch(Content(g, j.v0, pend), j.offset, j.data)
  }

  lemma CompleteParts(g: Geo, j: Job, v: View, w: Witness, pend: seq<int>, end: nat, path: Bytes, d: int, ent: Bytes)
    requires Complete(g, j, v, w, pend, end, path, d, ent)
    ensures OnJob(g, j, v, w, pend, |j.data|) && Underway(g, j.v0, j.w0, v, w, path, d, j.name, j.x, pend)
    ensures Inv(g, j.v0, j.w0) && Shape(g, j.v0, j.w0) && GInv(g, v, w, j.x, pend) && pend != []
    ensures Mid(g, j.v0, j.w0, v, w, OldFirst(g, j.v0, j.w0, path), j.x, j.name, pend)
    ensures |j.name| == NAME_LEN && j.name[0] != 0 && (StorableName(g, j.v0, j.w0, path) <==> j.name[0] != DELETED)
    ensures Resolve(g, j.v0, j.w0, path) == At(d, j.name) && |ent| == SIZE && Base(g, j.v0, j.w0, path, j.name, ent) && FileSize(ent) >= 0
  {
    hide OnJob, StorableName, Base, OldChain, Took, Reach, EndsIn, ReachFits;
    NameOf(g, j.v0, j.w0, v, w, path, d, j.name, j.x, pend);
  }

  lemma RecordReady(g: Geo, j: Job, v: View, w: Witness, pend: seq<int>, ent: Bytes, first: nat, reach: nat, end: nat, path: Bytes, d: int)
    requires Complete(g, j, v, w, pend, end, path, d, ent) && g.perCluster < 4096
    requires first == Head(pend) && reach == j.offset + |j.data|
    ensures |ent| == SIZE && FileSize(ent) >= 0
    ensures var e := WithFields(ent, first, Max(FileSize(ent), reach));
            |e| == SIZE && CanFinish(g, v, w, j.x, j.name, pend, e) && Recorded(g, j, path, d, ent, first, e) && DeliveredOn(g, j, v, pend, path)
  {
    hide Complete, CanFinish, SizedDirectory, WithFields, First, FileSize, DirectoryTarget, StorableName, DeliveredOn, GInv, Mid, Underway, OnJob, Base;
    CompleteParts(g, j, v, w, pend, end, path, d, ent);
    DeliveredNow(g, j, v, w, pend, end, path, d, ent);
    CompleteRange(g, j, v, w, pend, end, path, d, ent);
    if j.name[0] == DELETED {
      DeadRecord(g, j, v, w, pend, ent, first, reach, path, d);
    } else if DirectoryTarget(g, j.v0, j.w0, path) {
      DirectoryRecord(g, j, v, w, pend, ent, first, reach, path, d);
    } else {
      PlainRecord(g, j, v, w, pend, ent, first, reach, end, path, d);
      NotSized(WithFields(ent, first, Max(FileSize(ent), reach)));
    }
  }

  lemma NotSized(e: Bytes)
    requires |e| == SIZE && !IsDirectory(e)
    ensures !SizedDirectory(e)
  {
  }

  lemma CompleteRange(g: Geo, j: Job, v: View, w: Witness, pend: seq<int>, end: nat, path: Bytes, d: int, ent: Bytes)
    requires Complete(g, j, v, w, pend, end, path, d, ent)
    ensures j.data != [] && j.offset + |j.data| < WORD
  {
  }

  lemma DeliveredNow(g: Geo, j: Job, v: View, w: Witness, pend: seq<int>, end: nat, path: Bytes, d: int, ent: Bytes)
    requires Complete(g, j, v, w, pend, end, path, d, ent)
    ensures DeliveredOn(g, j, v, pend, path)
  {
    hide Underway, Mid, GInv, OnJob, Content, Patch, Base, EndsIn, Reach, Took, ReachFits, NewChain, OldChain, Growth;
    CompleteParts(g, j, v, w, pend, end, path, d, ent);
    ChainIs(g, j, v, w, pend, end, path);
    Delivered(g, j, v, w, pend);
  }

  lemma Delivered(g: Geo, j: Job, v: View, w: Witness, pend: seq<int>)
    requires OnJob(g, j, v, w, pend, |j.data|)
    ensures OnVolume(g, v, pend) && OnVolume(g, j.v1, pend) && Content(g, v, pend) == Patch(Content(g, j.v1, pend), j.offset, j.data)
  {
    assert j.data[..|j.data|] == j.data;
  }

  /** A new entry whose name looks deleted. */
  lemma DeadRecord(g: Geo, j: Job, v: View, w: Witness, pend: seq<int>, ent: Bytes, first: nat, reach: nat, path: Bytes, d: int)
    requires Shape(g, j.v0, j.w0) && Mid(g, j.v0, j.w0, v, w, OldFirst(g, j.v0, j.w0, path), j.x, j.name, pend) && Resolve(g, j.v0, j.w0, path) == At(d, j.name)
    requires |j.name| == NAME_LEN && j.name[0] == DELETED && |ent| == SIZE && Base(g, j.v0, j.w0, path, j.name, ent)
    requires first == Head(pend) && 0 < reach < WORD
    ensures var e := WithFields(ent, first, Max(FileSize(ent), reach));
            |e| == SIZE && First(e) == first && CanFinish(g, v, w, j.x, j.name, pend, e)
  {
    hide Mid;
    NoDeletedName(g, j.v0, j.w0, d, j.name);
    MakeThenFields(j.name, ATTR_ARCHIVE, first, reach);
    MidShape(g, j.v0, j.w0, v, w, OldFirst(g, j.v0, j.w0, path), j.x, j.name, pend);
    NewEntry(g, v, w, j.x, pend, j.name, first, reach);
  }

  lemma MidShape(g: Geo, v0: View, w0: Witness, v: View, w: Witness, f: int, x: Slot, name: Bytes, pend: seq<int>)
    requires Mid(g, v0, w0, v, w, f, x, name, pend)
    ensures GInv(g, v, w, x, pend)
  {
  }

  /** A directory gets the size of what has been written to it. */
  lemma DirectoryRecord(g: Geo, j: Job, v: View, w: Witness, pend: seq<int>, ent: Bytes, first: nat, reach: nat, path: Bytes, d: int)
    requires Shape(g, j.v0, j.w0) && Mid(g, j.v0, j.w0, v, w, OldFirst(g, j.v0, j.w0, path), j.x, j.name, pend) && Resolve(g, j.v0, j.w0, path) == At(d, j.name)
    requires Inv(g, j.v0, j.w0) && DirectoryTarget(g, j.v0, j.w0, path)
    requires |j.name| == NAME_LEN && j.name[0] != DELETED && |ent| == SIZE && Base(g, j.v0, j.w0, path, j.name, ent)
    requires pend != [] && first == Head(pend) && 0 < reach < WORD
    ensures var e := WithFields(ent, first, Max(FileSize(ent), reach));
            |e| == SIZE && First(e) == first && CanFinish(g, v, w, j.x, j.name, pend, e) && SizedDirectory(e)
  {
    hide Mid, WithFields, CanAttach;
    MidShape(g, j.v0, j.w0, v, w, OldFirst(g, j.v0, j.w0, path), j.x, j.name, pend);
    PendAway(g, v, w, j.x, pend, 0);
    SlotOkAt(g, j.v0, j.w0, FileSlot(g, j.v0, j.w0, path));
    WithFieldsRead(ent, first, reach);
    SameName(ent, first, reach);
  }

  /** A plain file, old or new. */
  lemma PlainRecord(g: Geo, j: Job, v: View, w: Witness, pend: seq<int>, ent: Bytes, first: nat, reach: nat, end: nat, path: Bytes, d: int)
    requires Complete(g, j, v, w, pend, end, path, d, ent) && g.perCluster < 4096 && PlainTarget(g, j.v0, j.w0, path)
    requires first == Head(pend) && reach == j.offset + |j.data|
    ensures |ent| == SIZE && FileSize(ent) >= 0
    ensures var e := WithFields(ent, first, Max(FileSize(ent), reach));
            |e| == SIZE && First(e) == first && CanFinish(g, v, w, j.x, j.name, pend, e) && !IsDirectory(e)
  {
    hide OnJob, EndsIn, Reach, ReachFits, Took, GInv, NameFree, FrontFull, Others, Untouched, Strays, PlainTarget, Base, CeilIs, First, FileSize, EntryChain, FileSlot, IsSlot, Growth, OldChain, WithFields;
    CompleteParts(g, j, v, w, pend, end, path, d, ent);
    BaseOk(g, j.v0, j.w0, path, d, j.name, ent, j.pend0);
    NewRecord(g, j, v, w, pend, ent, first, end);
    PlainName(g, j.v0, j.w0, path, d, j.name);
  }

  lemma PlainName(g: Geo, v: View, w: Witness, path: Bytes, d: int, name: Bytes)
    requires Shape(g, v, w) && PlainTarget(g, v, w, path) && Resolve(g, v, w, path) == At(d, name)
    ensures |name| == NAME_LEN && name[0] != DELETED && name[0] != 0
  {
  }

  /** What has been stored is what fat_write_at promises. */
  lemma PutAtNow(g: Geo, j: Job, v: View, v': View, w': Witness, pend: seq<int>, path: Bytes, d: int, ent: Bytes, first: nat, e: Bytes)
    requires Recorded(g, j, path, d, ent, first, e) && DeliveredOn(g, j, v, pend, path)
    requires Finished(g, j.v0, j.w0, v', w', path, j.name, pend, e, Content(g, v, pend))
    ensures PutAt(g, j.v0, j.w0, v', w', path, j.offset, j.data)
    ensures PlainTarget(g, j.v0, j.w0, path) ==> Inv(g, v', w') && FileCount(g, v', w', path) == |pend|
  {
    hide GInv, Content, VolumeOk, RestKept, Updated, Buried, Overwritten, SizedDirectory, DirectoryTarget, DeliveredOn, Base, WithFields, First, FileSize, FileCount, EntryChain, FileSlot;
    if j.name[0] == DELETED {
      NewLength0(g, j, v, pend, path, d);
      InvShape(g, v', w');
    } else if !DirectoryTarget(g, j.v0, j.w0, path) {
      InvShape(g, v', w');
      OverwrittenNow(g, j, v, v', w', pend, path, d, ent, first, e);
      CountNow(g, j.v0, j.w0, v', w', path, e, Content(g, v, pend), pend);
    }
  }

  /** The chain of a file that did not exist is as long as the write reaches. */
  lemma NewLength0(g: Geo, j: Job, v: View, pend: seq<int>, path: Bytes, d: int)
    requires DeliveredOn(g, j, v, pend, path) && |j.name| == NAME_LEN && j.name[0] == DELETED && Resolve(g, j.v0, j.w0, path) == At(d, j.name)
    ensures |pend| == ClustersFor(j.offset + |j.data|, g.ClusterSize())
  {
    hide Content, Patch;
    NoDeletedName(g, j.v0, j.w0, d, j.name);
    Quotient(j.offset + |j.data| - 1, g.ClusterSize());
    FreeCount(j.v0.t, 2);
  }

  lemma OverwrittenNow(g: Geo, j: Job, v: View, v': View, w': Witness, pend: seq<int>, path: Bytes, d: int, ent: Bytes, first: nat, e: Bytes)
    requires Recorded(g, j, path, d, ent, first, e) && DeliveredOn(g, j, v, pend, path) && Shape(g, v', w')
    requires EntryChain(g, w', e) == pend && Updated(g, j.v0, j.w0, v', w', path, e, Content(g, v, pend))
    ensures Overwritten(g, j.v0, j.w0, v', w', path, j.offset, j.data) && OnVolume(g, v, pend)
  {
    RecordedBy(g, j, v, v', w', pend, path, d, ent, first, e);
    UpdatedSlot(g, j.v0, j.w0, v', w', path, e, Content(g, v, pend));
    hide Recorded, DeliveredOn, Updated, OverwrittenBy, Content;
  }

  lemma RecordedBy(g: Geo, j: Job, v: View, v': View, w': Witness, pend: seq<int>, path: Bytes, d: int, ent: Bytes, first: nat, e: Bytes)
    requires Recorded(g, j, path, d, ent, first, e) && DeliveredOn(g, j, v, pend, path) && Shape(g, v', w')
    requires EntryChain(g, w', e) == pend && Updated(g, j.v0, j.w0, v', w', path, e, Content(g, v, pend))
    ensures OverwrittenBy(g, j.v0, j.w0, v', w', path, j.offset, j.data, e)
  {
    hide Updated, EntryChain, Content, Patch, Resolve, FileIs, Make, WithFields, First, FileSize, NewChain, ReachFits;
    MakeThenFields(j.name, ATTR_ARCHIVE, first, j.offset + |j.data|);
    UpdatedSlot(g, j.v0, j.w0, v', w', path, e, Content(g, v, pend));
  }

  lemma JobStart(g: Geo, j: Job, w: Witness)
    requires Mid(g, j.v0, j.w0, j.v1, w, j.f, j.x, j.name, j.pend0)
    ensures OnJob(g, j, j.v1, w, j.pend0, 0)
  {
    PendOnVolume(g, j.v1, w, j.x, j.pend0);
  }

  lemma MakeThenFields(name: Bytes, attr: int, first: nat, size: nat)
    requires |name| == NAME_LEN
    ensures WithFields(Make(name, attr, 0, 0), first, size) == Make(name, attr, first, size)
    ensures First(Make(name, attr, 0, 0)) == 0 && FileSize(Make(name, attr, 0, 0)) == 0
  {
    var b := name + [attr] + seq(20, _ => 0);
    assert WithFields(b, 0, 0)[..26] == b[..26];
    WithFieldsRead(b, 0, 0);
  }

  lemma UpdatedSlot(g: Geo, v0: View, w0: Witness, v: View, w: Witness, path: Bytes, e: Bytes, bytes: Bytes)
    requires Shape(g, v0, w0) && Shape(g, v, w) && Updated(g, v0, w0, v, w, path, e, bytes)
    ensures var x := FileSlot(g, v, w, path);
            && x != NONE && (FileSlot(g, v0, w0, path) != NONE ==> x == FileSlot(g, v0, w0, path))
            && |e| == SIZE && Ent(g, v, x) == e && OnVolume(g, v, EntryChain(g, w, e)) && Content(g, v, EntryChain(g, w, e)) == bytes
  {
  }

  // ----- what an overwrite means for a reader -----

  lemma SizeInChain(g: Geo, v: View, w: Witness, x: Slot)
    requires Inv(g, v, w) && LiveAt(g, v, w, NONE, x) && !IsDirectory(Ent(g, v, x)) && g.perCluster < 4096
    ensures OnVolume(g, v, EntryChain(g, w, Ent(g, v, x)))
    ensures 0 <= FileSize(Ent(g, v, x)) <= |Content(g, v, EntryChain(g, w, Ent(g, v, x)))|
  {
    SizeBound(g, v, w, x);
    EntryOnVolume(g, v, w, x);
    assert SlotOk(g, v, w, NONE, x);
  }

  /** The bytes of the file in slot x. */
  ghost function FileBytes(g: Geo, v: View, w: Witness, x: Slot): (r: Bytes)
    requires Inv(g, v, w) && LiveAt(g, v, w, NONE, x) && !IsDirectory(Ent(g, v, x)) && g.perCluster < 4096
    ensures |r| == FileSize(Ent(g, v, x))
  {
    var e := Ent(g, v, x);
    SizeInChain(g, v, w, x);
    Content(g, v, EntryChain(g, w, e))[..FileSize(e)]
  }

  lemma ContentPrefix(g: Geo, v: View, a: seq<int>, b: seq<int>)
    requires OnVolume(g, v, b) && a <= b
    ensures OnVolume(g, v, a) && Content(g, v, a) <= Content(g, v, b)
  {
    forall i | 0 <= i < |a| ensures 2 <= a[i] < g.max { assert a[i] == b[i]; }
    forall i | 0 <= i < |b[|a|..]| ensures 2 <= b[|a|..][i] < g.max { assert b[|a|..][i] == b[|a| + i]; }
    ContentConcat(g, v, a, b[|a|..]);
    assert a + b[|a|..] == b;
  }

  /** The bytes of the file a path denotes; none when there is no file. */
  ghost function BytesAt(g: Geo, v: View, w: Witness, path: Bytes): Bytes
    requires Inv(g, v, w) && PlainTarget(g, v, w, path) && g.perCluster < 4096
  {
    var x := FileSlot(g, v, w, path);
    if x == NONE then [] else FileBytes(g, v, w, x)
  }

  /** What the clusters of a file that is written up to byte reach hold before the write. */
  ghost function Held(g: Geo, v: View, w: Witness, path: Bytes, reach: nat): Bytes
    requires Inv(g, v, w) && reach > 0 && ReachFits(g, v, w, path, reach)
  {
    NewChainOnVolume(g, v, w, path, reach);
    Content(g, v, NewChain(g, v, w, path, reach))
  }

  lemma NewChainOnVolume(g: Geo, v: View, w: Witness, path: Bytes, reach: nat)
    requires Inv(g, v, w) && reach > 0 && ReachFits(g, v, w, path, reach)
    ensures OnVolume(g, v, NewChain(g, v, w, path, reach)) && OnVolume(g, v, OldChain(g, v, w, path))
  {
    hide GInv, Growth, Resolve, Content;
    InvShape(g, v, w);
    OldOnVolume(g, v, w, path);
    FreeMembers(v.t, 2);
    FreeCount(v.t, 2);
    Quotient(reach - 1, g.ClusterSize());
    var s, chain, free, m := NewChain(g, v, w, path, reach), OldChain(g, v, w, path), FreeList(v.t, 2), Growth(g, v, w, path);
    forall i | 0 <= i < |s| ensures 2 <= s[i] < g.max {
      if i < |chain| {
        assert s[i] == chain[i];
      } else {
        assert s[i] == free[m + i - |chain|] && free[m + i - |chain|] in free;
      }
    }
  }

  lemma OldOnVolume(g: Geo, v: View, w: Witness, path: Bytes)
    requires Inv(g, v, w)
    ensures OnVolume(g, v, OldChain(g, v, w, path))
  {
    SlotFound(g, v, w, path);
    if FileSlot(g, v, w, path) != NONE { EntryOnVolume(g, v, w, FileSlot(g, v, w, path)); }
  }

  /** The entry of an overwritten file, old or new, and its size. */
  lemma OverwrittenSize(g: Geo, v0: View, w0: Witness, v: View, w: Witness, path: Bytes, offset: nat, data: Bytes)
    requires Inv(g, v0, w0) && Inv(g, v, w) && g.perCluster < 4096 && offset + |data| < WORD && PlainTarget(g, v0, w0, path)
    requires Overwritten(g, v0, w0, v, w, path, offset, data)
    ensures var x, x0 := FileSlot(g, v, w, path), FileSlot(g, v0, w0, path);
            && LiveAt(g, v, w, NONE, x) && !IsDirectory(Ent(g, v, x)) && (x0 != NONE ==> x == x0 && LiveAt(g, v0, w0, NONE, x0) && !IsDirectory(Ent(g, v0, x0)))
            && FileSize(Ent(g, v, x)) == if x0 == NONE then offset + |data| else Max(FileSize(Ent(g, v0, x0)), offset + |data|)
  {
    hide GInv, Overwritten, WithFields, Make, First, FileSize, FileSlot, PlainTarget;
    InvShape(g, v0, w0);
    InvShape(g, v, w);
    var x, x0 := FileSlot(g, v, w, path), FileSlot(g, v0, w0, path);
    OverwrittenEntry(g, v0, w0, v, w, path, offset, data);
    SlotFound(g, v, w, path);
    var e := Ent(g, v, x);
    if x0 == NONE {
      RecordRead(Resolve(g, v0, w0, path).name, First(e), offset + |data|);
    } else {
      SlotFound(g, v0, w0, path);
      SizeBound(g, v0, w0, x0);
      var e0, size := Ent(g, v0, x0), Max(FileSize(Ent(g, v0, x0)), offset + |data|);
      SameName(e0, First(e), size);
      SlotOkAt(g, v, w, x);
      WithFieldsRead(e0, First(e), size);
    }
  }

  lemma OverwrittenEntry(g: Geo, v0: View, w0: Witness, v: View, w: Witness, path: Bytes, offset: nat, data: Bytes)
    requires Shape(g, v0, w0) && Shape(g, v, w) && PlainTarget(g, v0, w0, path) && Overwritten(g, v0, w0, v, w, path, offset, data)
    ensures var x, x0, t := FileSlot(g, v, w, path), FileSlot(g, v0, w0, path), Resolve(g, v0, w0, path);
            && x != NONE && (x0 != NONE ==> x == x0 && !IsDirectory(Ent(g, v0, x0))) && t.At? && |t.name| == NAME_LEN
    ensures var x, x0 := FileSlot(g, v, w, path), FileSlot(g, v0, w0, path);
            var e := Ent(g, v, x);
            && First(e) >= 0
            && e == if x0 != NONE then WithFields(Ent(g, v0, x0), First(e), Max(FileSize(Ent(g, v0, x0)), offset + |data|))
                    else Make(Resolve(g, v0, w0, path).name, ATTR_ARCHIVE, First(e), offset + |data|)
  {
    hide Others, Tree, Strays, NewChain, ReachFits, Content, Patch, First, FileSize, WithFields, Make, Resolve;
  }

  /** Name, attributes and times of a file stay when it is overwritten; those of a new file are its stored
      name, the archive bit and zeros. */
  lemma OverwrittenRecord(g: Geo, v0: View, w0: Witness, v: View, w: Witness, path: Bytes, offset: nat, data: Bytes)
    requires Inv(g, v0, w0) && Inv(g, v, w) && PlainTarget(g, v0, w0, path) && Overwritten(g, v0, w0, v, w, path, offset, data)
    requires offset + |data| < WORD
    ensures FileSlot(g, v, w, path) != NONE && Resolve(g, v0, w0, path).At?
    ensures var x0, e := FileSlot(g, v0, w0, path), Ent(g, v, FileSlot(g, v, w, path));
            if x0 != NONE then e[..26] == Ent(g, v0, x0)[..26]
            else e[..11] == Resolve(g, v0, w0, path).name && e[11] == 0x20 && forall i :: 12 <= i < 26 ==> e[i] == 0
  {
    hide GInv, Overwritten, Make, First, FileSize, FileSlot, PlainTarget;
    InvShape(g, v0, w0);
    InvShape(g, v, w);
    OverwrittenEntry(g, v0, w0, v, w, path, offset, data);
    var x := FileSlot(g, v, w, path);
    SlotFound(g, v, w, path);
    SlotOkAt(g, v, w, x);
    if FileSlot(g, v0, w0, path) == NONE {
      RecordBytes(Resolve(g, v0, w0, path).name, ATTR_ARCHIVE, First(Ent(g, v, x)), offset + |data|);
    }
  }

  /** Inside the file an overwrite is a byte splice. */
  lemma OverwriteIsSplice(g: Geo, v0: View, w0: Witness, v: View, w: Witness, path: Bytes, offset: nat, data: Bytes)
    requires Inv(g, v0, w0) && Inv(g, v, w) && g.perCluster < 4096 && offset + |data| < WORD && PlainTarget(g, v0, w0, path)
    requires Overwritten(g, v0, w0, v, w, path, offset, data) && offset <= |BytesAt(g, v0, w0, path)|
    ensures PlainTarget(g, v, w, path)
    ensures var was := BytesAt(g, v0, w0, path);
            BytesAt(g, v, w, path) == was[..offset] + data + if offset + |data| < |was| then was[offset + |data|..] else []
  {
    hide Overwritten, PlainTarget, GInv, BytesAt, Held, ReachFits;
    OverwrittenByte(g, v0, w0, v, w, path, offset, data);
    SpliceBytes(BytesAt(g, v0, w0, path), BytesAt(g, v, w, path), offset, data);
  }

  lemma SpliceBytes(was: Bytes, now: Bytes, offset: nat, data: Bytes)
    requires offset <= |was| && |now| == Max(|was|, offset + |data|)
    requires forall i :: 0 <= i < |now| ==> now[i] == if offset <= i < offset + |data| then data[i - offset] else was[i]
    ensures now == was[..offset] + data + if offset + |data| < |was| then was[offset + |data|..] else []
  {
  }

  /** A file was, and is now, after data has been written at offset to clusters that held these bytes:
      the data in the range, the old bytes before the old end, and otherwise what the clusters held. */
  ghost predicate ReadsAs(was: Bytes, held: Bytes, now: Bytes, offset: nat, data: Bytes) {
    && |now| == Max(|was|, offset + |data|) <= |held|
    && forall i :: 0 <= i < |now| ==>
         now[i] == if offset <= i < offset + |data| then data[i - offset] else if i < |was| then was[i] else held[i]
  }

  lemma PatchedBytes(c0: Bytes, held: Bytes, was: Bytes, size: nat, offset: nat, data: Bytes)
    requires was <= c0 <= held && size <= |held| && size == Max(|was|, offset + |data|)
    ensures ReadsAs(was, held, Patch(held, offset, data)[..size], offset, data)
  {
  }

  /** Byte by byte: the data in the range, the old byte before the old end, and in a hole whatever the
      clusters held before the write: those of the file, and the lowest free ones. */
  lemma OverwrittenByte(g: Geo, v0: View, w0: Witness, v: View, w: Witness, path: Bytes, offset: nat, data: Bytes)
    requires Inv(g, v0, w0) && Inv(g, v, w) && g.perCluster < 4096 && offset + |data| < WORD && PlainTarget(g, v0, w0, path)
    requires Overwritten(g, v0, w0, v, w, path, offset, data)
    ensures data != [] && ReachFits(g, v0, w0, path, offset + |data|) && PlainTarget(g, v, w, path)
    ensures ReadsAs(BytesAt(g, v0, w0, path), Held(g, v0, w0, path, offset + |data|), BytesAt(g, v, w, path), offset, data)
  {
    hide GInv, Updated, ReachFits, Growth, ReadsAs, Resolve;
    InvShape(g, v0, w0);
    InvShape(g, v, w);
    StillPlain(g, v0, w0, v, w, path, offset, data);
    OverwrittenSize(g, v0, w0, v, w, path, offset, data);
    var x, x0 := FileSlot(g, v, w, path), FileSlot(g, v0, w0, path);
    var chain0, chain := OldChain(g, v0, w0, path), EntryChain(g, w, Ent(g, v, x));
    SizeInChain(g, v, w, x);
    if x0 != NONE { SizeInChain(g, v0, w0, x0); }
    ContentPrefix(g, v0, chain0, chain);
    PatchedBytes(Content(g, v0, chain0), Content(g, v0, chain), BytesAt(g, v0, w0, path), |BytesAt(g, v, w, path)|, offset, data);
  }

  lemma StillPlain(g: Geo, v0: View, w0: Witness, v: View, w: Witness, path: Bytes, offset: nat, data: Bytes)
    requires Inv(g, v0, w0) && Inv(g, v, w) && g.perCluster < 4096 && offset + |data| < WORD && PlainTarget(g, v0, w0, path)
    requires Overwritten(g, v0, w0, v, w, path, offset, data)
    ensures PlainTarget(g, v, w, path)
  {
    hide GInv, Others, Strays, NewChain, ReachFits, Content, Patch, Resolve;
    InvShape(g, v0, w0);
    InvShape(g, v, w);
    OverwrittenSize(g, v0, w0, v, w, path, offset, data);
  }

  /** All bytes of b from i up to j are zero. */
  predicate ZeroFrom(b: Bytes, i: nat, j: nat) { j <= |b| && forall k :: i <= k < j ==> b[k] == 0 }

  /** The hole a write behind the end of the file leaves reads as zeros exactly when the clusters the file
      has or gets held zeros there before. */
  lemma HoleReadsZeroIff(g: Geo, v0: View, w0: Witness, v: View, w: Witness, path: Bytes, offset: nat, data: Bytes)
    requires Inv(g, v0, w0) && Inv(g, v, w) && g.perCluster < 4096 && offset + |data| < WORD && PlainTarget(g, v0, w0, path)
    requires Overwritten(g, v0, w0, v, w, path, offset, data)
    ensures data != [] && ReachFits(g, v0, w0, path, offset + |data|) && PlainTarget(g, v, w, path)
    ensures var n := |BytesAt(g, v0, w0, path)|;
            ZeroFrom(BytesAt(g, v, w, path), n, offset) <==> ZeroFrom(Held(g, v0, w0, path, offset + |data|), n, offset)
  {
    hide Overwritten, PlainTarget, GInv, BytesAt, Held, ReachFits;
    OverwrittenByte(g, v0, w0, v, w, path, offset, data);
  }

  /** Byte i of a chain is byte i % cs of its cluster number i / cs. */
  lemma {:induction false} ContentByte(g: Geo, v: View, s: seq<int>, k: nat, i: nat)
    requires OnVolume(g, v, s) && k < |s| && i < g.ClusterSize()
    ensures k * g.ClusterSize() + i < |Content(g, v, s)| && Content(g, v, s)[k * g.ClusterSize() + i] == v.cl[s[k]][i]
    decreases |s|
  {
    var n := |s| - 1;
    MulMono(k, n, g.ClusterSize());
    if k < n {
      MulMono(k + 1, n, g.ClusterSize());
      ContentByte(g, v, s[..n], k, i);
    }
  }
}
