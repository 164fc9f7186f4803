/** The in-memory allocation table of the driver: the packed buffer and the four routines on it. */
module FatBuffer {
  import opened FatTable

  const BUFFER_SIZE: nat := 4608

  /** The first free cluster from c on, or max when there is none. */
  function FirstFree(t: seq<int>, c: nat): (r: nat)
    requires c <= |t|
    ensures c <= r <= |t| && (r < |t| ==> t[r] == FREE)
    ensures forall d :: c <= d < r ==> t[d] != FREE
    decreases |t| - c
  {
    if c == |t| || t[c] == FREE then c else FirstFree(t, c + 1)
  }

  class Fat {
    const buf: array<int>
    const max: nat

    ghost predicate Valid()
      reads buf
    {
      2 <= max <= 3072 && Off(max - 1) + 1 < buf.Length && buf.Length == BUFFER_SIZE && IsBytes(buf[..])
    }

    ghost function T(): (t: seq<int>)
      requires Valid()
      reads buf
      ensures |t| == max && forall c :: 0 <= c < max ==> 0 <= t[c] < 4096
    {
      TableRange(buf[..], max);
      Table(buf[..], max)
    }

    lemma Bound(c: nat)
      requires Valid() && c < max
      ensures Off(c) + 1 < buf.Length && max <= 3072
    {
    }

    constructor (contents: array<int>, clusters: nat)
      requires contents.Length == BUFFER_SIZE && IsBytes(contents[..]) && 2 <= clusters && Off(clusters - 1) + 1 < BUFFER_SIZE
      ensures Valid() && buf == contents && max == clusters
    {
      buf, max := contents, clusters;
    }

    /** fat_next */
    method Next(cluster: nat) returns (r: int)
      requires Valid() && cluster < max
      ensures r == T()[cluster]
    {
      Bound(cluster);
      var off := cluster + cluster / 2;
      var val := buf[off] + 256 * buf[off + 1];
      r := if cluster % 2 == 1 then val / 16 else val % 4096;
    }

    /** fat_set_entry */
    method SetEntry(cluster: nat, value: nat)
      requires Valid() && cluster < max
      modifies buf
      ensures Valid() && T() == old(T())[cluster := value % 4096]
    {
      Bound(cluster);
      TableUpdate(buf[..], max, cluster, value);
      PackedSame(buf[..], cluster, value);
      ghost var p := Packed(buf[..], cluster, value);
      var off := cluster + cluster / 2;
      var v := value % 4096;
      if cluster % 2 == 1 {
        buf[off] := buf[off] % 16 + (v % 16) * 16;
        buf[off + 1] := (v / 16) % 256;
      } else {
        buf[off] := v % 256;
        buf[off + 1] := (buf[off + 1] / 16) * 16 + (v / 256) % 16;
      }
      assert buf[..] == p;
    }

    /** fat_alloc_cluster: the lowest free cluster, marked as an end of chain; 0 when none is free. */
    method AllocCluster() returns (r: nat)
      requires Valid()
      modifies buf
      ensures Valid()
      ensures var c := FirstFree(old(T()), 2);
              if c == max then r == 0 && buf[..] == old(buf[..]) else r == c && old(T())[c] == 0 && T() == old(T())[c := 0xFFF]
    {
      ghost var t0 := T();
      var c := 2;
      while c < max
        invariant 2 <= c <= max && Valid() && T() == t0 && buf[..] == old(buf[..]) && FirstFree(t0, 2) == FirstFree(t0, c)
      {
        var next := Next(c);
        if next == FREE {
          SetEntry(c, EOC_MARK);
          return c;
        }
        c := c + 1;
      }
      return 0;
    }

    /** fat_alloc_cluster, and the link from the last cluster of a chain (0: none) to the new one. */
    method AllocLinked(prev: nat) returns (c: nat)
      requires Valid() && prev < max
      modifies buf
      ensures Valid()
      ensures var f := FirstFree(old(T()), 2);
              if f == max then c == 0 && buf[..] == old(buf[..])
              else c == f && T() == if prev == 0 then old(T())[f := EOC_MARK] else old(T())[f := EOC_MARK][prev := f]
    {
      hide FirstFree;
      c := AllocCluster();
      if c != 0 && prev != 0 {
        SetEntry(prev, c);
      }
    }

    /** fat_free_chain: terminates on every in-range table, cyclic chains included, and frees exactly
        the clusters reachable from its argument. */
    method FreeChain(start: nat)
      requires Valid() && InRange(T()) && (start < max || start >= EOC)
      modifies buf
      ensures Valid() && T() == Cleared(old(T()), start)
    {
      ghost var t0 := T();
      ghost var n: nat := 0;
      var cluster := start;
      while cluster >= 2 && cluster < EOC
        invariant Valid() && FreedSoFar(t0, T(), start, n)
        invariant (0 <= cluster < max || cluster >= EOC)
        invariant if 2 <= cluster < EOC then Nth(t0, start, n) == cluster else ClosedAt(t0, start, n)
        decreases Used(T(), 0), if 2 <= cluster < EOC then 1 else 0
      {
        ghost var t := T();
        var next := Next(cluster);
        SetEntry(cluster, FREE);
        FreeStep(t0, t, start, n, cluster);
        UsedUpdate(t, cluster, FREE, 0);
        if t[cluster] == t0[cluster] {
          n := n + 1;
        }
        cluster := next;
      }
      FreedAll(t0, T(), start, n);
    }
  }

  /** One round of the free loop. A cluster that was already freed reads as free and ends the loop. */
  lemma FreeStep(t0: seq<int>, t: seq<int>, a: int, n: nat, c: int)
    requires InRange(t0) && FreedSoFar(t0, t, a, n) && Valid(t0, c) && Nth(t0, a, n) == c
    ensures t[c] == t0[c] ==> FreedSoFar(t0, t[c := FREE], a, n + 1)
    ensures t[c] == t0[c] ==> if Valid(t0, t[c]) then Nth(t0, a, n + 1) == t[c] else Nth(t0, a, n + 1) == 0
    ensures t[c] != t0[c] ==> t[c] == FREE && Met(t0, a, n, c) && t[c := FREE] == t
  {
    NthStep(t0, a, n);
    var t' := t[c := FREE];
    if t[c] == t0[c] {
      forall d | 0 <= d < |t0| ensures t'[d] == t0[d] || (t'[d] == FREE && Met(t0, a, n + 1, d)) {
        if Met(t0, a, n, d) {
          var i: nat :| i < n && Nth(t0, a, i) == d;
          assert i < n + 1;
        }
        if d == c { assert Nth(t0, a, n) == d && n < n + 1; }
      }
    }
  }
}
