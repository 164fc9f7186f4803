/** The FAT12 allocation table: 12-bit entries packed two to three bytes, edited in place, and the
cluster chains they link.

Entry packing follows section 4 (FAT) of the Microsoft FAT specification. Clusters 0 and 1 are
reserved; an entry of 0 is free and an entry of 0xFF8 or more ends a chain. */
module FatTable {

  type Bytes = seq<int>

  const EOC: int := 0xFF8
  const EOC_MARK: int := 0xFFF
  const FREE: int := 0

  ghost predicate IsBytes(b: Bytes) {
    forall i :: 0 <= i < |b| ==> 0 <= b[i] < 256
  }

  // ----- packed entries -----

  function Off(c: nat): nat { c + c / 2 }

  /** fat_next: the entry of cluster c. */
  function Entry(b: Bytes, c: nat): int
    requires Off(c) + 1 < |b|
  {
    var val := b[Off(c)] + 256 * b[Off(c) + 1];
    if c % 2 == 1 then val / 16 else val % 4096
  }

  /** fat_set_entry: both bytes are rewritten, each keeping the nibble of its other owner. */
  function Packed(b: Bytes, c: nat, value: nat): Bytes
    requires Off(c) + 1 < |b|
  {
    var v := value % 4096;
    if c % 2 == 1 then
      b[Off(c) := b[Off(c)] % 16 + (v % 16) * 16][Off(c) + 1 := (v / 16) % 256]
    else
      b[Off(c) := v % 256][Off(c) + 1 := (b[Off(c) + 1] / 16) * 16 + (v / 256) % 16]
  }

  /** The entry written is read back modulo 4096. */
  lemma PackedSame(b: Bytes, c: nat, value: nat)
    requires IsBytes(b) && Off(c) + 1 < |b|
    ensures IsBytes(Packed(b, c, value)) && Entry(Packed(b, c, value), c) == value % 4096
  {
    if c % 2 == 1 {
      OwnHigh(b[Off(c)], value % 4096);
    } else {
      OwnLow(b[Off(c) + 1], value % 4096);
    }
  }

  lemma OwnHigh(b0: int, v: nat)
    requires 0 <= b0 < 256 && v < 4096
    ensures 0 <= b0 % 16 + (v % 16) * 16 < 256 && 0 <= (v / 16) % 256 < 256
    ensures (b0 % 16 + (v % 16) * 16 + 256 * ((v / 16) % 256)) / 16 == v
  {
  }

  lemma OwnLow(b1: int, v: nat)
    requires 0 <= b1 < 256 && v < 4096
    ensures 0 <= v % 256 < 256 && 0 <= (b1 / 16) * 16 + (v / 256) % 16 < 256
    ensures (v % 256 + 256 * ((b1 / 16) * 16 + (v / 256) % 16)) % 4096 == v
  {
  }

  /** Every other entry is unchanged, also the one that shares a byte. */
  lemma PackedOther(b: Bytes, c: nat, value: nat, d: nat)
    requires IsBytes(b) && Off(c) + 1 < |b| && Off(d) + 1 < |b| && c != d
    ensures Entry(Packed(b, c, value), d) == Entry(b, d)
  {
    if c % 2 == 0 && d == c + 1 {
      SharedHigh(b[Off(c) + 1], value % 4096, b[Off(d) + 1]);
    } else if c % 2 == 1 && c == d + 1 {
      SharedLow(b[Off(d)], b[Off(c)], value % 4096);
    } else {
      assert Off(d) != Off(c) && Off(d) != Off(c) + 1 && Off(d) + 1 != Off(c);
    }
  }

  lemma SharedHigh(old1: int, v: nat, b2: int)
    requires 0 <= old1 < 256 && 0 <= b2 < 256 && v < 4096
    ensures ((old1 / 16) * 16 + (v / 256) % 16 + 256 * b2) / 16 == (old1 + 256 * b2) / 16
  {
  }

  lemma SharedLow(b0: int, old1: int, v: nat)
    requires 0 <= old1 < 256 && 0 <= b0 < 256 && v < 4096
    ensures (b0 + 256 * (old1 % 16 + (v % 16) * 16)) % 4096 == (b0 + 256 * old1) % 4096
  {
  }

  /** The packing of FAT12: two entries in three bytes. */
  lemma ThreeBytes(b: Bytes, k: nat)
    requires IsBytes(b) && 3 * k + 2 < |b|
    ensures Off(2 * k) + 1 < |b| && Entry(b, 2 * k) == b[3 * k] + 256 * (b[3 * k + 1] % 16)
    ensures Off(2 * k + 1) + 1 < |b| && Entry(b, 2 * k + 1) == b[3 * k + 1] / 16 + 16 * b[3 * k + 2]
  {
    assert 0 <= b[3 * k] < 256 && 0 <= b[3 * k + 1] < 256;
  }

  // ----- the table as a sequence -----

  /** The entries of clusters 0 to max - 1. */
  ghost function Table(b: Bytes, max: nat): (t: seq<int>)
    requires max > 0 ==> Off(max - 1) + 1 < |b|
    ensures |t| == max && forall c :: 0 <= c < max ==> t[c] == Entry(b, c)
  {
    seq(max, c requires 0 <= c < max => Entry(b, c))
  }

  lemma TableRange(b: Bytes, max: nat)
    requires IsBytes(b) && (max > 0 ==> Off(max - 1) + 1 < |b|)
    ensures forall c :: 0 <= c < max ==> 0 <= Table(b, max)[c] < 4096
  {
    forall c | 0 <= c < max ensures 0 <= Table(b, max)[c] < 4096 {
      assert Off(c) <= Off(max - 1);
    }
  }

  /** On the table, writing an entry is a sequence update. */
  lemma TableUpdate(b: Bytes, max: nat, c: nat, value: nat)
    requires IsBytes(b) && c < max && Off(max - 1) + 1 < |b|
    ensures Off(c) + 1 < |b| && Table(Packed(b, c, value), max) == Table(b, max)[c := value % 4096]
  {
    assert Off(c) <= Off(max - 1);
    var p := Packed(b, c, value);
    PackedSame(b, c, value);
    forall d: nat | d < max ensures Table(p, max)[d] == Table(b, max)[c := value % 4096][d] {
      assert Off(d) <= Off(max - 1);
      if d != c { PackedOther(b, c, value, d); }
    }
  }

  // ----- chains -----

  /** The i-th cluster of s is in range, and links to the next one or ends the chain. */
  ghost predicate Links(t: seq<int>, s: seq<int>, i: int)
    requires 0 <= i < |s|
  {
    2 <= s[i] < |t| && (if i + 1 < |s| then t[s[i]] == s[i + 1] else t[s[i]] >= EOC)
  }

  ghost predicate IsChain(t: seq<int>, s: seq<int>) {
    |s| > 0 && forall i {:trigger Links(t, s, i)} :: 0 <= i < |s| ==> Links(t, s, i)
  }

  /** A chain: clusters from 2 on, each linked to the next one, the last one marked by 0xFF8 or more. */
  lemma ChainLinks(t: seq<int>, s: seq<int>)
    ensures IsChain(t, s) <==>
              && s != [] && (forall i :: 0 <= i < |s| ==> 2 <= s[i] < |t|)
              && (forall i :: 1 <= i < |s| ==> t[s[i - 1]] == s[i]) && t[s[|s| - 1]] >= 0xFF8
  {
    if IsChain(t, s) {
      forall i | 0 <= i < |s| ensures 2 <= s[i] < |t| { assert Links(t, s, i); }
      forall i | 1 <= i < |s| ensures t[s[i - 1]] == s[i] { assert Links(t, s, i - 1); }
      assert Links(t, s, |s| - 1);
    } else if s != [] && (forall i :: 0 <= i < |s| ==> 2 <= s[i] < |t|) && (forall i :: 1 <= i < |s| ==> t[s[i - 1]] == s[i]) && t[s[|s| - 1]] >= 0xFF8 {
      forall i | 0 <= i < |s| ensures Links(t, s, i) {
        if i + 1 < |s| { assert t[s[i + 1 - 1]] == s[i + 1]; }
      }
    }
  }

  lemma ChainSuffix(t: seq<int>, s: seq<int>, k: nat)
    requires IsChain(t, s) && k < |s|
    ensures IsChain(t, s[k..])
  {
    forall i | 0 <= i < |s[k..]| ensures Links(t, s[k..], i) { assert Links(t, s, k + i); }
  }

  /** A chain is determined by its first cluster. */
  lemma {:induction false} ChainUnique(t: seq<int>, a: seq<int>, b: seq<int>)
    requires |t| <= EOC && IsChain(t, a) && IsChain(t, b) && a[0] == b[0]
    ensures a == b
    decreases |a|
  {
    if |a| > 1 { assert Links(t, a, 1); }
    if |b| > 1 { assert Links(t, b, 1); }
    assert Links(t, a, 0) && Links(t, b, 0);
    if |a| > 1 {
      ChainSuffix(t, a, 1);
      ChainSuffix(t, b, 1);
      ChainUnique(t, a[1..], b[1..]);
      assert a == [a[0]] + a[1..] && b == [b[0]] + b[1..];
    }
  }

  /** A chain that ends is acyclic. */
  lemma ChainDistinct(t: seq<int>, s: seq<int>, i: nat, j: nat)
    requires |t| <= EOC && IsChain(t, s) && i < j < |s|
    ensures s[i] != s[j]
  {
    if s[i] == s[j] {
      ChainSuffix(t, s, i);
      ChainSuffix(t, s, j);
      ChainUnique(t, s[i..], s[j..]);
    }
  }

  /** A chain does not notice changes outside itself. */
  lemma ChainFrame(t: seq<int>, t': seq<int>, s: seq<int>)
    requires IsChain(t, s) && |t'| == |t|
    requires forall i :: 0 <= i < |s| && 0 <= s[i] < |t| ==> t'[s[i]] == t[s[i]]
    ensures IsChain(t', s)
  {
    forall i | 0 <= i < |s| ensures Links(t', s, i) { assert Links(t, s, i); }
  }

  /** Appending a fresh cluster: the old end links to it and it carries the end mark. */
  function Extended(t: seq<int>, s: seq<int>, c: nat): seq<int>
    requires c < |t| && (|s| > 0 ==> 0 <= s[|s| - 1] < |t|)
  {
    if |s| == 0 then t[c := EOC_MARK] else t[c := EOC_MARK][s[|s| - 1] := c]
  }

  lemma ExtendChain(t: seq<int>, s: seq<int>, c: nat)
    requires |t| <= EOC && (s == [] || IsChain(t, s)) && 2 <= c < |t| && c !in s
    ensures |s| > 0 ==> 0 <= s[|s| - 1] < |t|
    ensures IsChain(Extended(t, s, c), s + [c])
  {
    if s != [] {
      assert Links(t, s, |s| - 1);
    }
    var t' := Extended(t, s, c);
    forall i | 0 <= i < |s| + 1 ensures Links(t', s + [c], i) {
      if i < |s| {
        assert Links(t, s, i);
        if i < |s| - 1 { ChainDistinct(t, s, i, |s| - 1); }
      }
    }
  }

  // ----- reachability and the free loop -----

  predicate Valid(t: seq<int>, c: int) { 2 <= c < |t| }

  /** Every link of the table stays in the table or ends a chain. */
  ghost predicate InRange(t: seq<int>) {
    |t| <= EOC && forall c :: 2 <= c < |t| ==> (0 <= t[c] < |t| || EOC <= t[c] < 4096)
  }

  /** The n-th successor of cluster a, or 0 once the chain has left the table. */
  ghost function Nth(t: seq<int>, a: int, n: nat): int
    decreases n
  {
    if !Valid(t, a) then 0 else if n == 0 then a else Nth(t, t[a], n - 1)
  }

  /** c can be reached from a by following links. */
  ghost predicate Reaches(t: seq<int>, a: int, c: int) {
    Valid(t, c) && exists n: nat :: Nth(t, a, n) == c
  }

  /** The table with every cluster reachable from a made free. */
  ghost function Cleared(t: seq<int>, a: int): (r: seq<int>)
    ensures |r| == |t| && forall c :: 0 <= c < |t| ==> r[c] == if Reaches(t, a, c) then FREE else t[c]
  {
    seq(|t|, c requires 0 <= c < |t| => if Reaches(t, a, c) then FREE else t[c])
  }

  lemma {:induction false} NthStep(t: seq<int>, a: int, n: nat)
    ensures Nth(t, a, n + 1) == if Valid(t, Nth(t, a, n)) then (if Valid(t, t[Nth(t, a, n)]) then t[Nth(t, a, n)] else 0) else 0
    decreases n
  {
    if Valid(t, a) && n > 0 {
      NthStep(t, t[a], n - 1);
    }
  }

  /** The non-free entries from cluster c on. */
  ghost function Used(t: seq<int>, c: nat): nat
    decreases |t| - c
  {
    if c >= |t| then 0 else (if t[c] != FREE then 1 else 0) + Used(t, c + 1)
  }

  lemma {:induction false} UsedUpdate(t: seq<int>, c: nat, v: int, from: nat)
    requires c < |t|
    ensures Used(t[c := v], from) == Used(t, from) + (if from <= c then (if v != FREE then 1 else 0) - (if t[c] != FREE then 1 else 0) else 0)
    decreases |t| - from
  {
    if from < |t| {
      UsedUpdate(t, c, v, from + 1);
    }
  }

  /** The number of free clusters. */
  ghost function Room(t: seq<int>): int {
    |t| - 2 - Used(t, 2)
  }

  /** The free clusters from c on, lowest first. */
  ghost function FreeList(t: seq<int>, c: nat): seq<int>
    decreases |t| - c
  {
    if c >= |t| then [] else (if t[c] == FREE then [c] else []) + FreeList(t, c + 1)
  }

  lemma {:induction false} FreeCount(t: seq<int>, c: nat)
    requires c <= |t|
    ensures |FreeList(t, c)| == |t| - c - Used(t, c)
    decreases |t| - c
  {
    if c < |t| { FreeCount(t, c + 1); }
  }

  lemma {:induction false} FreeMembers(t: seq<int>, c: nat)
    ensures forall d :: d in FreeList(t, c) <==> c <= d < |t| && t[d] == FREE
    decreases |t| - c
  {
    if c < |t| { FreeMembers(t, c + 1); }
  }

  lemma {:induction false} FreeSame(t: seq<int>, t': seq<int>, c: nat)
    requires |t| == |t'| && forall d :: c <= d < |t| ==> (t[d] == FREE <==> t'[d] == FREE)
    ensures FreeList(t', c) == FreeList(t, c)
    decreases |t| - c
  {
    if c < |t| { FreeSame(t, t', c + 1); }
  }

  /** Taking the lowest free cluster takes the head of the list. */
  lemma {:induction false} FreeHead(t: seq<int>, t': seq<int>, c: nat, k: nat)
    requires c <= k < |t| == |t'| && t[k] == FREE && (forall d :: c <= d < k ==> t[d] != FREE) && t'[k] != FREE
    requires forall d :: c <= d < |t| && d != k ==> (t[d] == FREE <==> t'[d] == FREE)
    ensures FreeList(t, c) == [k] + FreeList(t', c)
    decreases |t| - c
  {
    if c == k {
      FreeSame(t, t', c + 1);
    } else {
      FreeHead(t, t', c + 1, k);
    }
  }

  /** What the free loop has done after n steps: the clusters met so far are free. */
  ghost predicate FreedSoFar(t0: seq<int>, t: seq<int>, a: int, n: nat) {
    && |t| == |t0|
    && (forall i: nat {:trigger Nth(t0, a, i)} :: i < n ==> Valid(t0, Nth(t0, a, i)) && t[Nth(t0, a, i)] == FREE)
    && (forall c :: 0 <= c < |t0| ==> t[c] == t0[c] || (t[c] == FREE && Met(t0, a, n, c)))
  }

  ghost predicate Met(t0: seq<int>, a: int, n: nat, c: int) {
    exists i: nat :: i < n && Nth(t0, a, i) == c
  }

  /** When the next cluster is off the table the clusters met are exactly the reachable ones. */
  lemma FreedAll(t0: seq<int>, t: seq<int>, a: int, n: nat)
    requires FreedSoFar(t0, t, a, n) && ClosedAt(t0, a, n)
    ensures t == Cleared(t0, a)
  {
    forall c | 0 <= c < |t0| ensures t[c] == Cleared(t0, a)[c] {
      if Valid(t0, c) && Met(t0, a, n, c) {
        var i: nat :| i < n && Nth(t0, a, i) == c;
        assert Reaches(t0, a, c);
      }
      if Reaches(t0, a, c) {
        var k: nat :| Nth(t0, a, k) == c;
        var i := MetBefore(t0, a, n, k);
      }
    }
  }

  /** The walk from a has left the table, or come back to a cluster already met, after n steps. */
  ghost predicate ClosedAt(t0: seq<int>, a: int, n: nat) {
    Nth(t0, a, n) == 0 || Met(t0, a, n, Nth(t0, a, n))
  }

  lemma {:induction false} MetBefore(t0: seq<int>, a: int, n: nat, k: nat) returns (i: nat)
    requires ClosedAt(t0, a, n) && Valid(t0, Nth(t0, a, k))
    ensures i < n && Nth(t0, a, i) == Nth(t0, a, k)
    decreases k
  {
    if k < n {
      i := k;
    } else if k == n {
      i :| i < n && Nth(t0, a, i) == Nth(t0, a, n);
    } else {
      NthStep(t0, a, k - 1);
      var j := MetBefore(t0, a, n, k - 1);
      NthStep(t0, a, j);
      if j + 1 < n {
        i := j + 1;
      } else {
        i :| i < n && Nth(t0, a, i) == Nth(t0, a, n);
      }
    }
  }

  /** The i-th cluster of a chain is its head's i-th successor, and then the walk ends. */
  lemma {:induction false} ChainNth(t: seq<int>, s: seq<int>, i: nat)
    requires |t| <= EOC && IsChain(t, s)
    ensures Nth(t, s[0], i) == if i < |s| then s[i] else 0
    decreases i
  {
    assert Links(t, s, 0);
    if i > 0 {
      if |s| > 1 {
        ChainSuffix(t, s, 1);
        ChainNth(t, s[1..], i - 1);
        assert i < |s| ==> s[1..][i - 1] == s[i];
      }
    }
  }

  /** Freeing from the head of a chain frees exactly its clusters. */
  lemma ChainCleared(t: seq<int>, s: seq<int>, c: int)
    requires |t| <= EOC && IsChain(t, s) && 0 <= c < |t|
    ensures Cleared(t, s[0])[c] == if c in s then FREE else t[c]
  {
    if Reaches(t, s[0], c) {
      var n: nat :| Nth(t, s[0], n) == c;
      ChainNth(t, s, n);
    }
    if c in s {
      var i :| 0 <= i < |s| && s[i] == c;
      assert Links(t, s, i);
      ChainNth(t, s, i);
      assert Nth(t, s[0], i) == c;
    }
  }
}
