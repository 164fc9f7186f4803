/** Path components, and what a name or a path denotes on a volume. */
module FatPath {
  import opened FatTable
  import opened Dirent
  import opened FatInvariant

  const MAX_COMPONENT: nat := 12

  // ----- components -----

  function SkipSlashes(p: Bytes, i: nat): (r: nat)
    requires i <= |p|
    ensures i <= r <= |p| && (r < |p| ==> p[r] != SLASH)
    decreases |p| - i
  {
    if i < |p| && p[i] == SLASH then SkipSlashes(p, i + 1) else i
  }

  /** The end of the component that starts at i: a slash, the end, or n more characters. */
  function CompEnd(p: Bytes, i: nat, n: nat): (r: nat)
    requires i <= |p|
    ensures i <= r <= |p| && r <= i + n
    ensures n > 0 && i < |p| && p[i] != SLASH ==> i < r
    ensures SLASH !in p[i..r]
    decreases n
  {
    if n > 0 && i < |p| && p[i] != SLASH then CompEnd(p, i + 1, n - 1) else i
  }

  /** The components split_next yields from position i on; a component is cut at twelve characters and
      the rest counts as another one. */
  function Comps(p: Bytes, i: nat): (r: seq<Bytes>)
    requires i <= |p|
    decreases |p| - i
  {
    var s := SkipSlashes(p, i);
    if s == |p| then [] else
      var e := CompEnd(p, s, MAX_COMPONENT);
      [p[s..e]] + Comps(p, e)
  }

  lemma SliceMore(p: Bytes, i: nat, j: nat)
    requires i <= j < |p|
    ensures p[i..j] + [p[j]] == p[i..j + 1]
  {
  }

  lemma CompsStep(p: Bytes, i: nat)
    requires i <= |p|
    ensures var s := SkipSlashes(p, i);
            Comps(p, i) == if s == |p| then [] else [p[s..CompEnd(p, s, MAX_COMPONENT)]] + Comps(p, CompEnd(p, s, MAX_COMPONENT))
  {
  }

  /** split_next */
  method SplitNext(p: Bytes, pos: nat) returns (found: bool, comp: Bytes, next: nat)
    requires pos <= |p|
    ensures next <= |p| && (found ==> pos < next)
    ensures Comps(p, pos) == if found then [comp] + Comps(p, next) else []
    ensures found ==> 0 < |comp| <= MAX_COMPONENT && SLASH !in comp
  {
    hide Comps;
    CompsStep(p, pos);
    next := pos;
    while next < |p| && p[next] == SLASH
      invariant pos <= next <= |p| && SkipSlashes(p, pos) == SkipSlashes(p, next)
    {
      next := next + 1;
    }
    if next == |p| {
      return false, [], pos;
    }
    ghost var s := next;
    comp := [];
    var i := 0;
    while next < |p| && p[next] != SLASH && i < MAX_COMPONENT
      invariant i <= MAX_COMPONENT && next == s + i <= |p| && comp == p[s..next]
      invariant CompEnd(p, s, MAX_COMPONENT) == CompEnd(p, next, MAX_COMPONENT - i)
    {
      SliceMore(p, s, next);
      comp := comp + [p[next]];
      next := next + 1;
      i := i + 1;
    }
    found := true;
  }

  /** The components of a string without zero bytes have none either, and none is empty. */
  lemma {:induction false} CompsOfString(p: Bytes, i: nat)
    requires i <= |p| && 0 !in p
    ensures forall c :: c in Comps(p, i) ==> c != [] && 0 !in c
    decreases |p| - i
  {
    var s := SkipSlashes(p, i);
    if s < |p| { CompsOfString(p, CompEnd(p, s, MAX_COMPONENT)); }
  }

  /** Components behind a prefix are those of the rest. */
  lemma {:induction false} CompsOfRest(p: Bytes, i: nat)
    requires i <= |p|
    ensures Comps(p, i) == Comps(p[i..], 0)
    decreases |p| - i
  {
    hide Comps, CompEnd, SkipSlashes;
    var q := p[i..];
    var s := SkipSlashes(p, i);
    SkipOfRest(p, i, 0);
    CompsStep(p, i);
    CompsStep(q, 0);
    if s < |p| {
      var e := CompEnd(p, s, MAX_COMPONENT);
      EndOfRest(p, i, s - i, MAX_COMPONENT);
      CompsOfRest(p, e);
      CompsOfRest(q, e - i);
      assert q[e - i..] == p[e..];
      assert q[s - i..e - i] == p[s..e];
    }
  }

  lemma {:induction false} SkipOfRest(p: Bytes, i: nat, j: nat)
    requires i + j <= |p|
    ensures SkipSlashes(p, i + j) == i + SkipSlashes(p[i..], j)
    decreases |p| - j
  {
    if i + j < |p| && p[i + j] == SLASH { SkipOfRest(p, i, j + 1); }
  }

  lemma {:induction false} EndOfRest(p: Bytes, i: nat, j: nat, n: nat)
    requires i + j <= |p|
    ensures CompEnd(p, i + j, n) == i + CompEnd(p[i..], j, n)
    decreases n
  {
    if n > 0 && i + j < |p| && p[i + j] != SLASH { EndOfRest(p, i, j + 1, n - 1); }
  }

  lemma {:induction false} EndIs(p: Bytes, i: nat, n: nat, m: nat)
    requires i + m <= |p| && m <= n && (forall k :: i <= k < i + m ==> p[k] != SLASH) && (m == n || i + m == |p| || p[i + m] == SLASH)
    ensures CompEnd(p, i, n) == i + m
    decreases m
  {
    if m > 0 { EndIs(p, i + 1, n - 1, m - 1); }
  }

  /** A string of components, each behind a slash. */
  function Joined(comps: seq<Bytes>): Bytes {
    if comps == [] then [] else [0x2F] + comps[0] + Joined(comps[1..])
  }

  /** split_next takes such a string apart again, as long as no component is longer than twelve. */
  lemma {:induction false} SplitJoined(comps: seq<Bytes>)
    requires forall c :: c in comps ==> 0 < |c| <= 12 && 0x2F !in c
    ensures Comps(Joined(comps), 0) == comps
    decreases |comps|
  {
    hide Comps, SkipSlashes, CompEnd;
    if comps == [] {
      CompsStep([], 0);
    } else {
      var c, rest := comps[0], Joined(comps[1..]);
      var p := Joined(comps);
      CompsStep(p, 0);
      assert c in comps && c[0] in c;
      assert p == [0x2F] + c + rest && p[1 + |c|..] == rest;
      SkipIs(p, 0, 1);
      forall k | 1 <= k < 1 + |c| ensures p[k] != SLASH { assert p[k] == c[k - 1] && c[k - 1] in c; }
      EndIs(p, 1, MAX_COMPONENT, |c|);
      assert p[1..1 + |c|] == c;
      CompsOfRest(p, 1 + |c|);
      SplitJoined(comps[1..]);
    }
  }

  lemma {:induction false} SkipIs(p: Bytes, i: nat, n: nat)
    requires i <= n <= |p| && (forall k :: i <= k < n ==> p[k] == SLASH) && (n == |p| || p[n] != SLASH)
    ensures SkipSlashes(p, i) == n
    decreases n - i
  {
    if i < n { SkipIs(p, i + 1, n); }
  }

  /** A longer one is cut, and its rest is another component. */
  lemma LongComponent(c: Bytes)
    requires |c| > 12 && 0x2F !in c
    ensures Comps(c, 0) == [c[..12]] + Comps(c[12..], 0)
  {
    assert c[0] in c;
    SkipIs(c, 0, 0);
    forall k | 0 <= k < 12 ensures c[k] != SLASH { assert c[k] in c; }
    EndIs(c, 0, MAX_COMPONENT, 12);
    CompsOfRest(c, 12);
  }

  /** Two lists of components that differ at most in the case of letters. */
  predicate SameNames(a: seq<Bytes>, b: seq<Bytes>) {
    |a| == |b| && forall k :: 0 <= k < |a| ==> SameLetters(a[k], b[k])
  }

  lemma {:induction false} SkipSame(p: Bytes, q: Bytes, i: nat)
    requires SameLetters(p, q) && i <= |p|
    ensures SkipSlashes(p, i) == SkipSlashes(q, i)
    decreases |p| - i
  {
    if i < |p| {
      assert SameLetter(p[i], q[i]);
      if p[i] == SLASH { SkipSame(p, q, i + 1); }
    }
  }

  lemma {:induction false} EndSame(p: Bytes, q: Bytes, i: nat, n: nat)
    requires SameLetters(p, q) && i <= |p|
    ensures CompEnd(p, i, n) == CompEnd(q, i, n)
    decreases n
  {
    if n > 0 && i < |p| {
      assert SameLetter(p[i], q[i]);
      if p[i] != SLASH { EndSame(p, q, i + 1, n - 1); }
    }
  }

  lemma {:induction false} CompsSame(p: Bytes, q: Bytes, i: nat)
    requires SameLetters(p, q) && i <= |p|
    ensures SameNames(Comps(p, i), Comps(q, i))
    decreases |p| - i
  {
    SkipSame(p, q, i);
    var s := SkipSlashes(p, i);
    if s < |p| {
      EndSame(p, q, s, MAX_COMPONENT);
      var e := CompEnd(p, s, MAX_COMPONENT);
      CompsSame(p, q, e);
      assert SameLetters(p[s..e], q[s..e]);
    }
  }

  // ----- names -----

  ghost predicate IsDirNo(g: Geo, w: Witness, d: int)
    requires |w.isDir| == g.max
  {
    d == 0 || (2 <= d < g.max && w.isDir[d])
  }

  /** Slot s of directory d holds the live entry of that name. */
  ghost predicate Named(g: Geo, v: View, w: Witness, d: int, name: Bytes, s: Slot)
    requires Shape(g, v, w)
  {
    LiveAt(g, v, w, NONE, s) && DirOf(w, s.a) == d && Name(Ent(g, v, s)) == name
  }

  /** The slot of that name in directory d, or NONE. */
  ghost function Lookup(g: Geo, v: View, w: Witness, d: int, name: Bytes): (s: Slot)
    requires Shape(g, v, w)
    ensures s != NONE ==> Named(g, v, w, d, name, s)
    ensures s == NONE ==> forall r :: !Named(g, v, w, d, name, r)
  {
    if r :| Named(g, v, w, d, name, r) then r else NONE
  }

  lemma LookupUnique(g: Geo, v: View, w: Witness, d: int, name: Bytes, s: Slot)
    requires Inv(g, v, w) && Named(g, v, w, d, name, s)
    ensures Lookup(g, v, w, d, name) == s
  {
    var r := Lookup(g, v, w, d, name);
    assert PairOk(g, v, w, NONE, s, r);
  }

  datatype Target = Root | At(d: int, name: Bytes) | Missing | NotDirectory

  /** What a list of components denotes, starting from directory d: the directory that holds the last
      one, and its stored name. */
  ghost function Walk(g: Geo, v: View, w: Witness, d: int, comps: seq<Bytes>): Target
    requires Shape(g, v, w)
    decreases |comps|
  {
    if comps == [] then Root
    else if |comps| == 1 then At(d, ToFatName(comps[0]))
    else
      var s := Lookup(g, v, w, d, ToFatName(comps[0]));
      if s == NONE then Missing
      else if !IsDirectory(Ent(g, v, s)) then NotDirectory
      else Walk(g, v, w, First(Ent(g, v, s)), comps[1..])
  }

  ghost function Resolve(g: Geo, v: View, w: Witness, path: Bytes): Target
    requires Shape(g, v, w)
  {
    Walk(g, v, w, 0, Comps(path, 0))
  }

  lemma {:induction false} WalkSame(g: Geo, v: View, w: Witness, d: int, a: seq<Bytes>, b: seq<Bytes>)
    requires Shape(g, v, w) && SameNames(a, b)
    ensures Walk(g, v, w, d, a) == Walk(g, v, w, d, b)
    decreases |a|
  {
    if a != [] {
      CaseIgnored(a[0], b[0]);
      var s := Lookup(g, v, w, d, ToFatName(a[0]));
      if |a| > 1 && s != NONE { WalkSame(g, v, w, First(Ent(g, v, s)), a[1..], b[1..]); }
    }
  }

  /** Paths that differ at most in the case of letters denote the same. */
  lemma PathsIgnoreCase(g: Geo, v: View, w: Witness, p: Bytes, q: Bytes)
    requires Shape(g, v, w) && SameLetters(p, q)
    ensures Resolve(g, v, w, p) == Resolve(g, v, w, q)
  {
    CompsSame(p, q, 0);
    WalkSame(g, v, w, 0, Comps(p, 0), Comps(q, 0));
  }

  lemma FatNameNonZero(name: Bytes)
    requires name != [] && 0 !in name
    ensures ToFatName(name)[0] != 0
  {
    FatNameAt(name, 0);
    assert name[0] in name;
  }

  /** The stored form of the last component of a C string starts with neither a zero byte nor a dot. */
  lemma ResolveName(g: Geo, v: View, w: Witness, path: Bytes)
    requires Shape(g, v, w) && 0 !in path
    ensures var t := Resolve(g, v, w, path); t.At? ==> |t.name| == NAME_LEN && t.name[0] != 0 && t.name[0] != DOT
  {
    CompsOfString(path, 0);
    WalkName(g, v, w, 0, Comps(path, 0));
  }

  lemma {:induction false} WalkName(g: Geo, v: View, w: Witness, d: int, comps: seq<Bytes>)
    requires Shape(g, v, w) && forall c :: c in comps ==> c != [] && 0 !in c
    ensures var t := Walk(g, v, w, d, comps); t.At? ==> |t.name| == NAME_LEN && t.name[0] != 0 && t.name[0] != DOT
    decreases |comps|
  {
    if |comps| == 1 {
      assert comps[0] in comps;
      FatNameNonZero(comps[0]);
      FatNameFirst(comps[0]);
    } else if |comps| > 1 {
      var s := Lookup(g, v, w, d, ToFatName(comps[0]));
      if s != NONE {
        forall c | c in comps[1..] ensures c in comps { }
        WalkName(g, v, w, First(Ent(g, v, s)), comps[1..]);
      }
    }
  }

  /** No entry bears a name that starts with the deletion mark. */
  lemma NoDeletedName(g: Geo, v: View, w: Witness, d: int, name: Bytes)
    requires Shape(g, v, w) && |name| == NAME_LEN && name[0] == DELETED
    ensures Lookup(g, v, w, d, name) == NONE
  {
    var s := Lookup(g, v, w, d, name);
  }

  /** The directory a live directory entry leads to. */
  lemma SubDirectory(g: Geo, v: View, w: Witness, s: Slot)
    requires Inv(g, v, w) && LiveAt(g, v, w, NONE, s) && IsDirectory(Ent(g, v, s))
    ensures IsDirNo(g, w, First(Ent(g, v, s))) && First(Ent(g, v, s)) != 0
  {
    assert SlotOk(g, v, w, NONE, s);
  }

  /** A converted name never starts with a dot, so "." and ".." cannot be asked for. */
  lemma FatNameFirst(name: Bytes)
    ensures ToFatName(name)[0] != DOT
  {
    var b := BaseLen(name, 0);
    assert ToFatName(name)[0] == Pad(Upper(BasePart(name)), 8)[0];
  }
}
