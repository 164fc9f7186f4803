/** path_normalize: an absolute path without empty, "." and ".." components. */
module PathNormalize {

  const MAX_PATH_DEPTH: nat := 16

  /** The characters kept of one component: a 32-byte buffer with its terminator. */
  const COMPONENT: nat := 31

  /** The characters before the first '/'. */
  function Span(s: string): (n: nat)
    ensures n <= |s| && '/' !in s[..n] && (n < |s| ==> s[n] == '/')
  {
    if s == [] || s[0] == '/' then 0 else 1 + Span(s[1..])
  }

  /** A non-empty run of characters between slashes. */
  predicate Piece(c: string) {
    c != "" && '/' !in c
  }

  /** The '/'-separated components of a path. */
  function Pieces(s: string): (r: seq<string>)
    ensures forall c :: c in r ==> Piece(c)
    decreases |s|
  {
    if s == [] then [] else if s[0] == '/' then Pieces(s[1..])
    else var n := Span(s); [s[..n]] + Pieces(s[n..])
  }

  function Cut(c: string): (r: string)
    requires Piece(c)
    ensures Piece(r) && |r| <= COMPONENT && (|c| <= COMPONENT ==> r == c)
  {
    if |c| <= COMPONENT then c else c[..COMPONENT]
  }

  /** What one component does to the stack. */
  function Applied(stack: seq<string>, c: string): (r: seq<string>) {
    if c == "." then stack
    else if c == ".." then (if stack == [] then stack else stack[..|stack| - 1])
    else if |stack| < MAX_PATH_DEPTH then stack + [c]
    else stack
  }

  /** The components a normalized path may hold. */
  predicate Name(c: string) {
    Piece(c) && |c| <= COMPONENT && c != "." && c != ".."
  }

  predicate StackOk(stack: seq<string>) {
    |stack| <= MAX_PATH_DEPTH && forall c :: c in stack ==> Name(c)
  }

  /** The stack after all components, each cut to the buffer first. */
  function Fold(pieces: seq<string>, stack: seq<string>): (r: seq<string>)
    requires forall c :: c in pieces ==> Piece(c)
    requires StackOk(stack)
    ensures StackOk(r)
    decreases |pieces|
  {
    if pieces == [] then stack else Fold(pieces[1..], Applied(stack, Cut(pieces[0])))
  }

  function Stack(s: string): (r: seq<string>)
    ensures StackOk(r)
  {
    Fold(Pieces(s), [])
  }

  /** Each component with a '/' before it. */
  function Body(stack: seq<string>): (t: string) {
    if stack == [] then "" else Body(stack[..|stack| - 1]) + "/" + stack[|stack| - 1]
  }

  /** The path of a whole stack. */
  function Join(stack: seq<string>): (t: string) {
    if stack == [] then "/" else Body(stack)
  }

  /** The most leading components that leave two bytes of the buffer. */
  function Kept(stack: seq<string>, size: nat): (k: nat)
    ensures k <= |stack|
  {
    if stack == [] || |Body(stack)| + 2 < size then |stack| else Kept(stack[..|stack| - 1], size)
  }

  /** The output after k components: the '/' after one is written before the next is known to fit. */
  function Text(stack: seq<string>, k: nat): (t: string)
    requires k <= |stack|
  {
    if 0 < k == |stack| then Body(stack) else Body(stack[..k]) + "/"
  }

  /** path_normalize with an output buffer of size bytes. */
  function Normalize(s: string, size: nat): (t: string) {
    Text(Stack(s), Kept(Stack(s), size))
  }

  // Components of concatenated and of joined paths.

  lemma {:induction false} SpanOfConcat(a: string, b: string)
    ensures Span(a + "/" + b) == Span(a)
  {
    var s := a + "/" + b;
    if a != [] && a[0] != '/' {
      assert s[1..] == a[1..] + "/" + b;
      SpanOfConcat(a[1..], b);
    }
  }

  lemma {:induction false} PiecesOfConcat(a: string, b: string)
    ensures Pieces(a + "/" + b) == Pieces(a) + Pieces(b)
    decreases |a|
  {
    var s := a + "/" + b;
    if a == [] {
      assert s[1..] == b;
    } else if a[0] == '/' {
      assert s[1..] == a[1..] + "/" + b;
      PiecesOfConcat(a[1..], b);
    } else {
      var n := Span(a);
      SpanOfConcat(a, b);
      assert s[..n] == a[..n] && s[n..] == a[n..] + "/" + b;
      PiecesOfConcat(a[n..], b);
    }
  }

  lemma {:induction false} SpanOfPiece(c: string)
    requires '/' !in c
    ensures Span(c) == |c|
  {
    if c != [] {
      SpanOfPiece(c[1..]);
    }
  }

  lemma PiecesOfPiece(c: string)
    requires Piece(c)
    ensures Pieces(c) == [c]
  {
    SpanOfPiece(c);
    assert c[..|c|] == c && c[|c|..] == [];
  }

  lemma {:induction false} PiecesOfBody(stack: seq<string>)
    requires forall c :: c in stack ==> Piece(c)
    ensures Pieces(Body(stack)) == stack
  {
    if stack != [] {
      var most, last := stack[..|stack| - 1], stack[|stack| - 1];
      PiecesOfBody(most);
      PiecesOfPiece(last);
      PiecesOfConcat(Body(most), last);
    }
  }

  lemma PiecesOfText(stack: seq<string>, k: nat)
    requires k <= |stack| && forall c :: c in stack ==> Piece(c)
    ensures Pieces(Text(stack, k)) == stack[..k]
  {
    PiecesOfBody(stack[..k]);
    PiecesOfConcat(Body(stack[..k]), "");
    assert Body(stack[..k]) + "/" + "" == Body(stack[..k]) + "/";
    assert k == |stack| ==> stack[..k] == stack;
  }

  // The fold.

  lemma {:induction false} FoldConcat(a: seq<string>, b: seq<string>, stack: seq<string>)
    requires forall c :: c in a + b ==> Piece(c)
    requires StackOk(stack)
    ensures forall c :: c in a || c in b ==> Piece(c)
    ensures Fold(a + b, stack) == Fold(b, Fold(a, stack))
    decreases |a|
  {
    forall c | c in a || c in b ensures Piece(c) { assert c in a + b; }
    if a == [] {
      assert a + b == b;
    } else {
      assert (a + b)[1..] == a[1..] + b;
      FoldConcat(a[1..], b, Applied(stack, Cut(a[0])));
    }
  }

  lemma {:induction false} FoldOfNames(names: seq<string>, stack: seq<string>)
    requires StackOk(stack + names)
    ensures StackOk(stack) && (forall c :: c in names ==> Name(c))
    ensures Fold(names, stack) == stack + names
    decreases |names|
  {
    forall c | c in stack ensures Name(c) { assert c in stack + names; }
    forall c | c in names ensures Name(c) { assert c in stack + names; }
    if names == [] {
      assert stack + names == stack;
    } else {
      assert Name(names[0]);
      assert (stack + [names[0]]) + names[1..] == stack + names;
      FoldOfNames(names[1..], stack + [names[0]]);
    }
  }

  /** Normalizing an output finds the components it kept. */
  lemma StackOfText(stack: seq<string>, k: nat)
    requires k <= |stack| && StackOk(stack)
    ensures StackOk(stack[..k]) && Stack(Text(stack, k)) == stack[..k]
  {
    PiecesOfText(stack, k);
    assert [] + stack[..k] == stack[..k];
    FoldOfNames(stack[..k], []);
  }

  lemma StackOfConcat(a: string, b: string)
    ensures Stack(a + "/" + b) == Fold(Pieces(b), Stack(a))
  {
    PiecesOfConcat(a, b);
    FoldConcat(Pieces(a), Pieces(b), []);
  }

  // The output limit.

  lemma {:induction false} BodyGrows(stack: seq<string>, k: nat)
    requires k <= |stack|
    ensures |Body(stack[..k])| <= |Body(stack)|
  {
    if k == |stack| {
      assert stack[..k] == stack;
    } else {
      var most := stack[..|stack| - 1];
      BodyGrows(most, k);
      assert most[..k] == stack[..k];
    }
  }

  /** Kept is where the output loop stops. */
  lemma {:induction false} KeptIs(stack: seq<string>, size: nat, k: nat)
    requires k <= |stack|
    requires k == 0 || |Body(stack[..k])| + 2 < size
    requires k == |stack| || |Body(stack[..k + 1])| + 2 >= size
    ensures Kept(stack, size) == k
  {
    if k == |stack| {
      assert stack[..k] == stack;
    } else {
      var most := stack[..|stack| - 1];
      BodyGrows(stack, k + 1);
      assert most[..k] == stack[..k];
      if k < |most| {
        assert most[..k + 1] == stack[..k + 1];
      }
      KeptIs(most, size, k);
    }
  }

  lemma {:induction false} KeptFits(stack: seq<string>, size: nat)
    ensures var k := Kept(stack, size);
            && (k == 0 || |Body(stack[..k])| + 2 < size)
            && (k == |stack| || |Body(stack[..k + 1])| + 2 >= size)
  {
    if stack == [] || |Body(stack)| + 2 < size {
      assert stack[..|stack|] == stack;
    } else {
      var most := stack[..|stack| - 1];
      KeptFits(most, size);
      var k := Kept(most, size);
      assert most[..k] == stack[..k];
      if k == |most| {
        assert stack[..k + 1] == stack;
      } else {
        assert most[..k + 1] == stack[..k + 1];
      }
    }
  }

  /** Keeping the kept components changes nothing. */
  lemma KeptAgain(stack: seq<string>, size: nat)
    ensures Kept(stack[..Kept(stack, size)], size) == Kept(stack, size)
  {
    var k := Kept(stack, size);
    KeptFits(stack, size);
    assert stack[..k][..k] == stack[..k];
    KeptIs(stack[..k], size, k);
  }

  /** The stack's path is not cut by the buffer. */
  predicate Whole(stack: seq<string>, size: nat) {
    stack == [] || |Join(stack)| + 2 < size
  }

  // What path_normalize promises.

  /** The stack of a path without any limit. */
  function Plain(pieces: seq<string>, stack: seq<string>): (r: seq<string>)
    decreases |pieces|
  {
    if pieces == [] then stack
    else var c := pieces[0];
         Plain(pieces[1..], if c == "." then stack
                            else if c == ".." then (if stack == [] then [] else stack[..|stack| - 1])
                            else stack + [c])
  }

  /** No component is cut and no push is refused. */
  predicate WithinLimits(pieces: seq<string>, depth: nat)
    decreases |pieces|
  {
    pieces == [] || (
      var c := pieces[0];
      && |c| <= COMPONENT
      && (c == "." || c == ".." || depth < MAX_PATH_DEPTH)
      && WithinLimits(pieces[1..], if c == "." then depth else if c == ".." then (if depth == 0 then 0 else depth - 1) else depth + 1))
  }

  lemma {:induction false} FoldIsPlain(pieces: seq<string>, stack: seq<string>)
    requires forall c :: c in pieces ==> Piece(c)
    requires StackOk(stack) && WithinLimits(pieces, |stack|)
    ensures Fold(pieces, stack) == Plain(pieces, stack)
    decreases |pieces|
  {
    if pieces != [] {
      FoldIsPlain(pieces[1..], Applied(stack, Cut(pieces[0])));
    }
  }

  /** The output is the whole path of the stack exactly when that leaves two bytes. */
  lemma WholeOutput(s: string, size: nat)
    ensures Normalize(s, size) == Join(Stack(s)) <==> Whole(Stack(s), size)
  {
    var stack := Stack(s);
    var k := Kept(stack, size);
    KeptFits(stack, size);
    assert stack[..|stack|] == stack;
    if k < |stack| {
      BodyGrows(stack, k + 1);
      PiecesOfText(stack, k);
      PiecesOfBody(stack);
    }
  }

  /** Within the limits the result is the unbounded stack fold over the components. */
  lemma NormalizeIsFold(s: string, size: nat)
    requires WithinLimits(Pieces(s), 0)
    ensures Normalize(s, size) == Join(Plain(Pieces(s), [])) <==> Whole(Plain(Pieces(s), []), size)
  {
    FoldIsPlain(Pieces(s), []);
    WholeOutput(s, size);
  }

  /** Absolute, inside the buffer, and made of proper names: one '/' before each, one more where the buffer cut. */
  lemma OutputShape(s: string, size: nat)
    requires size >= 2
    ensures var t := Normalize(s, size);
            && |t| < size
            && t[0] == '/'
            && (forall c :: c in Pieces(t) ==> Name(c)) && |Pieces(t)| <= MAX_PATH_DEPTH
            && Pieces(t) <= Stack(s)
            && t == (if Pieces(t) == [] then "/" else if Pieces(t) == Stack(s) then Body(Pieces(t)) else Body(Pieces(t)) + "/")
  {
    var stack := Stack(s);
    var k := Kept(stack, size);
    KeptFits(stack, size);
    PiecesOfText(stack, k);
    assert stack[..|stack|] == stack;
    assert stack[..k] <= stack;
    BodyStarts(stack[..k]);
  }

  lemma {:induction false} BodyStarts(stack: seq<string>)
    ensures stack != [] ==> Body(stack) != "" && Body(stack)[0] == '/'
  {
    if stack != [] {
      BodyStarts(stack[..|stack| - 1]);
    }
  }

  /** Normalizing again drops the '/' that the cut left behind a component. */
  lemma SecondPass(s: string, size: nat)
    ensures var stack := Stack(s);
            var k := Kept(stack, size);
            Normalize(Normalize(s, size), size) == Normalize(s, size) <==> (k == 0 || k == |stack|)
  {
    var stack := Stack(s);
    var k := Kept(stack, size);
    StackOfText(stack, k);
    KeptAgain(stack, size);
    assert stack[..|stack|] == stack && stack[..k][..k] == stack[..k];
  }

  lemma NothingKept(stack: seq<string>, size: nat)
    requires stack != []
    ensures Kept(stack, size) == 0 <==> |stack[0]| + 3 >= size
  {
    var k := Kept(stack, size);
    KeptFits(stack, size);
    assert stack[..1] == [stack[0]];
    assert Body(stack[..1]) == "/" + stack[0] by { assert stack[..1][..0] == []; }
    if k > 0 {
      BodyGrows(stack[..k], 1);
      assert stack[..k][..1] == stack[..1];
    }
  }

  /** Normalizing again changes nothing exactly when the buffer cut nothing, or cut everything. */
  lemma Idempotent(s: string, size: nat)
    ensures Normalize(Normalize(s, size), size) == Normalize(s, size)
      <==> (Whole(Stack(s), size) || |Stack(s)[0]| + 3 >= size)
  {
    var stack := Stack(s);
    SecondPass(s, size);
    WholeKeepsAll(stack, size);
    if stack != [] {
      NothingKept(stack, size);
    }
  }

  /** Neither law holds of every path: an eight-byte buffer cuts "aa/bb" to "/aa/", and that to "/aa". */
  lemma CutLeavesSlash(x: string, y: string)
    requires Name(x) && Name(y) && |x| == 2 && |y| == 2
    ensures Normalize(x + "/" + y, 8) == "/" + x + "/"
    ensures Normalize(Normalize(x + "/" + y, 8), 8) == "/" + x
    ensures !Composes(x + "/" + y, "", 8)
  {
    hide Pieces, Fold;
    var s, stack := x + "/" + y, [x, y];
    PiecesOfPiece(x);
    PiecesOfPiece(y);
    PiecesOfConcat(x, y);
    assert [x] + [y] == stack && [] + stack == stack;
    FoldOfNames(stack, []);
    assert Stack(s) == stack;
    assert stack[..1] == [x] && Body([x]) == "/" + x by { assert [x][..0] == []; }
    assert stack[..2] == stack && Body(stack) == "/" + x + "/" + y;
    KeptIs(stack, 8, 1);
    StackOfText(stack, 1);
    KeptAgain(stack, 8);
    NoMore(s);
    NoMore(Normalize(s, 8));
  }

  lemma NoMore(a: string)
    ensures Stack(a + "/" + "") == Stack(a)
  {
    StackOfConcat(a, "");
  }

  lemma WholeKeepsAll(stack: seq<string>, size: nat)
    ensures Whole(stack, size) <==> Kept(stack, size) == |stack|
  {
    KeptFits(stack, size);
    assert stack[..|stack|] == stack;
  }

  /** Normalizing the front of a path first makes no difference. */
  predicate Composes(a: string, b: string, size: nat) {
    Normalize(a + "/" + b, size) == Normalize(Normalize(a, size) + "/" + b, size)
  }

  lemma WholeComposes(a: string, b: string, size: nat)
    requires Whole(Stack(a), size)
    ensures Composes(a, b, size)
  {
    var stack := Stack(a);
    WholeKeepsAll(stack, size);
    assert stack[..|stack|] == stack;
    StackOfText(stack, |stack|);
    StackOfConcat(a, b);
    StackOfConcat(Normalize(a, size), b);
  }

  /** A buffer of four bytes holds no component. */
  lemma TinyBuffer(s: string, size: nat)
    requires size <= 4
    ensures Normalize(s, size) == "/"
  {
    var stack := Stack(s);
    if stack != [] {
      assert stack[0] in stack && stack[..1] == [stack[0]] && Body(stack[..1]) == "/" + stack[0];
      assert stack[..0] == [];
      KeptIs(stack, size, 0);
    }
  }

  /** Where the buffer cuts the front, a continuation shows the difference. */
  lemma CutDoesNotCompose(a: string, size: nat)
    requires !Whole(Stack(a), size) && size > 4
    ensures !Composes(a, "", size) || !Composes(a, "x", size)
  {
    var stack := Stack(a);
    var k := Kept(stack, size);
    var t := Normalize(a, size);
    WholeKeepsAll(stack, size);
    KeptFits(stack, size);
    StackOfText(stack, k);
    KeptAgain(stack, size);
    if k > 0 {
      StackOfConcat(a, "");
      StackOfConcat(t, "");
      assert stack[..k][..k] == stack[..k];
    } else {
      CutToNothing(a, size);
    }
  }

  lemma CutToNothing(a: string, size: nat)
    requires Stack(a) != [] && Kept(Stack(a), size) == 0 && size > 4
    ensures !Composes(a, "x", size)
  {
    hide Kept, Fold, Pieces;
    var stack := Stack(a);
    StackOfText(stack, 0);
    assert stack[..0] == [];
    PushX(a);
    PushX(Normalize(a, size));
    NothingKept(stack, size);
    NothingKept(Applied(stack, "x"), size);
    NothingKept(["x"], size);
    var longer := Applied(stack, "x");
    assert Text(longer, 0) == "/" by { assert longer[..0] == []; }
    assert Text(["x"], 1) != "/" by { assert |Body(["x"])| == 2; }
  }

  lemma PushX(a: string)
    ensures Stack(a + "/" + "x") == Applied(Stack(a), "x")
  {
    PiecesOfPiece("x");
    StackOfConcat(a, "x");
    FoldOne("x", Stack(a));
  }

  lemma FoldOne(c: string, stack: seq<string>)
    requires Name(c) && StackOk(stack)
    ensures Fold([c], stack) == Applied(stack, c)
  {
    assert [c][1..] == [];
    assert Fold([c][1..], Applied(stack, Cut(c))) == Applied(stack, c);
  }

  /** One component more: "." stays, ".." goes up, any other name is entered, cut after 31 bytes, unless
      sixteen have been entered already. */
  lemma OneMore(a: string, c: string)
    requires c != "" && '/' !in c
    ensures var stack := Stack(a);
            Stack(a + "/" + c)
            == if c == "." then stack
               else if c == ".." then (if stack == [] then [] else stack[..|stack| - 1])
               else if |stack| < 16 then stack + [if |c| <= 31 then c else c[..31]] else stack
  {
    PiecesOfPiece(c);
    StackOfConcat(a, c);
    FoldSingle(c, Stack(a));
  }

  lemma FoldSingle(c: string, stack: seq<string>)
    requires Piece(c) && StackOk(stack)
    ensures Fold([c], stack) == Applied(stack, Cut(c))
  {
    assert [c][1..] == [];
    assert Fold([c][1..], Applied(stack, Cut(c))) == Applied(stack, Cut(c));
  }

  /** A trailing slash, or a second one, adds nothing. */
  lemma NothingMore(a: string, b: string)
    ensures Stack("") == [] && Stack(a + "/") == Stack(a) && Stack(a + "/" + "/" + b) == Stack(a + "/" + b)
  {
    StackOfConcat(a, "");
    assert a + "/" + "" == a + "/";
    assert (a + "/") + "/" + b == a + "/" + "/" + b;
    StackOfConcat(a + "/", b);
    StackOfConcat(a, b);
  }

  lemma DotsResolved()
    ensures Normalize("/a/./b/../c/", 64) == "/a/c"
  {
    hide Stack, Normalize, Pieces, Fold;
    NothingMore("/a/./b/../c", "");
    OneMore("", "a");
    OneMore("/a", ".");
    OneMore("/a/.", "b");
    OneMore("/a/./b", "..");
    OneMore("/a/./b/..", "c");
    assert "" + "/" + "a" == "/a" && "/a" + "/" + "." == "/a/." && "/a/." + "/" + "b" == "/a/./b";
    assert "/a/./b" + "/" + ".." == "/a/./b/.." && "/a/./b/.." + "/" + "c" == "/a/./b/../c" && "/a/./b/../c" + "/" == "/a/./b/../c/";
    TwoNames("/a/./b/../c/");
  }

  lemma TwoNames(s: string)
    requires Stack(s) == ["a", "c"]
    ensures Normalize(s, 64) == "/a/c"
  {
    var stack := ["a", "c"];
    assert stack[..1] == ["a"] && ["a"][..0] == [];
    assert Body(["a"]) == "/a" && Body(stack) == "/a/c";
    WholeOutput(s, 64);
  }

  /** normalize(a/b) = normalize(normalize(a)/b) for every b exactly when a itself is not cut, or nothing ever fits. */
  lemma ComposesIff(a: string, size: nat)
    ensures (forall b: string {:trigger Composes(a, b, size)} :: Composes(a, b, size)) <==> (Whole(Stack(a), size) || size <= 4)
  {
    if Whole(Stack(a), size) {
      forall b: string ensures Composes(a, b, size) { WholeComposes(a, b, size); }
    } else if size <= 4 {
      forall b: string ensures Composes(a, b, size) {
        TinyBuffer(a + "/" + b, size);
        TinyBuffer(Normalize(a, size) + "/" + b, size);
      }
    } else {
      CutDoesNotCompose(a, size);
    }
  }

  // The code: a component stack, then the output loop.

  /** From p to q there is no '/'. */
  predicate Run(input: string, p: nat, q: nat) {
    p <= q <= |input| && forall k :: p <= k < q ==> input[k] != '/'
  }

  /** One component from position p on, cut to its buffer; q is behind it. */
  method NextComponent(input: string, p: nat) returns (comp: string, q: nat)
    requires p < |input| && input[p] != '/'
    ensures p < q <= |input| && Pieces(input[p..]) == [input[p..q]] + Pieces(input[q..])
    ensures Piece(input[p..q]) && comp == Cut(input[p..q])
    ensures forall c :: c in Pieces(input[q..]) ==> Piece(c)
  {
    hide Pieces;
    comp, q := "", p;
    while q < |input| && input[q] != '/' && |comp| < COMPONENT
      invariant Run(input, p, q) && comp == input[p..q] && |comp| <= COMPONENT
    {
      comp := comp + [input[q]];
      q := q + 1;
    }
    ghost var full := q;
    while q < |input| && input[q] != '/'
      invariant Run(input, p, q) && full <= q && (full == q || full - p == COMPONENT)
    {
      q := q + 1;
    }
    PieceIs(input, p, q);
    if full < q {
      assert input[p..q][..COMPONENT] == input[p..full];
    }
  }

  lemma PieceIs(input: string, p: nat, q: nat)
    requires Run(input, p, q) && p < q && (q == |input| || input[q] == '/')
    ensures Piece(input[p..q]) && Pieces(input[p..]) == [input[p..q]] + Pieces(input[q..])
    ensures forall c :: c in Pieces(input[q..]) ==> Piece(c)
  {
    SpanIs(input[p..], q - p);
    assert input[p..][..q - p] == input[p..q] && input[p..][q - p..] == input[q..];
  }

  lemma {:induction false} SpanIs(s: string, n: nat)
    requires n <= |s| && '/' !in s[..n] && (n == |s| || s[n] == '/')
    ensures Span(s) == n
  {
    if n > 0 {
      assert s[0] in s[..n];
      assert s[1..][..n - 1] == s[..n][1..];
      SpanIs(s[1..], n - 1);
    }
  }

  lemma SkipSlash(input: string, p: nat)
    requires p < |input| && input[p] == '/'
    ensures Pieces(input[p..]) == Pieces(input[p + 1..])
  {
    assert input[p..][1..] == input[p + 1..];
  }

  lemma FoldEnd(s: string, stack: seq<string>)
    requires s == [] && StackOk(stack)
    ensures Fold(Pieces(s), stack) == stack
  {
  }

  lemma FoldStep(c: string, rest: seq<string>, stack: seq<string>)
    requires Piece(c) && (forall d :: d in rest ==> Piece(d)) && StackOk(stack)
    ensures StackOk(Applied(stack, Cut(c)))
    ensures Fold([c] + rest, stack) == Fold(rest, Applied(stack, Cut(c)))
  {
    assert ([c] + rest)[1..] == rest;
  }

  /** The component stack. */
  method Split(input: string) returns (stack: array<string>, depth: nat)
    ensures fresh(stack) && depth <= stack.Length && stack[..depth] == Stack(input)
  {
    hide Pieces, Fold;
    stack := new string[MAX_PATH_DEPTH];
    depth := 0;
    var p := 0;
    ghost var names: seq<string> := [];
    assert input[0..] == input;
    while p < |input|
      invariant p <= |input| && depth <= MAX_PATH_DEPTH && stack[..depth] == names
      invariant StackOk(names) && Fold(Pieces(input[p..]), names) == Stack(input)
    {
      ghost var from := p;
      while p < |input| && input[p] == '/'
        invariant from <= p <= |input| && Pieces(input[p..]) == Pieces(input[from..]) && stack[..depth] == names
      {
        SkipSlash(input, p);
        p := p + 1;
      }
      if p == |input| {
        break;
      }
      var comp, q := NextComponent(input, p);
      FoldStep(input[p..q], Pieces(input[q..]), names);
      if comp == "." {
      } else if comp == ".." {
        if depth > 0 {
          depth := depth - 1;
        }
      } else if depth < MAX_PATH_DEPTH {
        stack[depth] := comp;
        depth := depth + 1;
      }
      names := Applied(names, comp);
      assert stack[..depth] == names;
      p := q;
    }
    FoldEnd(input[p..], names);
  }

  /** The output loop. */
  method PathNormalize(input: string, out: array<char>)
    requires out.Length >= 2
    modifies out
    ensures var t := Normalize(input, out.Length);
            && |t| < out.Length && out[..|t|] == t && out[|t|] == '\0'
            && out[|t| + 1..] == old(out[..])[|t| + 1..]
  {
    hide Text, Body, Kept, Stack, StackOk;
    var stack, depth := Split(input);
    ghost var names := stack[..depth];
    var pos := 1;
    out[0] := '/';
    var i := 0;
    TextStart(names);
    while i < depth
      invariant i <= depth && stack[..depth] == names && pos < out.Length
      invariant i == 0 || |Body(names[..i])| + 2 < out.Length
      invariant pos == |Text(names, i)| && out[..pos] == Text(names, i)
      invariant out[pos..] == old(out[..])[pos..]
    {
      var len := |stack[i]|;
      TextStep(names, i);
      if pos + len + 2 >= out.Length {
        break;
      }
      pos := Append(out, pos, stack[i], i != depth - 1);
      i := i + 1;
    }
    KeptIs(names, out.Length, i);
    out[pos] := '\0';
  }

  lemma TextStart(stack: seq<string>)
    ensures Text(stack, 0) == "/" && Body(stack[..0]) == ""
  {
    assert stack[..0] == [];
  }

  lemma TextStep(stack: seq<string>, i: nat)
    requires i < |stack|
    ensures Body(stack[..i + 1]) == Text(stack, i) + stack[i]
    ensures Text(stack, i + 1) == Text(stack, i) + stack[i] + if i != |stack| - 1 then "/" else ""
  {
    assert stack[..i + 1][..i] == stack[..i];
    assert i + 1 == |stack| ==> stack[..i + 1] == stack;
  }

  /** One component into the buffer, and the '/' after it unless it is the last. */
  method Append(out: array<char>, pos: nat, s: string, slash: bool) returns (next: nat)
    requires pos + |s| + 1 < out.Length
    modifies out
    ensures next == pos + |s| + if slash then 1 else 0
    ensures out[..next] == old(out[..pos]) + s + if slash then "/" else ""
    ensures out[next..] == old(out[next..])
  {
    var k := 0;
    while k < |s|
      invariant k <= |s| && out[..pos + k] == old(out[..pos]) + s[..k]
      invariant forall i :: pos + k <= i < out.Length ==> out[i] == old(out[i])
    {
      out[pos + k] := s[k];
      assert s[..k + 1] == s[..k] + [s[k]];
      k := k + 1;
    }
    next := pos + |s|;
    assert s[..|s|] == s;
    if slash {
      out[next] := '/';
      next := next + 1;
      assert out[..next] == out[..next - 1] + "/";
      assert out[..next - 1] == old(out[..pos]) + s;
    }
  }
}
