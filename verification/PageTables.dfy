/** Two-level page tables (section 5.2 of the Intel 80386 Programmer's Reference Manual) in physical
memory, and who owns which frame.

Physical memory is a sequence of frames of 4096 bytes; an entry is a little-endian word whose upper
twenty bits name a frame. */
module PageTables {
  import opened Bits

  type Bytes = seq<int>

  const ENTRIES: nat := 1024
  const KERNEL_PDE: nat := 768

  // ----- words -----

  function Word(b: Bytes, i: nat): int
    requires 4 * i + 4 <= |b|
  {
    b[4 * i] + 256 * (b[4 * i + 1] + 256 * (b[4 * i + 2] + 256 * b[4 * i + 3]))
  }

  function SetWord(b: Bytes, i: nat, v: nat): (r: Bytes)
    requires 4 * i + 4 <= |b|
    ensures |r| == |b|
  {
    b[4 * i := v % 256][4 * i + 1 := v / 256 % 256][4 * i + 2 := v / 65536 % 256][4 * i + 3 := v / 16777216 % 256]
  }

  lemma WordSame(b: Bytes, i: nat, v: nat)
    requires 4 * i + 4 <= |b| && v < WORD
    ensures Word(SetWord(b, i, v), i) == v
  {
    Digits(v);
  }

  lemma Digits(v: nat)
    requires v < WORD
    ensures v % 256 + 256 * (v / 256 % 256 + 256 * (v / 65536 % 256 + 256 * (v / 16777216 % 256))) == v
  {
    assert v / 65536 == v / 256 / 256;
    assert v / 16777216 == v / 65536 / 256;
  }

  lemma WordOther(b: Bytes, i: nat, v: nat, j: nat)
    requires 4 * i + 4 <= |b| && 4 * j + 4 <= |b| && i != j
    ensures Word(SetWord(b, i, v), j) == Word(b, j)
  {
  }

  function Zeros(n: nat): (r: Bytes)
    ensures |r| == n && forall i :: 0 <= i < n ==> r[i] == 0
  {
    seq(n, _ => 0)
  }

  // ----- entries -----

  predicate Present(e: int) { e % 2 == 1 }
  predicate Writable(e: int) { e / 2 % 2 == 1 }
  predicate User(e: int) { e / 4 % 2 == 1 }

  /** The frame an entry names. */
  function Target(e: int): int { e / PAGE }

  /** An entry for a frame with the low twelve bits of flags, and the present bit. */
  function Entry(frame: nat, flags: nat): (e: nat)
    ensures Present(e) && Target(e) == frame
    ensures Writable(e) == Writable(flags) && User(e) == User(flags)
  {
    FlagBits(flags);
    EntryBits(frame, flags % PAGE / 2);
    frame * PAGE + flags % PAGE / 2 * 2 + 1
  }

  lemma Even(k: int, x: int)
    ensures (2 * k + x) % 2 == x % 2
  {
  }

  lemma Half(q: int, r: int)
    ensures (4096 * q + r) / 2 == 2048 * q + r / 2
  {
  }

  lemma Quarter(q: int, r: int)
    ensures (4096 * q + r) / 4 == 1024 * q + r / 4 && r / 2 / 2 == r / 4
  {
  }

  lemma FlagBits(flags: nat)
    ensures flags % PAGE / 2 < 2048 && flags % PAGE / 2 % 2 == flags / 2 % 2 && flags % PAGE / 2 / 2 % 2 == flags / 4 % 2
  {
    var q, r := flags / PAGE, flags % PAGE;
    Half(q, r);
    Quarter(q, r);
    Even(1024 * q, r / 2);
    Even(512 * q, r / 4);
  }

  lemma EntryBits(frame: nat, half: nat)
    requires half < 2048
    ensures var e := frame * PAGE + half * 2 + 1;
            e % 2 == 1 && e / PAGE == frame && e / 2 % 2 == half % 2 && e / 4 % 2 == half / 2 % 2
  {
    var e := frame * PAGE + half * 2 + 1;
    PlusMultiple(half * 2 + 1, frame, PAGE);
    assert e / 2 == frame * 2048 + half;
    assert e / 4 == frame * 1024 + half / 2;
    PlusMultiple(half, frame * 1024, 2);
    PlusMultiple(half / 2, frame * 512, 2);
    PlusMultiple(1, frame * 2048 + half, 2);
  }

  /** A multiple of the divisor changes only the quotient. */
  lemma PlusMultiple(r: nat, q: nat, d: nat)
    requires d > 0
    ensures (q * d + r) % d == r % d && (r < d ==> (q * d + r) / d == q)
  {
    var k := r / d;
    assert r == k * d + r % d;
    assert (q + k) * d == q * d + k * d;
    Bits.DivIs(q * d + r, d, q + k);
    assert r < d ==> k == 0;
  }

  /** The entry with the user bit set. */
  function WithUser(e: int): (r: int)
    ensures User(r) && Present(r) == Present(e) && Target(r) == Target(e) && Writable(r) == Writable(e)
    ensures 0 <= e < WORD ==> 0 <= r < WORD
  {
    if User(e) then e else
      SetUser(e);
      e + 4
  }

  lemma SetUser(e: int)
    requires !User(e)
    ensures User(e + 4) && Present(e + 4) == Present(e) && Target(e + 4) == Target(e) && Writable(e + 4) == Writable(e)
    ensures 0 <= e < WORD ==> e + 4 < WORD
  {
    var q, r := e / PAGE, e % PAGE;
    Quarter(q, r);
    Even(512 * q, r / 4);
    UserBit(q, r);
  }

  lemma UserBit(q: int, r: nat)
    requires r < PAGE && r / 4 % 2 == 0
    ensures var e := q * PAGE + r;
            (e + 4) / 4 % 2 == 1 && (e + 4) % 2 == e % 2 && (e + 4) / PAGE == q && (e + 4) / 2 % 2 == e / 2 % 2 && e / 4 % 2 == 0
    ensures 0 <= q < 0x10_0000 ==> 0 <= q * PAGE + r + 4 < WORD
  {
    Quarter(q, r);
    Quarter(q, r + 4);
    Half(q, r);
    Half(q, r + 4);
    Even(512 * q, r / 4);
    Even(512 * q, (r + 4) / 4);
    Even(1024 * q, r / 2);
    Even(1024 * q, (r + 4) / 2);
    NotLast(r);
  }

  lemma NotLast(r: nat)
    requires r < PAGE && r / 4 % 2 == 0
    ensures r + 4 < PAGE && (r + 4) / 4 % 2 == 1 && (r + 4) / 2 % 2 == r / 2 % 2
  {
  }

  function Pdx(va: nat): nat { va / 0x40_0000 }
  function Ptx(va: nat): nat { va / PAGE % ENTRIES }
  function PageOf(va: nat): nat { va / PAGE }

  lemma Indices(va: nat)
    requires va < WORD
    ensures Pdx(va) < ENTRIES && Ptx(va) < ENTRIES && PageOf(va) == ENTRIES * Pdx(va) + Ptx(va)
  {
    assert va / 0x40_0000 == va / PAGE / ENTRIES;
  }

  // ----- walking -----

  ghost predicate Sized(m: seq<Bytes>) {
    forall f :: 0 <= f < |m| ==> |m[f]| == PAGE
  }

  predicate InMem(m: seq<Bytes>, f: int) { 0 <= f < |m| }

  /** The table entry for a virtual address under directory d; 0 when there is no table. */
  function Pte(m: seq<Bytes>, d: nat, va: nat): int
    requires d < |m| && |m[d]| == PAGE && va < WORD
  {
    Indices(va);
    var e := Word(m[d], Pdx(va));
    if !Present(e) || !InMem(m, Target(e)) || |m[Target(e)]| != PAGE then 0 else Word(m[Target(e)], Ptx(va))
  }

  predicate Mapped(m: seq<Bytes>, d: nat, va: nat)
    requires d < |m| && |m[d]| == PAGE && va < WORD
  {
    Present(Pte(m, d, va))
  }

  /** The physical address a mapped virtual address leads to. */
  function Phys(m: seq<Bytes>, d: nat, va: nat): int
    requires d < |m| && |m[d]| == PAGE && va < WORD
  {
    Target(Pte(m, d, va)) * PAGE + va % PAGE
  }

  lemma EvenOrOdd(r: nat)
    ensures r / 2 * 2 + 1 == r + if r % 2 == 0 then 1 else 0
  {
  }

  /** An entry is the address of its frame with the flags in the lower bits, and present in any case. */
  lemma EntryIs(frame: nat, flags: nat)
    ensures Entry(frame, flags) == frame * 4096 + flags % 4096 + if flags % 2 == 0 then 1 else 0
  {
    var q, r := flags / 4096, flags % 4096;
    Even(2048 * q, r);
    EvenOrOdd(r);
  }

  /** An entry by its bytes: present, writable and user are the three lowest bits of the first one, and the
      frame number starts in the upper half of the second. */
  lemma EntryBytes(b: Bytes, i: nat)
    requires 4 * i + 4 <= |b| && forall k :: 4 * i <= k < 4 * i + 4 ==> 0 <= b[k] < 256
    ensures var e := Word(b, i);
            && (Present(e) <==> b[4 * i] % 2 == 1) && (Writable(e) <==> b[4 * i] / 2 % 2 == 1) && (User(e) <==> b[4 * i] / 4 % 2 == 1)
            && Target(e) == b[4 * i + 1] / 16 + 16 * b[4 * i + 2] + 4096 * b[4 * i + 3]
  {
    var rest := b[4 * i + 1] + 256 * (b[4 * i + 2] + 256 * b[4 * i + 3]);
    LowBits(b[4 * i], rest);
    FrameBits(b[4 * i], b[4 * i + 1], b[4 * i + 2] + 256 * b[4 * i + 3]);
  }

  lemma LowBits(x: nat, y: nat)
    requires x < 256
    ensures (x + 256 * y) % 2 == x % 2 && (x + 256 * y) / 2 % 2 == x / 2 % 2 && (x + 256 * y) / 4 % 2 == x / 4 % 2
  {
    HalfAndQuarter(x, y);
    Even(128 * y, x);
    Even(64 * y, x / 2);
    Even(32 * y, x / 4);
  }

  lemma HalfAndQuarter(x: nat, y: nat)
    ensures (x + 256 * y) / 2 == x / 2 + 128 * y && (x + 256 * y) / 4 == x / 4 + 64 * y
  {
  }

  lemma FrameBits(x: nat, y: nat, z: nat)
    requires x < 256 && y < 256
    ensures (x + 256 * (y + 256 * z)) / 4096 == y / 16 + 16 * z
  {
    assert x + 256 * (y + 256 * z) == x + 256 * (y % 16) + 4096 * (y / 16 + 16 * z);
    assert x + 256 * (y % 16) < 4096;
  }

  /** A virtual address: ten bits for the directory, ten for the table, twelve within the page. The kernel
      has the last quarter of the address space. */
  lemma AddressParts(va: nat)
    ensures (Pdx(va) < KERNEL_PDE <==> va < 0xC000_0000) && (va < KERNEL_BASE <==> va < 0xC000_0000)
    ensures va == Pdx(va) * 0x40_0000 + Ptx(va) * 0x1000 + va % 0x1000 && Ptx(va) < 0x400 && PageOf(va) == va / 0x1000
  {
    assert va / 0x40_0000 == va / PAGE / ENTRIES;
  }

  /** What the processor grants a user program: both levels must allow it. */
  predicate UserPage(m: seq<Bytes>, d: nat, va: nat, write: bool)
    requires d < |m| && |m[d]| == PAGE && va < WORD
  {
    Indices(va);
    && Present(Word(m[d], Pdx(va))) && User(Word(m[d], Pdx(va)))
    && Mapped(m, d, va) && User(Pte(m, d, va)) && (write ==> Writable(Pte(m, d, va)))
  }

  /** Address translation in terms of the bytes of the two tables. */
  lemma Translation(m: seq<Bytes>, d: nat, va: nat)
    requires d < |m| && |m[d]| == 4096 && va < WORD
    requires forall f, k :: 0 <= f < |m| && 0 <= k < |m[f]| ==> 0 <= m[f][k] < 256
    ensures var i, j := va / 0x40_0000, va / 0x1000 % 0x400;
            && 4 * i + 4 <= 4096 && 4 * j + 4 <= 4096
            && var t := m[d][4 * i + 1] / 16 + 16 * m[d][4 * i + 2] + 4096 * m[d][4 * i + 3];
               && (Mapped(m, d, va) <==> m[d][4 * i] % 2 == 1 && t < |m| && |m[t]| == 4096 && m[t][4 * j] % 2 == 1)
               && (Mapped(m, d, va) ==>
                     && Phys(m, d, va) == (m[t][4 * j + 1] / 16 + 16 * m[t][4 * j + 2] + 4096 * m[t][4 * j + 3]) * 4096 + va % 4096
                     && (UserPage(m, d, va, false) <==> m[d][4 * i] / 4 % 2 == 1 && m[t][4 * j] / 4 % 2 == 1)
                     && (UserPage(m, d, va, true) <==> UserPage(m, d, va, false) && m[t][4 * j] / 2 % 2 == 1))
  {
    hide Present, Writable, User, Target, Word;
    Indices(va);
    var i, j := Pdx(va), Ptx(va);
    EntryBytes(m[d], i);
    var t := Target(Word(m[d], i));
    if InMem(m, t) && |m[t]| == PAGE { EntryBytes(m[t], j); }
    ZeroEntry();
  }

  lemma ZeroEntry()
    ensures !Present(0)
  {
  }

  // ----- ownership -----

  /** Who a frame belongs to: nobody, the kernel, a directory, table i of directory d, the page behind
      entry j of that table, or (Pending) the routine that has just taken it or is about to free it. */
  datatype Owner = Free | Kernel | Pending | Dir | Table(d: nat, i: nat) | Page(d: nat, i: nat, j: nat)

  /** The directory whose address space a frame belongs to; -1 for none. */
  function SpaceOf(owner: seq<Owner>, f: int): int
    requires 0 <= f < |owner|
  {
    match owner[f]
    case Dir => f
    case Table(d, _) => d
    case Page(d, _, _) => d
    case _ => -1
  }

  ghost predicate PdeOk(m: seq<Bytes>, owner: seq<Owner>, d: int, i: int)
    requires Sized(m) && |owner| == |m| && InMem(m, d) && 0 <= i < ENTRIES
  {
    var e := Word(m[d], i);
    Present(e) ==> InMem(m, Target(e)) && owner[Target(e)] == Table(d, i)
  }

  ghost predicate PteOk(m: seq<Bytes>, owner: seq<Owner>, t: int, d: int, i: int, j: int)
    requires Sized(m) && |owner| == |m| && InMem(m, t) && 0 <= d && 0 <= i && 0 <= j < ENTRIES
  {
    var e := Word(m[t], j);
    Present(e) ==> InMem(m, Target(e)) && owner[Target(e)] == Page(d, i, j)
  }

  ghost predicate KernelPdeOk(m: seq<Bytes>, owner: seq<Owner>, kdir: int, i: int)
    requires Sized(m) && |owner| == |m| && InMem(m, kdir) && 0 <= i < ENTRIES
  {
    var e := Word(m[kdir], i);
    0 <= e < WORD && (Present(e) ==> InMem(m, Target(e)) && owner[Target(e)] == Kernel && !User(e))
  }

  /** The upper entries of a directory are the kernel's. */
  ghost predicate SharesKernel(m: seq<Bytes>, kdir: int, d: int)
    requires Sized(m) && InMem(m, kdir) && InMem(m, d)
  {
    forall i :: KERNEL_PDE <= i < ENTRIES ==> Word(m[d], i) == Word(m[kdir], i)
  }

  /** Table i of directory d is at frame t. */
  ghost predicate TableAt(m: seq<Bytes>, owner: seq<Owner>, d: int, i: int, t: int)
    requires Sized(m) && |owner| == |m|
  {
    InMem(m, d) && owner[d] == Dir && 0 <= i < KERNEL_PDE && Present(Word(m[d], i)) && Target(Word(m[d], i)) == t && InMem(m, t)
  }

  ghost predicate FrameOk(m: seq<Bytes>, owner: seq<Owner>, kdir: int, f: int)
    requires Sized(m) && |owner| == |m| && InMem(m, kdir) && InMem(m, f)
  {
    match owner[f]
    case Dir =>
      SharesKernel(m, kdir, f) && forall i {:trigger PdeOk(m, owner, f, i)} :: 0 <= i < KERNEL_PDE ==> PdeOk(m, owner, f, i)
    case Table(d, i) =>
      TableAt(m, owner, d, i, f) && forall j {:trigger PteOk(m, owner, f, d, i, j)} :: 0 <= j < ENTRIES ==> PteOk(m, owner, f, d, i, j)
    case Page(d, i, j) =>
      && InMem(m, d) && 0 <= i < KERNEL_PDE && 0 <= j < ENTRIES
      && TableAt(m, owner, d, i, Target(Word(m[d], i)))
      && Present(Word(m[Target(Word(m[d], i))], j)) && Target(Word(m[Target(Word(m[d], i))], j)) == f
    case _ => true
  }

  /** Every frame in use has one owner, and every entry leads to the frame that belongs to it. */
  ghost predicate Owned(m: seq<Bytes>, owner: seq<Owner>, kdir: int) {
    && Sized(m) && |owner| == |m| && InMem(m, kdir) && owner[kdir] == Kernel && owner[0] == Kernel
    && (forall i {:trigger KernelPdeOk(m, owner, kdir, i)} :: 0 <= i < ENTRIES ==> KernelPdeOk(m, owner, kdir, i))
    && (forall f {:trigger FrameOk(m, owner, kdir, f)} :: InMem(m, f) ==> FrameOk(m, owner, kdir, f))
  }

  /** No routine is holding a frame. */
  ghost predicate Settled(owner: seq<Owner>) {
    forall f :: 0 <= f < |owner| ==> owner[f] != Pending
  }

  /** The bitmap marks exactly the frames that have an owner. */
  ghost predicate TakenIs(taken: seq<bool>, owner: seq<Owner>) {
    |taken| == |owner| && forall f :: 0 <= f < |owner| ==> (taken[f] <==> owner[f] != Free)
  }

  /** Every frame is in use. */
  ghost predicate NoneFree(owner: seq<Owner>) {
    forall f :: 0 <= f < |owner| ==> owner[f] != Free
  }

  // ----- elementary changes -----

  /** A frame changes hands between the bitmap and the routine at work. */
  lemma Handed(m: seq<Bytes>, owner: seq<Owner>, kdir: int, f: int, o: Owner)
    requires Owned(m, owner, kdir) && InMem(m, f) && (owner[f] == Free || owner[f] == Pending) && (o == Free || o == Pending)
    ensures Owned(m, owner[f := o], kdir)
  {
    var owner' := owner[f := o];
    forall i | 0 <= i < ENTRIES ensures KernelPdeOk(m, owner', kdir, i) { assert KernelPdeOk(m, owner, kdir, i); }
    forall g | InMem(m, g) ensures FrameOk(m, owner', kdir, g) {
      assert FrameOk(m, owner, kdir, g);
      if g != f { SameOk(m, owner, owner', kdir, g, f); }
    }
  }

  /** The frame condition of g does not depend on the owner of a frame nobody owns. */
  lemma SameOk(m: seq<Bytes>, owner: seq<Owner>, owner': seq<Owner>, kdir: int, g: int, f: int)
    requires Sized(m) && |owner| == |owner'| == |m| && InMem(m, kdir) && InMem(m, g) && InMem(m, f) && f != g
    requires owner[f] == Free || owner[f] == Pending
    requires forall h :: InMem(m, h) && h != f ==> owner'[h] == owner[h]
    requires FrameOk(m, owner, kdir, g)
    ensures FrameOk(m, owner', kdir, g)
  {
    match owner[g]
    case Dir =>
      forall i | 0 <= i < KERNEL_PDE ensures PdeOk(m, owner', g, i) { assert PdeOk(m, owner, g, i); }
    case Table(d, i) =>
      forall j | 0 <= j < ENTRIES ensures PteOk(m, owner', g, d, i, j) { assert PteOk(m, owner, g, d, i, j); }
    case _ =>
  }

  /** The bytes of a page, or of a frame in hand, may be anything. */
  lemma DataWritten(m: seq<Bytes>, owner: seq<Owner>, kdir: int, f: int, b: Bytes)
    requires Owned(m, owner, kdir) && InMem(m, f) && (owner[f].Page? || owner[f] == Pending || owner[f] == Free) && |b| == PAGE
    ensures Owned(m[f := b], owner, kdir)
  {
    var m' := m[f := b];
    forall i | 0 <= i < ENTRIES ensures KernelPdeOk(m', owner, kdir, i) { assert KernelPdeOk(m, owner, kdir, i); }
    forall g | InMem(m', g) ensures FrameOk(m', owner, kdir, g) {
      assert FrameOk(m, owner, kdir, g);
      match owner[g]
      case Dir =>
        forall i | 0 <= i < KERNEL_PDE ensures PdeOk(m', owner, g, i) { assert PdeOk(m, owner, g, i); }
      case Table(d, i) =>
        forall j | 0 <= j < ENTRIES ensures PteOk(m', owner, g, d, i, j) { assert PteOk(m, owner, g, d, i, j); }
      case Page(d, i, j) =>
        assert FrameOk(m, owner, kdir, d);
        assert PdeOk(m, owner, d, i);
      case _ =>
    }
  }

  /** A frame in hand becomes a directory. */
  lemma DirMade(m: seq<Bytes>, owner: seq<Owner>, kdir: int, f: int, b: Bytes)
    requires Owned(m, owner, kdir) && InMem(m, f) && owner[f] == Pending && |b| == PAGE
    requires forall i :: 0 <= i < ENTRIES ==> Word(b, i) == if i < KERNEL_PDE then 0 else Word(m[kdir], i)
    ensures Owned(m[f := b], owner[f := Dir], kdir)
  {
    DataWritten(m, owner, kdir, f, b);
    var m', owner' := m[f := b], owner[f := Dir];
    forall i | 0 <= i < ENTRIES ensures KernelPdeOk(m', owner', kdir, i) { assert KernelPdeOk(m', owner, kdir, i); }
    forall g | InMem(m', g) ensures FrameOk(m', owner', kdir, g) {
      if g == f {
        forall i | 0 <= i < KERNEL_PDE ensures PdeOk(m', owner', f, i) { }
      } else {
        assert FrameOk(m', owner, kdir, g);
        SameOk(m', owner, owner', kdir, g, f);
      }
    }
  }

  /** A table entry is rewritten: nothing but what it leads to is affected. */
  lemma EntrySet(m: seq<Bytes>, owner: seq<Owner>, kdir: int, d: int, i: int, t: int, j: nat, v: nat, owner': seq<Owner>)
    requires Owned(m, owner, kdir) && TableAt(m, owner, d, i, t) && j < ENTRIES && v < WORD && |owner'| == |owner|
    requires owner[t] == Table(d, i)
    requires forall h :: InMem(m, h) ==> owner'[h] == owner[h] || (Loose(owner[h], d, i, j) && Loose(owner'[h], d, i, j))
    requires Present(v) ==> InMem(m, Target(v)) && owner'[Target(v)] == Page(d, i, j)
    requires forall h :: InMem(m, h) && owner'[h] == Page(d, i, j) ==> Present(v) && Target(v) == h
    ensures Owned(m[t := SetWord(m[t], j, v)], owner', kdir)
  {
    var m' := m[t := SetWord(m[t], j, v)];
    forall k | 0 <= k < ENTRIES ensures KernelPdeOk(m', owner', kdir, k) { assert KernelPdeOk(m, owner, kdir, k); }
    forall g | InMem(m', g) ensures FrameOk(m', owner', kdir, g) {
      assert FrameOk(m, owner, kdir, g);
      EntrySetAt(m, owner, kdir, d, i, t, j, v, owner', g);
    }
  }

  /** The owners an entry (d, i, j) may give a frame or take away from it. */
  predicate Loose(o: Owner, d: int, i: int, j: int) {
    o == Pending || (o.Page? && o.d == d && o.i == i && o.j == j)
  }

  lemma EntrySetAt(m: seq<Bytes>, owner: seq<Owner>, kdir: int, d: int, i: int, t: int, j: nat, v: nat, owner': seq<Owner>, g: int)
    requires Owned(m, owner, kdir) && TableAt(m, owner, d, i, t) && j < ENTRIES && v < WORD && |owner'| == |owner|
    requires owner[t] == Table(d, i) && InMem(m, g)
    requires forall h :: InMem(m, h) ==> owner'[h] == owner[h] || (Loose(owner[h], d, i, j) && Loose(owner'[h], d, i, j))
    requires Present(v) ==> InMem(m, Target(v)) && owner'[Target(v)] == Page(d, i, j)
    requires forall h :: InMem(m, h) && owner'[h] == Page(d, i, j) ==> Present(v) && Target(v) == h
    ensures FrameOk(m[t := SetWord(m[t], j, v)], owner', kdir, g)
  {
    var m' := m[t := SetWord(m[t], j, v)];
    assert FrameOk(m, owner, kdir, g);
    WordSame(m[t], j, v);
    match owner'[g]
    case Dir =>
      forall k | 0 <= k < KERNEL_PDE ensures PdeOk(m', owner', g, k) { assert PdeOk(m, owner, g, k); }
    case Table(d1, i1) =>
      forall k: nat | 0 <= k < ENTRIES ensures PteOk(m', owner', g, d1, i1, k) {
        assert PteOk(m, owner, g, d1, i1, k);
        if g == t && k != j { WordOther(m[t], j, v, k); }
      }
    case Page(d1, i1, j1) =>
      if owner[g] == owner'[g] {
        assert FrameOk(m, owner, kdir, d1);
        assert PdeOk(m, owner, d1, i1);
        if j1 != j { WordOther(m[t], j, v, j1); }
      }
    case _ =>
  }

  /** A directory entry is pointed at an empty table in hand. */
  lemma TableLinked(m: seq<Bytes>, owner: seq<Owner>, kdir: int, d: int, i: nat, t: int, e: nat)
    requires Owned(m, owner, kdir) && InMem(m, d) && owner[d] == Dir && i < KERNEL_PDE && !Present(Word(m[d], i))
    requires InMem(m, t) && owner[t] == Pending && forall j :: 0 <= j < ENTRIES ==> Word(m[t], j) == 0
    requires Present(e) && Target(e) == t && e < WORD
    ensures Owned(m[d := SetWord(m[d], i, e)], owner[t := Table(d, i)], kdir)
    ensures TableAt(m[d := SetWord(m[d], i, e)], owner[t := Table(d, i)], d, i, t)
  {
    var m', owner' := m[d := SetWord(m[d], i, e)], owner[t := Table(d, i)];
    WordSame(m[d], i, e);
    forall k | 0 <= k < ENTRIES ensures KernelPdeOk(m', owner', kdir, k) { assert KernelPdeOk(m, owner, kdir, k); }
    forall g | InMem(m', g) ensures FrameOk(m', owner', kdir, g) {
      assert FrameOk(m, owner, kdir, g);
      if g == t {
        forall j | 0 <= j < ENTRIES ensures PteOk(m', owner', t, d, i, j) { }
      } else {
        PdeSetAt(m, owner, kdir, d, i, e, owner', g, t);
      }
    }
  }

  /** The frame condition of g after entry i of directory d has been rewritten without disturbing a
      table in place. */
  lemma PdeSetAt(m: seq<Bytes>, owner: seq<Owner>, kdir: int, d: int, i: nat, e: nat, owner': seq<Owner>, g: int, t: int)
    requires Owned(m, owner, kdir) && InMem(m, d) && owner[d] == Dir && i < KERNEL_PDE && e < WORD
    requires |owner'| == |owner| && InMem(m, g) && g != t && InMem(m, t)
    requires forall h :: InMem(m, h) && h != t ==> owner'[h] == owner[h]
    requires owner'[t] == Table(d, i) && (owner[t] == Pending || owner'[t] == owner[t])
    requires Present(e) && Target(e) == t
    requires Present(Word(m[d], i)) ==> Target(Word(m[d], i)) == t
    ensures FrameOk(m[d := SetWord(m[d], i, e)], owner', kdir, g)
  {
    var m' := m[d := SetWord(m[d], i, e)];
    assert FrameOk(m, owner, kdir, g);
    WordSame(m[d], i, e);
    match owner[g]
    case Dir =>
      forall k: nat | 0 <= k < KERNEL_PDE ensures PdeOk(m', owner', g, k) {
        assert PdeOk(m, owner, g, k);
        if g == d && k != i { WordOther(m[d], i, e, k); }
      }
      forall k: nat | KERNEL_PDE <= k < ENTRIES ensures Word(m'[g], k) == Word(m'[kdir], k) {
        if g == d { WordOther(m[d], i, e, k); }
      }
    case Table(d1, i1) =>
      if d1 == d && i1 != i { WordOther(m[d], i, e, i1); }
      forall k: nat | 0 <= k < ENTRIES ensures PteOk(m', owner', g, d1, i1, k) { assert PteOk(m, owner, g, d1, i1, k); }
    case Page(d1, i1, j1) =>
      assert FrameOk(m, owner, kdir, d1);
      assert PdeOk(m, owner, d1, i1);
      if d1 == d && i1 != i { WordOther(m[d], i, e, i1); }
    case _ =>
  }

  /** The flags of a directory entry in use are rewritten. */
  lemma PdeFlags(m: seq<Bytes>, owner: seq<Owner>, kdir: int, d: int, i: nat, e: nat)
    requires Owned(m, owner, kdir) && InMem(m, d) && owner[d] == Dir && i < KERNEL_PDE && e < WORD
    requires Present(Word(m[d], i)) && Present(e) && Target(e) == Target(Word(m[d], i))
    ensures Owned(m[d := SetWord(m[d], i, e)], owner, kdir)
    ensures InMem(m, Target(e)) && TableAt(m[d := SetWord(m[d], i, e)], owner, d, i, Target(e)) && owner[Target(e)] == Table(d, i)
  {
    assert FrameOk(m, owner, kdir, d);
    assert PdeOk(m, owner, d, i);
    var m', t := m[d := SetWord(m[d], i, e)], Target(e);
    WordSame(m[d], i, e);
    forall k | 0 <= k < ENTRIES ensures KernelPdeOk(m', owner, kdir, k) { assert KernelPdeOk(m, owner, kdir, k); }
    forall g | InMem(m', g) ensures FrameOk(m', owner, kdir, g) {
      assert FrameOk(m, owner, kdir, g);
      if g == t {
        forall j | 0 <= j < ENTRIES ensures PteOk(m', owner, t, d, i, j) { assert PteOk(m, owner, t, d, i, j); }
      } else {
        PdeSetAt(m, owner, kdir, d, i, e, owner, g, t);
      }
    }
  }

  // ----- what a change means for translations -----

  /** d is the directory of an address space, or the kernel's own. */
  predicate IsDir(m: seq<Bytes>, owner: seq<Owner>, kdir: int, d: int) {
    |owner| == |m| && InMem(m, d) && (owner[d] == Dir || d == kdir)
  }

  /** What the entry of a directory leads to is a table of that directory, or the kernel's. */
  lemma PdeTarget(m: seq<Bytes>, owner: seq<Owner>, kdir: int, d: int, i: nat)
    requires Owned(m, owner, kdir) && IsDir(m, owner, kdir, d) && i < ENTRIES && Present(Word(m[d], i))
    ensures InMem(m, Target(Word(m[d], i)))
    ensures owner[Target(Word(m[d], i))] == Kernel || (owner[d] == Dir && i < KERNEL_PDE && owner[Target(Word(m[d], i))] == Table(d, i))
    ensures i >= KERNEL_PDE || d == kdir ==> owner[Target(Word(m[d], i))] == Kernel && !User(Word(m[d], i))
  {
    assert FrameOk(m, owner, kdir, d);
    assert KernelPdeOk(m, owner, kdir, i);
    if owner[d] == Dir && i < KERNEL_PDE { assert PdeOk(m, owner, d, i); }
  }

  /** A rewritten table entry changes the translation of one page of one address space. */
  lemma PteAfterSet(m: seq<Bytes>, owner: seq<Owner>, kdir: int, d: int, i: int, t: int, j: nat, v: nat, d': int, va: nat)
    requires Owned(m, owner, kdir) && TableAt(m, owner, d, i, t) && owner[t] == Table(d, i) && j < ENTRIES && v < WORD
    requires IsDir(m, owner, kdir, d') && va < WORD
    ensures Pte(m[t := SetWord(m[t], j, v)], d', va) == if d' == d && Pdx(va) == i && Ptx(va) == j then v else Pte(m, d', va)
  {
    Indices(va);
    WordSame(m[t], j, v);
    if Present(Word(m[d'], Pdx(va))) { PdeTarget(m, owner, kdir, d', Pdx(va)); }
    if Ptx(va) != j { WordOther(m[t], j, v, Ptx(va)); }
  }

  /** Neither an empty table nor a change of flags in a directory entry changes any translation. */
  lemma PteAfterPde(m: seq<Bytes>, owner: seq<Owner>, kdir: int, d: int, i: nat, e: nat, d': int, va: nat)
    requires Owned(m, owner, kdir) && InMem(m, d) && owner[d] == Dir && i < KERNEL_PDE && e < WORD
    requires Present(e) && InMem(m, Target(e)) && Target(e) != d
    requires if Present(Word(m[d], i)) then Target(e) == Target(Word(m[d], i)) else forall j :: 0 <= j < ENTRIES ==> Word(m[Target(e)], j) == 0
    requires IsDir(m, owner, kdir, d') && va < WORD
    ensures Pte(m[d := SetWord(m[d], i, e)], d', va) == Pte(m, d', va)
  {
    Indices(va);
    WordSame(m[d], i, e);
    if Present(Word(m[d'], Pdx(va))) { PdeTarget(m, owner, kdir, d', Pdx(va)); }
    if d' == d && Pdx(va) != i { WordOther(m[d], i, e, Pdx(va)); }
  }

  /** Nor do the bytes of a page or of a frame in hand. */
  lemma PteAfterData(m: seq<Bytes>, owner: seq<Owner>, kdir: int, f: int, b: Bytes, d': int, va: nat)
    requires Owned(m, owner, kdir) && InMem(m, f) && (owner[f].Page? || owner[f] == Pending || owner[f] == Free) && |b| == PAGE
    requires IsDir(m, owner, kdir, d') && va < WORD
    ensures Pte(m[f := b], d', va) == Pte(m, d', va)
  {
    Indices(va);
    if Present(Word(m[d'], Pdx(va))) { PdeTarget(m, owner, kdir, d', Pdx(va)); }
  }

  /** A page is mapped exactly when a frame belongs to it, and then it is mapped to that frame. */
  lemma MappedOwner(m: seq<Bytes>, owner: seq<Owner>, kdir: int, d: int, va: nat)
    requires Owned(m, owner, kdir) && InMem(m, d) && owner[d] == Dir && va < WORD && Pdx(va) < KERNEL_PDE
    ensures Mapped(m, d, va) ==> InMem(m, Target(Pte(m, d, va))) && owner[Target(Pte(m, d, va))] == Page(d, Pdx(va), Ptx(va))
    ensures forall f :: InMem(m, f) && owner[f] == Page(d, Pdx(va), Ptx(va)) ==> Mapped(m, d, va) && Target(Pte(m, d, va)) == f
  {
    Indices(va);
    assert FrameOk(m, owner, kdir, d);
    if Present(Word(m[d], Pdx(va))) {
      PdeTarget(m, owner, kdir, d, Pdx(va));
      var t := Target(Word(m[d], Pdx(va)));
      assert PdeOk(m, owner, d, Pdx(va));
      assert FrameOk(m, owner, kdir, t);
      assert PteOk(m, owner, t, d, Pdx(va), Ptx(va));
    }
    forall f | InMem(m, f) && owner[f] == Page(d, Pdx(va), Ptx(va)) ensures Mapped(m, d, va) && Target(Pte(m, d, va)) == f {
      assert FrameOk(m, owner, kdir, f);
    }
  }
}
