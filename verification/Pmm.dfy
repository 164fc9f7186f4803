/** The physical frame allocator: a bitmap of 32-bit words, one bit per frame of 4096 bytes.

A request that cannot be met makes the kernel panic; methods report that as an outcome of its own,
after which nothing else happens. */
module Pmm {
  import opened Bits

  const PER_WORD: nat := 32

  // ----- one bit of the bitmap -----

  /** set_frame, on one word. */
  function SetBit(w: nat, b: nat): nat { Or(w, Pow2(b)) }

  /** clear_frame, on one word. */
  function ClearBit(w: nat, b: nat): nat
    requires b < PER_WORD
  {
    Pow2Values();
    PowMono(b + 1, PER_WORD);
    And(w, WORD - 1 - Pow2(b))
  }

  lemma SetBitIs(w: nat, b: nat, i: nat)
    requires w < WORD && b < PER_WORD
    ensures SetBit(w, b) < WORD && (Bit(SetBit(w, b), i) <==> Bit(w, i) || i == b)
  {
    Pow2Values();
    PowMono(b + 1, PER_WORD);
    OrBelow(w, Pow2(b), PER_WORD);
    OrBit(w, Pow2(b), i);
    Pow2Bit(b, i);
  }

  lemma ClearBitIs(w: nat, b: nat, i: nat)
    requires w < WORD && b < PER_WORD && i < PER_WORD
    ensures ClearBit(w, b) < WORD && (Bit(ClearBit(w, b), i) <==> Bit(w, i) && i != b)
  {
    Pow2Values();
    PowMono(b + 1, PER_WORD);
    AndBelow(w, WORD - 1 - Pow2(b));
    AndBit(w, WORD - 1 - Pow2(b), i);
    NotBit(Pow2(b), PER_WORD, i);
    Pow2Bit(b, i);
  }

  /** The test of test_frame. */
  lemma TestBit(w: nat, b: nat)
    ensures And(w, Pow2(b)) != 0 <==> Bit(w, b)
  {
    AndBit(w, Pow2(b), b);
    Pow2Bit(b, b);
    ZeroBit(b);
    if And(w, Pow2(b)) != 0 {
      NonZero(And(w, Pow2(b)));
      var i: nat :| Bit(And(w, Pow2(b)), i);
      AndBit(w, Pow2(b), i);
      Pow2Bit(b, i);
    }
  }

  // ----- the bitmap as a sequence -----

  ghost predicate Words(s: seq<nat>) {
    forall k :: 0 <= k < |s| ==> s[k] < WORD
  }

  /** Frame f is taken. */
  predicate IsTaken(s: seq<nat>, f: nat)
    requires f < PER_WORD * |s|
  {
    Bit(s[f / PER_WORD], f % PER_WORD)
  }

  ghost function Taken(s: seq<nat>): (r: seq<bool>)
    ensures |r| == PER_WORD * |s| && forall f :: 0 <= f < |r| ==> r[f] == IsTaken(s, f)
  {
    seq(PER_WORD * |s|, f requires 0 <= f < PER_WORD * |s| => IsTaken(s, f))
  }

  /** The bitmap has 32 frames to the word, the lowest bit first. */
  lemma TakenBit(s: seq<nat>, f: nat)
    requires f < 32 * |s|
    ensures f < |Taken(s)| && (Taken(s)[f] <==> s[f / 32] / Pow2(f % 32) % 2 == 1)
  {
    BitIs(s[f / 32], f % 32);
  }

  /** Setting or clearing one bit changes one frame and no other. */
  lemma SetTaken(s: seq<nat>, f: nat)
    requires Words(s) && f < PER_WORD * |s|
    ensures Words(s[f / PER_WORD := SetBit(s[f / PER_WORD], f % PER_WORD)])
    ensures Taken(s[f / PER_WORD := SetBit(s[f / PER_WORD], f % PER_WORD)]) == Taken(s)[f := true]
  {
    var k, b := f / PER_WORD, f % PER_WORD;
    var s' := s[k := SetBit(s[k], b)];
    SetBitIs(s[k], b, 0);
    forall g: nat | g < PER_WORD * |s| ensures Taken(s')[g] == Taken(s)[f := true][g] { SetBitIs(s[k], b, g % PER_WORD); }
  }

  lemma ClearTaken(s: seq<nat>, f: nat)
    requires Words(s) && f < PER_WORD * |s|
    ensures Words(s[f / PER_WORD := ClearBit(s[f / PER_WORD], f % PER_WORD)])
    ensures Taken(s[f / PER_WORD := ClearBit(s[f / PER_WORD], f % PER_WORD)]) == Taken(s)[f := false]
  {
    var k, b := f / PER_WORD, f % PER_WORD;
    var s' := s[k := ClearBit(s[k], b)];
    ClearBitIs(s[k], b, 0);
    forall g: nat | g < PER_WORD * |s| ensures Taken(s')[g] == Taken(s)[f := false][g] { ClearBitIs(s[k], b, g % PER_WORD); }
  }

  // ----- what the searches find -----

  /** The first frame from f on that is not taken, or the number of frames. */
  function FirstClear(t: seq<bool>, f: nat): (r: nat)
    requires f <= |t|
    ensures f <= r <= |t| && (r < |t| ==> !t[r]) && forall g :: f <= g < r ==> t[g]
    decreases |t| - f
  {
    if f == |t| || !t[f] then f else FirstClear(t, f + 1)
  }

  /** count frames from a on are all free. */
  predicate ClearRun(t: seq<bool>, a: nat, count: nat) {
    a + count <= |t| && forall f :: a <= f < a + count ==> !t[f]
  }

  /** No run of count free frames ends at or before frame end. */
  ghost predicate NoRunTo(t: seq<bool>, count: nat, end: nat) {
    forall a: nat {:trigger ClearRun(t, a, count)} :: a + count <= end ==> !ClearRun(t, a, count)
  }

  /** The taken frames after a run has been taken or given back. */
  function WithRun(t: seq<bool>, a: nat, n: nat, v: bool): (r: seq<bool>)
    ensures |r| == |t| && forall f :: 0 <= f < |t| ==> r[f] == if a <= f < a + n then v else t[f]
  {
    seq(|t|, f requires 0 <= f < |t| => if a <= f < a + n then v else t[f])
  }

  class Frames {
    const bitmap: array<nat>

    /** At most 2^20 frames: physical addresses have 32 bits. */
    ghost predicate Valid()
      reads bitmap
    {
      Words(bitmap[..]) && PER_WORD * bitmap.Length <= 0x10_0000
    }

    ghost function T(): (t: seq<bool>)
      reads bitmap
      ensures |t| == PER_WORD * bitmap.Length
    {
      Taken(bitmap[..])
    }

    constructor (b: array<nat>)
      requires Words(b[..]) && PER_WORD * b.Length <= 0x10_0000
      ensures Valid() && bitmap == b
    {
      bitmap := b;
    }

    /** set_frame */
    method SetFrame(addr: nat)
      requires Valid() && addr / PAGE < PER_WORD * bitmap.Length
      modifies bitmap
      ensures Valid() && T() == old(T())[addr / PAGE := true]
    {
      var frame := addr / PAGE;
      ghost var s := bitmap[..];
      SetTaken(s, frame);
      bitmap[frame / PER_WORD] := SetBit(bitmap[frame / PER_WORD], frame % PER_WORD);
      assert bitmap[..] == s[frame / PER_WORD := SetBit(s[frame / PER_WORD], frame % PER_WORD)];
    }

    /** clear_frame, pmm_free_frame */
    method FreeFrame(addr: nat)
      requires Valid() && addr / PAGE < PER_WORD * bitmap.Length
      modifies bitmap
      ensures Valid() && T() == old(T())[addr / PAGE := false]
    {
      var frame := addr / PAGE;
      ghost var s := bitmap[..];
      ClearTaken(s, frame);
      bitmap[frame / PER_WORD] := ClearBit(bitmap[frame / PER_WORD], frame % PER_WORD);
      assert bitmap[..] == s[frame / PER_WORD := ClearBit(s[frame / PER_WORD], frame % PER_WORD)];
    }

    /** test_frame */
    method TestFrame(addr: nat) returns (r: bool)
      requires Valid() && addr / PAGE < PER_WORD * bitmap.Length
      ensures r == T()[addr / PAGE]
    {
      var frame := addr / PAGE;
      TestBit(bitmap[frame / PER_WORD], frame % PER_WORD);
      r := And(bitmap[frame / PER_WORD], Pow2(frame % PER_WORD)) != 0;
    }

    /** pmm_alloc_frame: the lowest free frame; panic when there is none. */
    method AllocFrame() returns (panic: bool, addr: nat)
      requires Valid()
      modifies bitmap
      ensures Valid()
      ensures var f := FirstClear(old(T()), 0);
              if f == |old(T())| then panic && T() == old(T()) else !panic && addr == f * PAGE && T() == old(T())[f := true]
    {
      addr := 0;
      ghost var t := T();
      var frame := 0;
      while frame < PER_WORD * bitmap.Length
        invariant frame <= PER_WORD * bitmap.Length && Valid() && T() == t && FirstClear(t, 0) == FirstClear(t, frame)
      {
        addr := frame * PAGE;
        var taken := TestFrame(addr);
        if !taken {
          SetFrame(addr);
          return false, addr;
        }
        frame := frame + 1;
      }
      panic := true;
    }

    /** pmm_alloc_frames: the first run of count free frames; panic when there is none, and also for a
        count of zero. */
    method AllocFrames(count: nat) returns (panic: bool, addr: nat)
      requires Valid()
      modifies bitmap
      ensures Valid()
      ensures panic ==> T() == old(T()) && (count > 0 ==> NoRunTo(old(T()), count, |old(T())|))
      ensures count == 0 ==> panic
      ensures !panic ==> addr % PAGE == 0 && T() == WithRun(old(T()), addr / PAGE, count, true)
      ensures !panic ==> ClearRun(old(T()), addr / PAGE, count) && NoRunTo(old(T()), count, addr / PAGE + count - 1)
    {
      hide ClearRun, NoRunTo, Run, WithRun;
      addr := 0;
      ghost var t := T();
      var frame, start, len := 0, 0, 0;
      RunStart(t, count);
      while frame < PER_WORD * bitmap.Length
        invariant frame <= |t| && Valid() && T() == t && Run(t, frame, start, len)
        invariant count > 0 ==> len < count && NoRunTo(t, count, frame)
      {
        var taken := TestFrame(frame * PAGE);
        RunStep(t, frame, start, len, count);
        if !taken {
          if len == 0 {
            start := frame;
          }
          len := len + 1;
          if len == count {
            TakeRun(start, count);
            return false, start * PAGE;
          }
        } else {
          len := 0;
        }
        frame := frame + 1;
      }
      panic := true;
    }

    /** The inner loop of pmm_alloc_frames. */
    method TakeRun(start: nat, count: nat)
      requires Valid() && start + count <= |T()|
      modifies bitmap
      ensures Valid() && T() == WithRun(old(T()), start, count, true)
    {
      ghost var t := T();
      var f := start;
      while f < start + count
        invariant start <= f <= start + count && Valid() && T() == WithRun(t, start, f - start, true)
      {
        SetFrame(f * PAGE);
        f := f + 1;
      }
    }

    /** pmm_free_frames */
    method FreeFrames(addr: nat, count: nat)
      requires Valid() && addr / PAGE + count <= |T()|
      modifies bitmap
      ensures Valid() && T() == WithRun(old(T()), addr / PAGE, count, false)
    {
      ghost var t := T();
      var i := 0;
      while i < count
        invariant i <= count && Valid() && T() == WithRun(t, addr / PAGE, i, false)
      {
        assert (addr + i * PAGE) / PAGE == addr / PAGE + i;
        FreeFrame(addr + i * PAGE);
        i := i + 1;
      }
    }
  }

  /** len is the length of the free run that ends just before frame, and start its beginning. */
  ghost predicate Run(t: seq<bool>, frame: nat, start: nat, len: nat) {
    && len <= frame <= |t| && ClearRun(t, frame - len, len)
    && (len < frame ==> t[frame - len - 1]) && (len > 0 ==> start == frame - len)
  }

  lemma RunStart(t: seq<bool>, count: nat)
    ensures Run(t, 0, 0, 0) && (count > 0 ==> NoRunTo(t, count, 0))
  {
  }

  /** One round of the scan: a free frame lengthens the run, a taken one ends it. */
  lemma RunStep(t: seq<bool>, frame: nat, start: nat, len: nat, count: nat)
    requires frame < |t| && Run(t, frame, start, len) && (count > 0 ==> len < count && NoRunTo(t, count, frame))
    ensures t[frame] ==> Run(t, frame + 1, start, 0) && (count > 0 ==> NoRunTo(t, count, frame + 1))
    ensures !t[frame] ==> Run(t, frame + 1, if len == 0 then frame else start, len + 1)
    ensures !t[frame] && len + 1 == count ==> frame + 1 == (if len == 0 then frame else start) + count && ClearRun(t, if len == 0 then frame else start, count)
    ensures !t[frame] && 0 < count && len + 1 < count ==> NoRunTo(t, count, frame + 1)
  {
    if count > 0 {
      if t[frame] { NoneYet(t, frame, 0, count); }
      else if len + 1 < count { NoneYet(t, frame, len + 1, count); }
    }
  }

  lemma NoneYet(t: seq<bool>, frame: nat, len: nat, count: nat)
    requires frame < |t| && len <= frame + 1 && (len < frame + 1 ==> t[frame - len])
    requires len < count && NoRunTo(t, count, frame)
    ensures NoRunTo(t, count, frame + 1)
  {
    forall a: nat | a + count <= frame + 1 ensures !ClearRun(t, a, count) {
      if a + count == frame + 1 { assert a <= frame - len < a + count; }
    }
  }
}
