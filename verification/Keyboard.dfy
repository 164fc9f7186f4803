/** The keyboard buffer: a ring of 256 characters between the interrupt handler and its readers. */
module Keyboard {

  const SIZE: nat := 256

  /** The value of the ring: buffer, read and write position, and the state of the shift key. */
  datatype Ring = Ring(buf: seq<int>, r: nat, w: nat, shift: bool)

  predicate RingOk(k: Ring) {
    |k.buf| == SIZE && k.r < SIZE && k.w < SIZE && forall i :: 0 <= i < SIZE ==> k.buf[i] >= 0
  }

  /** The characters not read yet, oldest first. */
  function Unread(k: Ring): (s: seq<int>)
    requires RingOk(k)
  {
    if k.r <= k.w then k.buf[k.r..k.w] else k.buf[k.r..] + k.buf[..k.w]
  }

  /** The handler stores a character. */
  function Put(k: Ring, c: int): (k': Ring)
    requires RingOk(k) && c > 0
    ensures RingOk(k')
  {
    k.(buf := k.buf[k.w := c], w := (k.w + 1) % SIZE)
  }

  /** kbd_getchar: the oldest character, or -1. */
  function Get(k: Ring): (p: (int, Ring))
    requires RingOk(k)
    ensures RingOk(p.1)
  {
    if k.r == k.w then (-1, k) else (k.buf[k.r], k.(r := (k.r + 1) % SIZE))
  }

  /** A queue, except that the 256th unread character empties it. */
  lemma PutIsEnqueue(k: Ring, c: int)
    requires RingOk(k) && c > 0
    ensures |Unread(k)| <= 255
    ensures Unread(Put(k, c)) == if |Unread(k)| < 255 then Unread(k) + [c] else []
  {
    var k' := Put(k, c);
    var was, now := Unread(k), Unread(k');
    if |was| < SIZE - 1 {
      assert |now| == |was| + 1;
      forall i | 0 <= i < |now| ensures now[i] == (was + [c])[i] { }
    }
  }

  lemma GetIsDequeue(k: Ring)
    requires RingOk(k)
    ensures var (c, k') := Get(k);
            if Unread(k) == [] then c == -1 && k' == k else c == Unread(k)[0] && c >= 0 && Unread(k') == Unread(k)[1..]
  {
    var (c, k') := Get(k);
    if Unread(k) != [] {
      var was, now := Unread(k), Unread(k');
      assert |now| == |was| - 1;
      forall i | 0 <= i < |now| ensures now[i] == was[1..][i] { }
    }
  }

  /** Characters arrive in the order in which they were typed, as long as fewer than 256 are waiting. */
  function PutAll(k: Ring, cs: seq<int>): (k': Ring)
    requires RingOk(k) && forall i :: 0 <= i < |cs| ==> cs[i] > 0
    ensures RingOk(k')
    decreases |cs|
  {
    if cs == [] then k else PutAll(Put(k, cs[0]), cs[1..])
  }

  lemma PutKeepsRing(k: Ring, c: int)
    requires RingOk(k) && c > 0
    ensures RingOk(Put(k, c))
  {
  }

  lemma {:induction false} TypedInOrder(k: Ring, cs: seq<int>)
    requires RingOk(k) && (forall i :: 0 <= i < |cs| ==> cs[i] > 0) && |Unread(k)| + |cs| < 256
    ensures Unread(PutAll(k, cs)) == Unread(k) + cs
    decreases |cs|
  {
    hide Unread, Put;
    if cs == [] {
      assert Unread(k) + cs == Unread(k);
    } else {
      PutIsEnqueue(k, cs[0]);
      PutKeepsRing(k, cs[0]);
      TypedInOrder(Put(k, cs[0]), cs[1..]);
      assert (Unread(k) + [cs[0]]) + cs[1..] == Unread(k) + cs;
    }
  }

  const LSHIFT_DOWN: nat := 0x2A
  const RSHIFT_DOWN: nat := 0x36
  const LSHIFT_UP: nat := 0xAA
  const RSHIFT_UP: nat := 0xB6

  /** The character of a scancode under the two tables; 0 for none. */
  function CharOf(k: Ring, code: nat, plain: seq<int>, shifted: seq<int>): int
    requires |plain| == |shifted| == 128
  {
    if code == LSHIFT_DOWN || code == RSHIFT_DOWN || code >= 128 then 0 else if k.shift then shifted[code] else plain[code]
  }

  /** The ring after a scancode. */
  function Typed(k: Ring, code: nat, plain: seq<int>, shifted: seq<int>): (k': Ring)
    requires RingOk(k) && TablesOk(plain, shifted)
    ensures RingOk(k')
  {
    if code == LSHIFT_DOWN || code == RSHIFT_DOWN then k.(shift := true)
    else if code == LSHIFT_UP || code == RSHIFT_UP then k.(shift := false)
    else if CharOf(k, code, plain, shifted) == 0 then k
    else Put(k, CharOf(k, code, plain, shifted))
  }

  predicate TablesOk(plain: seq<int>, shifted: seq<int>) {
    |plain| == |shifted| == 128 && forall i :: 0 <= i < 128 ==> plain[i] >= 0 && shifted[i] >= 0
  }

  /** scancode_ascii and scancode_ascii_shift, by the rows of the keyboard: codes from 0, 15, 29 and 42 on. */
  const PLAIN_0: seq<int> := [0, 27, 49, 50, 51, 52, 53, 54, 55, 56, 57, 48, 45, 61, 8]
  const PLAIN_1: seq<int> := [9, 113, 119, 101, 114, 116, 121, 117, 105, 111, 112, 91, 93, 10]
  const PLAIN_2: seq<int> := [0, 97, 115, 100, 102, 103, 104, 106, 107, 108, 59, 39, 96]
  const PLAIN_3: seq<int> := [0, 92, 122, 120, 99, 118, 98, 110, 109, 44, 46, 47, 0, 42, 0, 32, 0]
  const SHIFTED_0: seq<int> := [0, 27, 33, 64, 35, 36, 37, 94, 38, 42, 40, 41, 95, 43, 8]
  const SHIFTED_1: seq<int> := [9, 81, 87, 69, 82, 84, 89, 85, 73, 79, 80, 123, 125, 10]
  const SHIFTED_2: seq<int> := [0, 65, 83, 68, 70, 71, 72, 74, 75, 76, 58, 34, 126]
  const SHIFTED_3: seq<int> := [0, 124, 90, 88, 67, 86, 66, 78, 77, 60, 62, 63, 0, 42, 0, 32, 0]
  const PLAIN: seq<int> := PLAIN_0 + PLAIN_1 + PLAIN_2 + PLAIN_3 + seq(69, _ => 0)
  const SHIFTED: seq<int> := SHIFTED_0 + SHIFTED_1 + SHIFTED_2 + SHIFTED_3 + seq(69, _ => 0)

  predicate NoneNegative(s: seq<int>) { forall i :: 0 <= i < |s| ==> s[i] >= 0 }

  lemma Rows(a: seq<int>, b: seq<int>, c: seq<int>, d: seq<int>, z: seq<int>)
    requires |a| == 15 && |b| == 14 && |c| == 13 && |d| == 17 && |z| == 69
    requires NoneNegative(a) && NoneNegative(b) && NoneNegative(c) && NoneNegative(d) && NoneNegative(z)
    ensures var t := a + b + c + d + z;
            && |t| == 128 && NoneNegative(t) && t[..15] == a && t[15..29] == b && t[29..42] == c && t[42..59] == d && t[59..] == z
  {
  }

  /** The tables hold a row behind the other, and nothing behind code 58. */
  lemma OwnTables()
    ensures TablesOk(PLAIN, SHIFTED)
    ensures PLAIN[..15] == PLAIN_0 && PLAIN[15..29] == PLAIN_1 && PLAIN[29..42] == PLAIN_2 && PLAIN[42..59] == PLAIN_3
    ensures SHIFTED[..15] == SHIFTED_0 && SHIFTED[15..29] == SHIFTED_1 && SHIFTED[29..42] == SHIFTED_2 && SHIFTED[42..59] == SHIFTED_3
    ensures PLAIN[59..] == SHIFTED[59..] == seq(69, _ => 0)
  {
    Rows(PLAIN_0, PLAIN_1, PLAIN_2, PLAIN_3, seq(69, _ => 0));
    Rows(SHIFTED_0, SHIFTED_1, SHIFTED_2, SHIFTED_3, seq(69, _ => 0));
    Nonnegative(PLAIN, SHIFTED);
  }

  lemma Nonnegative(p: seq<int>, q: seq<int>)
    requires |p| == |q| == 128 && NoneNegative(p) && NoneNegative(q)
    ensures TablesOk(p, q)
  {
  }

  /** From i up to j the second row has the capitals of the letters in the first one. */
  predicate Capitals(p: seq<int>, q: seq<int>, i: nat, j: nat) {
    j <= |p| && j <= |q| && forall k :: i <= k < j ==> 97 <= p[k] <= 122 && q[k] == p[k] - 32
  }

  /** Shift turns letters into capitals, from q to p, a to l and z to m; the keys around them. */
  lemma LetterRows()
    ensures Capitals(PLAIN_1, SHIFTED_1, 1, 11) && Capitals(PLAIN_2, SHIFTED_2, 1, 10) && Capitals(PLAIN_3, SHIFTED_3, 2, 9)
    ensures PLAIN_1[1] == 113 && PLAIN_1[10] == 112 && PLAIN_2[1] == 97 && PLAIN_2[9] == 108 && PLAIN_3[2] == 122 && PLAIN_3[8] == 109
    ensures PLAIN_0[1] == SHIFTED_0[1] == 27 && PLAIN_0[14] == SHIFTED_0[14] == 8 && PLAIN_1[13] == SHIFTED_1[13] == 10 && PLAIN_3[15] == SHIFTED_3[15] == 32
    ensures PLAIN_0[2] == 49 && SHIFTED_0[2] == 33 && PLAIN_0[11] == 48 && SHIFTED_0[11] == 41
  {
  }

  /** What a scancode does: the shift keys set and clear the shift, a release gives no character, any other
      key gives the one of the table for the shift, and a character is stored behind those that wait. */
  lemma TypedIs(k: Ring, code: nat, plain: seq<int>, shifted: seq<int>)
    requires RingOk(k) && TablesOk(plain, shifted)
    ensures CharOf(k, code, plain, shifted)
            == if code < 128 && code != 0x2A && code != 0x36 then (if k.shift then shifted[code] else plain[code]) else 0
    ensures var k', c := Typed(k, code, plain, shifted), CharOf(k, code, plain, shifted);
            && RingOk(k') && k'.shift == (if code == 0x2A || code == 0x36 then true else if code == 0xAA || code == 0xB6 then false else k.shift)
            && Unread(k') == if c == 0 then Unread(k) else if |Unread(k)| < 255 then Unread(k) + [c] else []
  {
    var c := CharOf(k, code, plain, shifted);
    if c != 0 { PutIsEnqueue(k, c); }
  }

  class Buffer {
    const buf: array<int>
    var r: nat
    var w: nat
    var shift: bool

    ghost function K(): Ring
      reads this, buf
    {
      Ring(buf[..], r, w, shift)
    }

    constructor ()
      ensures RingOk(K()) && Unread(K()) == [] && fresh(buf)
    {
      buf := new int[SIZE](_ => 0);
      r, w, shift := 0, 0, false;
    }

    /** The part of kbd_handler before the wake-up: the character stored, or 0. */
    method Scancode(code: nat, plain: seq<int>, shifted: seq<int>) returns (c: int)
      requires RingOk(K()) && TablesOk(plain, shifted)
      modifies this, buf
      ensures K() == Typed(old(K()), code, plain, shifted) && c == CharOf(old(K()), code, plain, shifted)
    {
      if code == LSHIFT_DOWN || code == RSHIFT_DOWN {
        shift := true;
        return 0;
      }
      if code == LSHIFT_UP || code == RSHIFT_UP {
        shift := false;
        return 0;
      }
      if code >= 128 {
        return 0;
      }
      c := if shift then shifted[code] else plain[code];
      if c != 0 {
        buf[w] := c;
        w := (w + 1) % SIZE;
      }
    }

    /** kbd_getchar */
    method GetChar() returns (c: int)
      requires RingOk(K())
      modifies this
      ensures (c, K()) == Get(old(K()))
    {
      if r == w {
        return -1;
      }
      c := buf[r];
      r := (r + 1) % SIZE;
    }
  }
}
