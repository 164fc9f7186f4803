/** Directory entries: the 32-byte record of section 6 of the Microsoft FAT specification, and the
conversion between path components and the padded upper-case names stored in it. */
module Dirent {
  import opened Bits
  import opened FatTable

  const SIZE: nat := 32
  const NAME_LEN: nat := 11
  const SPACE: int := 0x20
  const DOT: int := 0x2E
  const SLASH: int := 0x2F
  const DELETED: int := 0xE5
  const ATTR_LONG_NAME: int := 0x0F
  const ATTR_DIRECTORY: int := 0x10
  const ATTR_ARCHIVE: int := 0x20

  /** Entry number k of a directory area. */
  function EntryAt(b: Bytes, k: nat): (e: Bytes)
    requires SIZE * k + SIZE <= |b|
    ensures |e| == SIZE
  {
    b[SIZE * k..SIZE * k + SIZE]
  }

  /** The area with entry k replaced. */
  function WithEntry(b: Bytes, k: nat, e: Bytes): (r: Bytes)
    requires SIZE * k + SIZE <= |b| && |e| == SIZE
    ensures |r| == |b|
  {
    b[..SIZE * k] + e + b[SIZE * k + SIZE..]
  }

  lemma WithEntrySame(b: Bytes, k: nat, e: Bytes)
    requires SIZE * k + SIZE <= |b| && |e| == SIZE
    ensures EntryAt(WithEntry(b, k, e), k) == e
  {
  }

  lemma WithEntryOther(b: Bytes, k: nat, e: Bytes, j: nat)
    requires SIZE * k + SIZE <= |b| && |e| == SIZE && SIZE * j + SIZE <= |b| && j != k
    ensures EntryAt(WithEntry(b, k, e), j) == EntryAt(b, j)
  {
    var r := WithEntry(b, k, e);
    forall i | 0 <= i < SIZE ensures EntryAt(r, j)[i] == EntryAt(b, j)[i] {
      assert r[SIZE * j + i] == b[SIZE * j + i];
    }
  }

  // ----- fields -----

  function Name(e: Bytes): Bytes requires |e| == SIZE { e[..NAME_LEN] }
  function Attr(e: Bytes): int requires |e| == SIZE { e[11] }
  function First(e: Bytes): int requires |e| == SIZE { e[26] + 256 * e[27] }
  function FileSize(e: Bytes): int requires |e| == SIZE { e[28] + 256 * (e[29] + 256 * (e[30] + 256 * e[31])) }

  predicate IsEnd(e: Bytes) requires |e| == SIZE { e[0] == 0 }
  predicate IsFree(e: Bytes) requires |e| == SIZE { e[0] == 0 || e[0] == DELETED }
  predicate HasVolumeBit(e: Bytes) requires |e| == SIZE { e[11] / 8 % 2 == 1 }
  predicate IsDirectory(e: Bytes) requires |e| == SIZE { e[11] / 16 % 2 == 1 }

  /** Not free, not a long name, not a volume label: what dir_lookup compares. */
  predicate Visible(e: Bytes) requires |e| == SIZE {
    !IsFree(e) && e[11] != ATTR_LONG_NAME && !HasVolumeBit(e)
  }

  /** The "." and ".." entries of a subdirectory. */
  predicate IsDots(e: Bytes) requires |e| == SIZE {
    e[0] == DOT && (e[1] == SPACE || (e[1] == DOT && e[2] == SPACE))
  }

  /** A real file or directory. */
  predicate Live(e: Bytes) requires |e| == SIZE { Visible(e) && !IsDots(e) }

  function Byte(v: nat, i: nat): int {
    if i == 0 then v % 256 else Byte(v / 256, i - 1)
  }

  /** A record with the given fields and everything else zero. */
  function Make(name: Bytes, attr: int, first: nat, size: nat): (e: Bytes)
    requires |name| == NAME_LEN
    ensures |e| == SIZE && Name(e) == name && Attr(e) == attr
  {
    WithFields(name + [attr] + seq(20, _ => 0), first, size)
  }

  /** The record with its first cluster and size replaced. */
  function WithFields(e: Bytes, first: nat, size: nat): (r: Bytes)
    requires |e| == SIZE
    ensures |r| == SIZE && Name(r) == Name(e) && Attr(r) == Attr(e)
  {
    var r := e[..26] + [first % 256, first / 256 % 256] + [size % 256, size / 256 % 256, size / 65536 % 256, size / 16777216 % 256];
    assert r[..11] == e[..11];
    r
  }

  lemma WithFieldsRead(e: Bytes, first: nat, size: nat)
    requires |e| == SIZE && first < 0x1_0000 && size < WORD
    ensures First(WithFields(e, first, size)) == first
    ensures FileSize(WithFields(e, first, size)) == size
  {
    SplitSize(size);
  }

  lemma SplitSize(size: nat)
    requires size < WORD
    ensures size % 256 + 256 * (size / 256 % 256 + 256 * (size / 65536 % 256 + 256 * (size / 16777216 % 256))) == size
  {
    assert size / 65536 == size / 256 / 256;
    assert size / 16777216 == size / 65536 / 256;
  }

  /** The fields of the 32-byte record, by byte offset and bit; numbers are little-endian. */
  lemma FieldBytes(e: Bytes)
    requires |e| == 32 && forall i :: 0 <= i < 32 ==> 0 <= e[i] < 256
    ensures Name(e) == e[..11] && Attr(e) == e[11]
    ensures First(e) == e[26] + 256 * e[27]
    ensures FileSize(e) == e[28] + 256 * e[29] + 65536 * e[30] + 16777216 * e[31]
    ensures IsEnd(e) <==> e[0] == 0
    ensures IsFree(e) <==> e[0] == 0 || e[0] == 0xE5
    ensures Bit(e[11], 4) <==> IsDirectory(e)
    ensures Visible(e) <==> e[0] != 0 && e[0] != 0xE5 && e[11] != 0x0F && !Bit(e[11], 3)
    ensures IsDots(e) <==> e[..2] == [0x2E, 0x20] || e[..3] == [0x2E, 0x2E, 0x20]
    ensures Live(e) <==> Visible(e) && !IsDots(e)
  {
    var a: nat := e[11];
    assert Bit(a, 4) == Bit(a / 2 / 2 / 2 / 2, 0) && Bit(a, 3) == Bit(a / 2 / 2 / 2, 0);
  }

  /** A new record holds its name, its attributes, first cluster and size in these bytes; the reserved
      byte, the times and the upper half of the cluster number are zero. */
  lemma RecordBytes(name: Bytes, attr: int, first: nat, size: nat)
    requires |name| == 11 && first < 0x1_0000 && size < WORD
    ensures var e := Make(name, attr, first, size);
            && |e| == 32 && e[..11] == name && e[11] == attr && (forall i :: 12 <= i < 26 ==> e[i] == 0)
            && (forall i :: 26 <= i < 32 ==> 0 <= e[i] < 256)
            && e[26] + 256 * e[27] == first && e[28] + 256 * e[29] + 65536 * e[30] + 16777216 * e[31] == size
  {
    SplitSize(size);
    var e := Make(name, attr, first, size);
    assert Name(e) == name && Attr(e) == attr;
  }

  // ----- names -----

  function ToUpper(c: int): int { if 0x61 <= c <= 0x7A then c - 0x20 else c }

  function Pad(s: Bytes, n: nat): (r: Bytes)
    requires |s| <= n
    ensures |r| == n
  {
    s + seq(n - |s|, _ => SPACE)
  }

  function Upper(s: Bytes): (r: Bytes)
    ensures |r| == |s|
  {
    seq(|s|, i requires 0 <= i < |s| => ToUpper(s[i]))
  }

  /** The length of the base part: up to the first dot, at most eight. */
  function BaseLen(name: Bytes, i: nat): (r: nat)
    requires i <= |name| && i <= 8
    ensures i <= r <= 8 && r <= |name|
    ensures forall j :: i <= j < r ==> name[j] != DOT
    ensures r < 8 && r < |name| ==> name[r] == DOT
    decreases 8 - i
  {
    if i < |name| && name[i] != DOT && i < 8 then BaseLen(name, i + 1) else i
  }

  function Min(a: nat, b: nat): nat { if a < b then a else b }

  function BasePart(name: Bytes): Bytes { name[..BaseLen(name, 0)] }

  /** What follows the dot, cut at three; nothing when the base is not followed by a dot. */
  function ExtPart(name: Bytes): (r: Bytes)
    ensures |r| <= 3
  {
    var b := BaseLen(name, 0);
    if b < |name| && name[b] == DOT then name[b + 1..Min(|name|, b + 4)] else []
  }

  /** to_fat_name */
  function ToFatName(name: Bytes): (r: Bytes)
    ensures |r| == NAME_LEN
  {
    Pad(Upper(BasePart(name)), 8) + Pad(Upper(ExtPart(name)), 3)
  }

  /** The characters before the first space. */
  function Trim(s: Bytes): (r: Bytes)
    ensures |r| <= |s| && r == s[..|r|]
    ensures forall i :: 0 <= i < |r| ==> r[i] != SPACE
    ensures |r| < |s| ==> s[|r|] == SPACE
  {
    if s == [] || s[0] == SPACE then [] else [s[0]] + Trim(s[1..])
  }

  /** from_fat_name */
  function FromFatName(raw: Bytes): (r: Bytes)
    requires |raw| == NAME_LEN
    ensures |r| <= 12
  {
    Trim(raw[..8]) + if raw[8] != SPACE then [DOT] + Trim(raw[8..]) else []
  }

  /** A stored name in 8.3 form: base and extension are left-justified, upper case, and the base holds
      no dot. */
  predicate Is83(raw: Bytes)
    requires |raw| == NAME_LEN
  {
    var base := Trim(raw[..8]);
    var ext := Trim(raw[8..]);
    && raw == Pad(base, 8) + Pad(ext, 3)
    && DOT !in base
    && Upper(base) == base && Upper(ext) == ext
  }

  lemma {:induction false} BaseLenIs(name: Bytes, i: nat, n: nat)
    requires i <= n <= 8 && n <= |name|
    requires forall j :: i <= j < n ==> name[j] != DOT
    requires n == 8 || n == |name| || name[n] == DOT
    ensures BaseLen(name, i) == n
    decreases n - i
  {
    if i < n { BaseLenIs(name, i + 1, n); }
  }

  /** The base length found again in the listed form of a name: it ends at the first dot. */
  lemma FromThenToParts(base: Bytes, ext: Bytes)
    requires |base| <= 8 && |ext| <= 3 && DOT !in base
    ensures var n := base + if ext != [] then [DOT] + ext else [];
            BasePart(n) == base && ExtPart(n) == ext
  {
    var n := base + if ext != [] then [DOT] + ext else [];
    forall j | 0 <= j < |base| ensures n[j] != DOT { assert n[j] == base[j] && base[j] in base; }
    BaseLenIs(n, 0, |base|);
    assert n[..|base|] == base;
    if ext != [] { assert n[|base| + 1..] == ext; }
  }

  /** A listed name leads back to the stored name exactly when the stored name is in 8.3 form. */
  lemma NameRoundTrip(raw: Bytes)
    requires |raw| == NAME_LEN
    ensures ToFatName(FromFatName(raw)) == raw <==> Is83(raw)
  {
    var base := Trim(raw[..8]);
    var ext := Trim(raw[8..]);
    var n := FromFatName(raw);
    assert raw == raw[..8] + raw[8..];
    if DOT !in base {
      FromThenToParts(base, ext);
      assert (raw[8] != SPACE) == (ext != []);
      var p := ToFatName(n);
      assert p[..8] == Pad(Upper(base), 8) && p[8..] == Pad(Upper(ext), 3);
      if p == raw {
        TrimPad(Upper(base), 8, base);
        TrimPad(Upper(ext), 3, ext);
      }
    } else {
      DottedBase(raw);
    }
  }

  /** Padding a name and trimming it: when the padded form starts with s, s is that name. */
  lemma TrimPad(u: Bytes, n: nat, s: Bytes)
    requires |u| == |s| <= n && s == Trim(Pad(u, n))
    ensures u == s
  {
    assert Pad(u, n)[..|s|] == u;
  }

  /** A dot inside the base is taken for the separator, and the base comes back shorter. */
  lemma DottedBase(raw: Bytes)
    requires |raw| == NAME_LEN && DOT in Trim(raw[..8])
    ensures ToFatName(FromFatName(raw)) != raw
  {
    var base := Trim(raw[..8]);
    var n := FromFatName(raw);
    assert n[..|base|] == base;
    var k :| 0 <= k < |base| && base[k] == DOT;
    var b := BaseLen(n, 0);
    assert n[k] == DOT;
    assert b <= k;
    var p := ToFatName(n);
    assert p[b] == SPACE;
    assert raw[b] == base[b];
  }

  // ----- the conversion loops -----

  method EncodeName(name: Bytes) returns (out: Bytes)
    ensures out == ToFatName(name)
  {
    hide ToFatName;
    out := seq(NAME_LEN, _ => SPACE);
    var i := 0;
    while i < |name| && name[i] != DOT && i < 8
      invariant 0 <= i <= 8 && i <= |name| && BaseLen(name, 0) == BaseLen(name, i)
      invariant |out| == NAME_LEN
      invariant forall j :: 0 <= j < i ==> out[j] == ToUpper(name[j])
      invariant forall j :: i <= j < NAME_LEN ==> out[j] == SPACE
    {
      out := out[i := ToUpper(name[i])];
      i := i + 1;
    }
    ghost var b := i;
    if i < |name| && name[i] == DOT {
      i := i + 1;
      var j := 0;
      while i < |name| && j < 3
        invariant 0 <= j <= 3 && i == b + 1 + j <= |name|
        invariant |out| == NAME_LEN
        invariant forall k :: 0 <= k < b ==> out[k] == ToUpper(name[k])
        invariant forall k :: b <= k < 8 ==> out[k] == SPACE
        invariant forall k :: 8 <= k < 8 + j ==> out[k] == ToUpper(name[b + 1 + k - 8])
        invariant forall k :: 8 + j <= k < NAME_LEN ==> out[k] == SPACE
      {
        out := out[8 + j := ToUpper(name[i])];
        i, j := i + 1, j + 1;
      }
    }
    Encoded(name, out);
  }

  lemma PadAt(s: Bytes, n: nat, k: nat)
    requires |s| <= n && k < n
    ensures Pad(s, n)[k] == if k < |s| then s[k] else SPACE
  {
  }

  lemma FatNameAt(name: Bytes, k: nat)
    requires k < NAME_LEN
    ensures |ToFatName(name)| == NAME_LEN && ToFatName(name)[k] == EncodedByte(name, k)
  {
    hide Pad;
    if k < 8 {
      PadAt(Upper(BasePart(name)), 8, k);
    } else {
      PadAt(Upper(ExtPart(name)), 3, k - 8);
    }
    FatNameParts(name, k);
  }

  lemma FatNameParts(name: Bytes, k: nat)
    requires k < NAME_LEN
    ensures |ToFatName(name)| == NAME_LEN
    ensures ToFatName(name)[k] == if k < 8 then Pad(Upper(BasePart(name)), 8)[k] else Pad(Upper(ExtPart(name)), 3)[k - 8]
  {
  }

  /** The loops have built the padded name. */
  lemma Encoded(name: Bytes, out: Bytes)
    requires |out| == NAME_LEN
    requires forall k :: 0 <= k < NAME_LEN ==> out[k] == EncodedByte(name, k)
    ensures out == ToFatName(name)
  {
    hide ToFatName, EncodedByte;
    assert |ToFatName(name)| == NAME_LEN by { FatNameAt(name, 0); }
    forall k | 0 <= k < NAME_LEN ensures out[k] == ToFatName(name)[k] { FatNameAt(name, k); }
  }

  /** Byte k of the stored form of a name. */
  function EncodedByte(name: Bytes, k: nat): int {
    var b := BaseLen(name, 0);
    if k < b then ToUpper(name[k])
    else if 8 <= k < 11 && b < |name| && name[b] == DOT && b + 1 + k - 8 < |name| then ToUpper(name[b + 1 + k - 8])
    else SPACE
  }

  /** The stored form of a name whose base ends at b: its first dot, its ninth byte or its end. Letters
      lose their case, every other byte is kept, and what is left is filled with spaces. */
  lemma StoredByte(name: Bytes, b: nat, k: nat)
    requires b <= 8 && b <= |name| && (forall j :: 0 <= j < b ==> name[j] != 0x2E) && (b == 8 || b == |name| || name[b] == 0x2E)
    requires k < 11
    ensures |ToFatName(name)| == 11
    ensures var dot := b < |name| && name[b] == 0x2E;
            var c := if k < 8 then (if k < b then name[k] else 0x20)
                     else if dot && b + k - 7 < |name| then name[b + k - 7] else 0x20;
            var r := ToFatName(name)[k];
            !(0x61 <= r <= 0x7A) && r == if 0x61 <= c <= 0x7A then c - 0x20 else c
  {
    BaseLenIs(name, 0, b);
    FatNameAt(name, k);
  }

  /** Two strings that differ at most in the case of their letters. */
  predicate SameLetters(a: Bytes, b: Bytes) {
    |a| == |b| && forall i :: 0 <= i < |a| ==> SameLetter(a[i], b[i])
  }

  predicate SameLetter(c: int, d: int) {
    c == d || (0x41 <= c <= 0x5A && d == c + 0x20) || (0x41 <= d <= 0x5A && c == d + 0x20)
  }

  /** Such names have the same stored form. */
  lemma CaseIgnored(a: Bytes, b: Bytes)
    requires SameLetters(a, b)
    ensures ToFatName(a) == ToFatName(b)
  {
    var n := BaseLen(a, 0);
    assert SameLetter(0x2E, 0x2E);
    forall j | 0 <= j < n ensures b[j] != 0x2E { assert SameLetter(a[j], b[j]); }
    assert n < |a| ==> SameLetter(a[n], b[n]);
    forall k | 0 <= k < 11 ensures ToFatName(a)[k] == ToFatName(b)[k] {
      StoredByte(a, n, k);
      StoredByte(b, n, k);
      if k < n { assert SameLetter(a[k], b[k]); }
      if 8 <= k && n + k - 7 < |a| { assert SameLetter(a[n + k - 7], b[n + k - 7]); }
    }
  }

  /** How a stored name is listed: the base up to its first space, and, if there is an extension, a dot and
      the extension up to its first space. */
  lemma ListedName(raw: Bytes, b: nat, x: nat)
    requires |raw| == 11 && b <= 8 && (forall i :: 0 <= i < b ==> raw[i] != 0x20) && (b == 8 || raw[b] == 0x20)
    requires x <= 3 && (forall i :: 8 <= i < 8 + x ==> raw[i] != 0x20) && (x == 3 || raw[8 + x] == 0x20)
    ensures FromFatName(raw) == raw[..b] + if x == 0 then [] else [0x2E] + raw[8..8 + x]
  {
    hide Trim;
    TrimIs(raw[..8], b);
    TrimIs(raw[8..], x);
    assert raw[..8][..b] == raw[..b] && raw[8..][..x] == raw[8..8 + x];
  }

  /** hello.txt is stored in capitals. */
  lemma HelloStored()
    ensures ToFatName([0x68, 0x65, 0x6C, 0x6C, 0x6F, 0x2E, 0x74, 0x78, 0x74]) == [0x48, 0x45, 0x4C, 0x4C, 0x4F, 0x20, 0x20, 0x20, 0x54, 0x58, 0x54]
  {
    hide ToFatName;
    var name: Bytes := [0x68, 0x65, 0x6C, 0x6C, 0x6F, 0x2E, 0x74, 0x78, 0x74];
    var raw: Bytes := [0x48, 0x45, 0x4C, 0x4C, 0x4F, 0x20, 0x20, 0x20, 0x54, 0x58, 0x54];
    assert |ToFatName(name)| == 11 by { StoredByte(name, 5, 0); }
    forall k | 0 <= k < 11 ensures ToFatName(name)[k] == raw[k] { StoredByte(name, 5, k); }
  }

  /** It is listed as HELLO.TXT. */
  lemma HelloListed()
    ensures FromFatName([0x48, 0x45, 0x4C, 0x4C, 0x4F, 0x20, 0x20, 0x20, 0x54, 0x58, 0x54]) == [0x48, 0x45, 0x4C, 0x4C, 0x4F, 0x2E, 0x54, 0x58, 0x54]
  {
    hide Trim;
    var raw: Bytes := [0x48, 0x45, 0x4C, 0x4C, 0x4F, 0x20, 0x20, 0x20, 0x54, 0x58, 0x54];
    TrimIs(raw[..8], 5);
    TrimIs(raw[8..], 3);
  }

  lemma {:induction false} TrimIs(s: Bytes, n: nat)
    requires n <= |s| && (forall i :: 0 <= i < n ==> s[i] != SPACE) && (n == |s| || s[n] == SPACE)
    ensures Trim(s) == s[..n]
    decreases n
  {
    if n > 0 {
      TrimIs(s[1..], n - 1);
      assert s[..n] == [s[0]] + s[1..][..n - 1];
    }
  }

  method DecodeName(raw: Bytes) returns (out: Bytes)
    requires |raw| == NAME_LEN
    ensures out == FromFatName(raw)
  {
    hide Trim;
    out := [];
    var i := 0;
    while i < 8 && raw[i] != SPACE
      invariant 0 <= i <= 8 && out + Trim(raw[i..8]) == Trim(raw[0..8])
    {
      TrimStep(raw, i, 8);
      AppendFirst(out, raw[i], Trim(raw[i + 1..8]));
      out := out + [raw[i]];
      i := i + 1;
    }
    TrimEnd(raw, i, 8);
    assert raw[0..8] == raw[..8] && out == Trim(raw[..8]);
    if raw[8] != SPACE {
      out := out + [DOT];
      ghost var base := out;
      i := 8;
      while i < 11 && raw[i] != SPACE
        invariant 8 <= i <= 11 && out + Trim(raw[i..11]) == base + Trim(raw[8..11])
      {
        TrimStep(raw, i, 11);
        AppendFirst(out, raw[i], Trim(raw[i + 1..11]));
        out := out + [raw[i]];
        i := i + 1;
      }
      TrimEnd(raw, i, 11);
      assert raw[8..11] == raw[8..];
      AppendFirst(Trim(raw[..8]), DOT, Trim(raw[8..]));
    }
  }

  lemma TrimStep(raw: Bytes, i: nat, j: nat)
    requires i < j <= |raw| && raw[i] != SPACE
    ensures Trim(raw[i..j]) == [raw[i]] + Trim(raw[i + 1..j])
  {
    assert raw[i..j][1..] == raw[i + 1..j];
  }

  lemma TrimEnd(raw: Bytes, i: nat, j: nat)
    requires i <= j <= |raw| && (i < j ==> raw[i] == SPACE)
    ensures Trim(raw[i..j]) == []
  {
  }

  lemma AppendFirst(a: Bytes, c: int, b: Bytes)
    ensures a + ([c] + b) == (a + [c]) + b
  {
  }
}
