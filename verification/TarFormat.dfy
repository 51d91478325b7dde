/** The archive format: what the writer puts into a header and an archive, and what the reader gets out
    of any bytes ("ustar Interchange Format" of the pax utility, POSIX.1-2017). */
module TarFormat {
  import opened CText

  const BLOCK: nat := 512
  const SLASH: byte := 0x2F
  const DOT: byte := 0x2E
  const SPACE: byte := 0x20
  const TYPE_FILE: byte := 0x30
  const TYPE_DIR: byte := 0x35
  const MAX_SIZE: nat := 0x400_0000       // 64 MiB
  const WORD: nat := 0x1_0000_0000        // one past the largest 32-bit value

  type Bytes = seq<byte>

  ghost predicate NoZero(s: Bytes) { forall i | 0 <= i < |s| :: s[i] != 0 }

  function Zeros(n: nat): (z: Bytes)
    ensures |z| == n
  {
    seq(n, _ => 0)
  }

  /** The text in a field: everything before the first zero byte. */
  function TextOf(a: Bytes): (s: Bytes)
    ensures |s| <= |a| && s == a[..|s|] && NoZero(s) && (|s| < |a| ==> a[|s|] == 0)
  {
    if a == [] || a[0] == 0 then [] else [a[0]] + TextOf(a[1..])
  }

  lemma {:induction false} TextOfPadded(s: Bytes, n: nat)
    requires NoZero(s)
    ensures TextOf(s + Zeros(n)) == s
  {
    if s == [] {
      assert s + Zeros(n) == Zeros(n);
    } else {
      assert (s + Zeros(n))[1..] == s[1..] + Zeros(n);
      TextOfPadded(s[1..], n);
    }
  }

  function Sum(s: Bytes): nat {
    if s == [] then 0 else Sum(s[..|s|-1]) + s[|s|-1]
  }

  lemma {:induction false} SumConcat(a: Bytes, b: Bytes)
    ensures Sum(a + b) == Sum(a) + Sum(b)
  {
    if b == [] {
      assert a + b == a;
    } else {
      assert (a + b)[..|a + b|-1] == a + b[..|b|-1];
      SumConcat(a, b[..|b|-1]);
    }
  }

  lemma {:induction false} SumBound(s: Bytes)
    ensures Sum(s) <= 255 * |s|
  {
    if s != [] { SumBound(s[..|s|-1]); }
  }

  // ---------- octal fields ----------

  /** At least w octal digits, as printed by `%0*o`. */
  function OctalText(v: nat, w: nat): (s: Bytes)
    ensures |s| >= w && |s| > 0 && forall i | 0 <= i < |s| :: 0x30 <= s[i] <= 0x37
    decreases v, w
  {
    var last: byte := 0x30 + v % 8;
    if v < 8 && w <= 1 then [last] else OctalText(v / 8, if w > 0 then w - 1 else 0) + [last]
  }

  /** `n` bytes: the digits, cut to n - 1, and a NUL. */
  function OctalField(v: nat, n: nat): (s: Bytes)
    requires n > 0
    ensures |s| == n
  {
    OctalText(v, n - 1)[..n-1] + [0]
  }

  predicate IsOctal(b: byte) { 0x30 <= b <= 0x37 }

  /** Reads octal digits up to the first other byte; 32-bit arithmetic wraps around. */
  function ParseOctal(v: nat, p: Bytes): nat
    decreases |p|
  {
    if p == [] || !IsOctal(p[0]) then v else ParseOctal((v * 8 + (p[0] - 0x30)) % WORD, p[1..])
  }

  lemma {:induction false} ParseAppend(v: nat, s: Bytes, rest: Bytes)
    requires AllOctal(s)
    ensures ParseOctal(v, s + rest) == ParseOctal(ParseOctal(v, s), rest)
    decreases |s|
  {
    if s == [] {
      assert s + rest == rest;
    } else {
      assert (s + rest)[1..] == s[1..] + rest;
      ParseAppend((v * 8 + (s[0] - 0x30)) % WORD, s[1..], rest);
    }
  }

  /** Digits fit: w digits hold any value below 8^w. */
  function Pow8(w: nat): nat { if w == 0 then 1 else 8 * Pow8(w - 1) }

  lemma {:induction false} OctalTextWidth(v: nat, w: nat)
    requires w > 0 && v < Pow8(w)
    ensures |OctalText(v, w)| == w
    decreases w
  {
    if w > 1 {
      assert v / 8 < Pow8(w - 1);
      OctalTextWidth(v / 8, w - 1);
    }
  }

  lemma NoWrap(n: nat)
    requires n < WORD
    ensures n % WORD == n
  {
  }

  lemma ParseOne(v: nat, b: byte, n: nat)
    requires IsOctal(b) && n == v * 8 + (b - 0x30) && n < WORD
    ensures ParseOctal(v, [b]) == n
  {
    NoWrap(n);
    assert [b][1..] == [];
  }

  ghost predicate AllOctal(s: Bytes) { forall i | 0 <= i < |s| :: IsOctal(s[i]) }

  lemma ParseLast(high: Bytes, u: nat, b: byte, n: nat)
    requires AllOctal(high) && ParseOctal(0, high) == u && IsOctal(b) && n == u * 8 + (b - 0x30) && n < WORD
    ensures ParseOctal(0, high + [b]) == n
  {
    ParseAppend(0, high, [b]);
    ParseOne(u, b, n);
  }

  lemma Eighths(v: nat)
    ensures v / 8 * 8 + v % 8 == v && v / 8 <= v
  {
  }

  lemma {:induction false} ParseOfText(v: nat, w: nat)
    requires v < WORD
    ensures ParseOctal(0, OctalText(v, w)) == v
    decreases v, w
  {
    if v < 8 && w <= 1 {
      ParseOne(0, 0x30 + v, v);
    } else {
      var less := if w > 0 then w - 1 else 0;
      var high := OctalText(v / 8, less);
      Eighths(v);
      ParseOfText(v / 8, less);
      ParseLast(high, v / 8, 0x30 + v % 8, v);
    }
  }

  /** Parsing a printed field gives the value back. */
  lemma ParseOfField(v: nat, n: nat, rest: Bytes)
    requires n > 1 && v < WORD && v < Pow8(n - 1)
    ensures ParseOctal(0, OctalField(v, n) + rest) == v
  {
    OctalTextWidth(v, n - 1);
    var text := OctalText(v, n - 1);
    assert OctalField(v, n) + rest == text + ([0] + rest);
    ParseAppend(0, text, [0] + rest);
    ParseOfText(v, n - 1);
  }

  // ---------- header ----------

  function Cut(name: Bytes, cap: nat): (s: Bytes)
    ensures s <= name && |s| == if cap == 0 then 0 else if |name| < cap then |name| else cap - 1
  {
    if cap == 0 then [] else if |name| < cap then name else name[..cap-1]
  }

  function NameField(name: Bytes): (s: Bytes)
    ensures |s| == 100
  {
    Cut(name, 100) + Zeros(100 - |Cut(name, 100)|)
  }

  /** Everything before the checksum. */
  function Front(name: Bytes, size: nat, dir: bool, mtime: nat): (s: Bytes)
    ensures |s| == 148
  {
    NameField(name) + OctalField(if dir then 0x1ED else 0x1A4, 8) + OctalField(0, 8) + OctalField(0, 8)
    + OctalField(if dir then 0 else size, 12) + OctalField(mtime, 12)
  }

  /** Everything after the checksum: type, "ustar" and version "00". */
  function Back(dir: bool): (s: Bytes)
    ensures |s| == 356
  {
    [if dir then TYPE_DIR else TYPE_FILE] + Zeros(100) + [0x75, 0x73, 0x74, 0x61, 0x72, 0] + [0x30, 0x30] + Zeros(247)
  }

  /** The sum of all bytes with the checksum itself counted as eight blanks. */
  function CheckSum(front: Bytes, back: Bytes): nat { Sum(front) + 8 * SPACE + Sum(back) }

  function SumField(sum: nat): (s: Bytes)
    ensures |s| == 8
  {
    OctalText(sum, 6)[..6] + [0, SPACE]
  }

  function Header(name: Bytes, size: nat, dir: bool, mtime: nat): (h: Bytes)
    ensures |h| == BLOCK
  {
    var front, back := Front(name, size, dir, mtime), Back(dir);
    front + SumField(CheckSum(front, back)) + back
  }

  // ---------- reading a header ----------

  function Stored(h: Bytes): nat
    requires |h| == BLOCK
  {
    ParseOctal(0, h[148..156])
  }

  function Computed(h: Bytes): nat
    requires |h| == BLOCK
  {
    CheckSum(h[..148], h[156..])
  }

  function SizeOf(h: Bytes): nat
    requires |h| == BLOCK
  {
    ParseOctal(0, h[124..136])
  }

  predicate IsDir(h: Bytes)
    requires |h| == BLOCK
  {
    h[156] == TYPE_DIR
  }

  /** The name; one slash at the end of a directory's name is dropped. */
  function NameOf(h: Bytes): Bytes
    requires |h| == BLOCK
  {
    var name := TextOf(h[..100]);
    if IsDir(h) && name != [] && name[|name|-1] == SLASH then name[..|name|-1] else name
  }

  /** Whole blocks for `size` bytes, counted off one by one. */
  function Padded(size: nat): (n: nat)
    ensures size <= n
  {
    if size == 0 then 0 else if size <= BLOCK then BLOCK else BLOCK + Padded(size - BLOCK)
  }

  lemma {:induction false} PaddedIsRounded(size: nat)
    ensures Padded(size) == (size + 511) / 512 * 512
  {
    if size > BLOCK { PaddedIsRounded(size - BLOCK); }
  }

  lemma HeaderParts(name: Bytes, size: nat, dir: bool, mtime: nat)
    ensures var h := Header(name, size, dir, mtime);
      && h[..148] == Front(name, size, dir, mtime) && h[156..] == Back(dir)
      && h[148..156] == SumField(CheckSum(h[..148], h[156..]))
      && h[..100] == NameField(name) && h[124..136] == OctalField(if dir then 0 else size, 12)
      && h[156] == if dir then TYPE_DIR else TYPE_FILE
  {
    var h := Header(name, size, dir, mtime);
    var front := Front(name, size, dir, mtime);
    assert h[..148] == front && h[156..] == Back(dir);
    assert h[..100] == front[..100] && h[124..136] == front[124..136];
  }

  /** The checksum always fits its six digits and is accepted. */
  lemma CheckSumAccepted(h: Bytes)
    requires |h| == BLOCK && h[148..156] == SumField(CheckSum(h[..148], h[156..]))
    ensures Computed(h) < Pow8(6) && Stored(h) == Computed(h)
  {
    SumBound(h[..148]);
    SumBound(h[156..]);
    var sum := Computed(h);
    assert Pow8(6) == 262144;
    OctalTextWidth(sum, 6);
    assert SumField(sum) == OctalText(sum, 6) + ([0] + [SPACE]);
    ParseAppend(0, OctalText(sum, 6), [0] + [SPACE]);
    ParseOfText(sum, 6);
  }

  /** What the reader finds in a written header. */
  lemma HeaderReads(name: Bytes, size: nat, dir: bool, mtime: nat)
    requires 0 < |name| <= 99 && NoZero(name) && size < WORD
    ensures var h := Header(name, size, dir, mtime);
      && h != Zeros(BLOCK)
      && Stored(h) == Computed(h)
      && SizeOf(h) == (if dir then 0 else size)
      && IsDir(h) == dir && h[156] == (if dir then TYPE_DIR else TYPE_FILE)
      && TextOf(h[..100]) == name
  {
    var h := Header(name, size, dir, mtime);
    HeaderParts(name, size, dir, mtime);
    CheckSumAccepted(h);
    assert Pow8(11) == 8589934592;
    ParseOfField(if dir then 0 else size, 12, []);
    assert OctalField(if dir then 0 else size, 12) + [] == h[124..136];
    TextOfPadded(name, 100 - |name|);
    assert h[156] != Zeros(BLOCK)[156];
  }

  lemma FrontParts(name: Bytes, size: nat, dir: bool, mtime: nat)
    ensures var f := Front(name, size, dir, mtime);
      && f[100..108] == OctalField(if dir then 0x1ED else 0x1A4, 8)
      && f[108..116] == OctalField(0, 8) && f[116..124] == OctalField(0, 8)
      && f[136..148] == OctalField(mtime, 12)
  {
  }

  lemma BackParts(dir: bool)
    ensures var b := Back(dir);
      && b[1..101] == Zeros(100) && b[101..107] == [0x75, 0x73, 0x74, 0x61, 0x72, 0] && b[107..109] == [0x30, 0x30]
      && b[109..] == Zeros(247)
  {
  }

  /** A mode in octal, as text. */
  lemma ModeText()
    ensures OctalField(0x1ED, 8) == [0x30, 0x30, 0x30, 0x30, 0x37, 0x35, 0x35, 0]
    ensures OctalField(0x1A4, 8) == [0x30, 0x30, 0x30, 0x30, 0x36, 0x34, 0x34, 0]
    ensures OctalField(0, 8) == [0x30, 0x30, 0x30, 0x30, 0x30, 0x30, 0x30, 0]
  {
    ThreeDigits(7, 5, 5);
    ThreeDigits(6, 4, 4);
    ZerosText(7);
    var zeros: Bytes := seq(4, _ => 0x30);
    assert zeros == [0x30, 0x30, 0x30, 0x30];
    var seven: Bytes := seq(7, _ => 0x30);
    assert seven == [0x30, 0x30, 0x30, 0x30, 0x30, 0x30, 0x30];
  }

  lemma OctalDigit(v: nat, digit: nat, w: nat)
    requires digit < 8 && w > 1
    ensures OctalText(v * 8 + digit, w) == OctalText(v, w - 1) + [0x30 + digit]
  {
  }

  lemma ThreeDigits(a: nat, b: nat, c: nat)
    requires a < 8 && b < 8 && c < 8
    ensures OctalText(a * 64 + b * 8 + c, 7) == seq(4, _ => 0x30) + [0x30 + a] + [0x30 + b] + [0x30 + c]
  {
    OctalDigit(a * 8 + b, c, 7);
    OctalDigit(a, b, 6);
    OctalDigit(0, a, 5);
    ZerosText(4);
  }

  lemma {:induction false} ZerosText(w: nat)
    requires w > 0
    ensures OctalText(0, w) == seq(w, _ => 0x30)
  {
    if w > 1 {
      ZerosText(w - 1);
      assert OctalText(0, w) == OctalText(0, w - 1) + [0x30];
    }
  }

  /** The other fields of a written header, at their places in the interchange format: mode 0755 for directories and
      0644 for files, owner and group 0, the time, no link name, and the magic with its version. */
  lemma HeaderFields(name: Bytes, size: nat, dir: bool, mtime: nat)
    requires mtime < WORD
    ensures var h := Header(name, size, dir, mtime);
      && h[100..108] == (if dir then [0x30, 0x30, 0x30, 0x30, 0x37, 0x35, 0x35, 0]
                         else [0x30, 0x30, 0x30, 0x30, 0x36, 0x34, 0x34, 0])
      && ParseOctal(0, h[108..116]) == 0 && ParseOctal(0, h[116..124]) == 0
      && ParseOctal(0, h[136..148]) == mtime
      && h[157..257] == Zeros(100) && h[257..263] == [0x75, 0x73, 0x74, 0x61, 0x72, 0] && h[263..265] == [0x30, 0x30]
      && h[265..] == Zeros(247)
  {
    var h, f, b := Header(name, size, dir, mtime), Front(name, size, dir, mtime), Back(dir);
    HeaderParts(name, size, dir, mtime);
    FrontParts(name, size, dir, mtime);
    BackParts(dir);
    ModeText();
    Slices(h, f, b);
    assert Pow8(7) == 2097152 && Pow8(11) == 8589934592;
    ParseOfField(0, 8, []);
    ParseOfField(mtime, 12, []);
    assert OctalField(0, 8) + [] == OctalField(0, 8) && OctalField(mtime, 12) + [] == OctalField(mtime, 12);
  }

  lemma Slices(h: Bytes, f: Bytes, b: Bytes)
    requires |h| == BLOCK && h[..148] == f && h[156..] == b
    ensures h[100..108] == f[100..108] && h[108..116] == f[108..116] && h[116..124] == f[116..124]
    ensures h[136..148] == f[136..148]
    ensures h[157..257] == b[1..101] && h[257..263] == b[101..107] && h[263..265] == b[107..109] && h[265..] == b[109..]
  {
  }

  /** The checksum field: six octal digits, NUL and a blank; they say the sum of all bytes of the header when eight
      blanks stand in place of the field. */
  lemma HeaderSum(name: Bytes, size: nat, dir: bool, mtime: nat)
    ensures var h := Header(name, size, dir, mtime);
      && (forall i | 148 <= i < 154 :: 0x30 <= h[i] <= 0x37) && h[154] == 0 && h[155] == 0x20
      && ParseOctal(0, h[148..154]) == Sum(h[..148] + seq(8, _ => 0x20) + h[156..])
  {
    var h := Header(name, size, dir, mtime);
    HeaderParts(name, size, dir, mtime);
    var field := SumField(CheckSum(h[..148], h[156..]));
    assert forall i | 148 <= i < 156 :: h[i] == field[i - 148];
    SumBound(h[..148]);
    SumBound(h[156..]);
    var sum := Computed(h);
    assert Pow8(6) == 262144;
    OctalTextWidth(sum, 6);
    ParseOfText(sum, 6);
    assert h[148..154] == OctalText(sum, 6);
    var blanks: Bytes := seq(8, _ => 0x20);
    SumConcat(h[..148] + blanks, h[156..]);
    SumConcat(h[..148], blanks);
    SumOfSame(0x20, 8);
  }

  lemma {:induction false} SumOfSame(b: byte, n: nat)
    ensures Sum(seq(n, _ => b)) == n * b
  {
    if n > 0 {
      SumOfSame(b, n - 1);
      assert seq(n, _ => b)[..n-1] == seq(n - 1, _ => b);
    }
  }
}
