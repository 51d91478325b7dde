/** One-time codes as written: the base32 loop with its 32-bit accumulator, counter bytes and truncation. */
module Totp {
  import opened CScan
  import opened CText
  import opened Base32
  import opened Division
  import opened Options

  const WORD: nat := 0x1_0000_0000

  lemma ShiftIn(buffer: nat, val: nat, pend: Bits)
    requires |pend| <= 7 && val < 32 && buffer % Pow2(|pend|) == Value(pend)
    ensures (buffer * 32 + val) % WORD % Pow2(|pend| + 5) == Value(pend + BitsOf(val, 5))
  {
    var p := Pow2(|pend|);
    assert Pow2(5) == 32;
    ValueConcat(pend, BitsOf(val, 5));
    ValueOfBits(val, 5);
    PowAdd(|pend|, 5);
    WordSplit(|pend| + 5);
    ModOfMod(buffer * 32 + val, p * 32, Pow2(27 - |pend|));
    ModShift(buffer, p, val);
  }

  lemma WordSplit(n: nat)
    requires n <= 32
    ensures Pow2(n) * Pow2(32 - n) == WORD
  {
    WordIsPow();
    PowAdd(n, 32 - n);
  }

  lemma WordIsPow()
    ensures Pow2(32) == WORD
  {
    assert Pow2(8) == 256;
    PowAdd(8, 8);
    PowAdd(16, 16);
  }

  lemma {:induction false} PowAdd(a: nat, b: nat)
    ensures Pow2(a + b) == Pow2(a) * Pow2(b)
  {
    if b > 0 {
      PowAdd(a, b - 1);
      MulTwo(Pow2(a), Pow2(b - 1));
    }
  }

  lemma ModShift(x: nat, p: nat, v: nat)
    requires p > 0 && v < 32
    ensures (x * 32 + v) % (p * 32) == (x % p) * 32 + v
  {
    var q, r := x / p, x % p;
    MulAssoc(p, 32, q);
    MulAssoc(p, q, 32);
    DivMod(x * 32 + v, p * 32, q, r * 32 + v);
  }

  lemma TakeByte(buffer: nat, pend: Bits)
    requires 8 <= |pend| <= 12 && buffer % Pow2(|pend|) == Value(pend)
    ensures buffer / Pow2(|pend| - 8) % 256 == Value(pend[..8])
    ensures buffer % Pow2(|pend| - 8) == Value(pend[8..])
  {
    var hi, lo := pend[..8], pend[8..];
    assert pend == hi + lo && Pow2(8) == 256;
    ValueConcat(hi, lo);
    ValueBound(hi);
    ValueBound(lo);
    PowAdd(|lo|, 8);
    SplitWord(buffer, Pow2(|lo|), Value(hi), Value(lo));
  }

  lemma SplitWord(buffer: nat, p: nat, hi: nat, lo: nat)
    requires lo < p && hi < 256 && buffer % (p * 256) == hi * p + lo
    ensures buffer / p % 256 == hi && buffer % p == lo
  {
    var q := buffer / (p * 256);
    MulAssoc(p, 256, q);
    MulDist(p, 256 * q, hi);
    DivMod(buffer, p, 256 * q + hi, lo);
    DivMod(256 * q + hi, 256, q, hi);
  }

  // ---------- decoding ----------

  lemma {:induction false} ByteBitsSnoc(x: seq<byte>, v: byte)
    ensures ByteBits(x + [v]) == ByteBits(x) + BitsOf(v, 8)
  {
    if x == [] {
      assert ([] + [v])[1..] == [];
      assert BitsOf(v, 8) + [] == BitsOf(v, 8);
    } else {
      ByteBitsSnoc(x[1..], v);
      assert (x + [v])[1..] == x[1..] + [v];
    }
  }

  /** Eight pending bits become a byte. */
  lemma MoveByte(x: seq<byte>, pend: Bits, rest: Bits)
    requires |pend| >= 8
    ensures Value(pend[..8]) < 256
    ensures ByteBits(x) + pend + rest == ByteBits(x + [Value(pend[..8]) as byte]) + pend[8..] + rest
  {
    assert Pow2(8) == 256;
    ValueBound(pend[..8]);
    BitsOfValue(pend[..8]);
    ByteBitsSnoc(x, Value(pend[..8]) as byte);
    Regroup(ByteBits(x), pend[..8], pend[8..], rest);
    assert pend == pend[..8] + pend[8..];
  }

  lemma Regroup(a: Bits, b: Bits, c: Bits, d: Bits)
    ensures a + (b + c) + d == a + b + c + d
  {
  }

  /** What has been written so far, and what is still pending, stand for everything read so far. */
  lemma Finished(all: Bits, x: seq<byte>, pend: Bits, rest: Bits, room: nat)
    requires all == ByteBits(x) + pend + rest
    requires (rest == [] && |pend| < 8 && |x| <= room) || |x| == room
    ensures x == if |Octets(all)| <= room then Octets(all) else Octets(all)[..room]
  {
    assert all == ByteBits(x) + (pend + rest);
    OctetsBack(x, pend + rest);
  }

  method Base32Decode(text: string, out: array<byte>) returns (count: nat)
    modifies out
    ensures count <= out.Length && out[..count] == Decoded(text, out.Length)
  {
    var buffer: nat, bitsLeft: nat := 0, 0;
    count := 0;
    ghost var got: seq<byte>, pend: Bits, rest := [], [], text;
    ghost var all := LetterBits(Clean(text));
    for i := 0 to |text|
      invariant rest == text[i..] && |pend| == bitsLeft < 8
      invariant count <= out.Length && out[..count] == got
      invariant buffer % Pow2(bitsLeft) == Value(pend)
      invariant all == ByteBits(got) + pend + LetterBits(Clean(rest))
    {
      var c := text[i];
      LetterStep(ByteBits(got), pend, rest);
      rest := rest[1..];
      if c == '=' || c == ' ' || c == '-' { continue; }
      var val := SymbolValue(Upper(c));
      if val == 32 { continue; }
      ShiftIn(buffer, val, pend);
      buffer := (buffer * 32 + val) % WORD;
      bitsLeft, pend := bitsLeft + 5, pend + BitsOf(val, 5);
      if bitsLeft >= 8 {
        if count >= out.Length {
          Finished(all, got, pend, LetterBits(Clean(rest)), out.Length);
          return;
        }
        got := PutByte(out, count, buffer, bitsLeft, got, pend, LetterBits(Clean(rest)), all);
        count := count + 1;
        bitsLeft, pend := bitsLeft - 8, pend[8..];
      }
    }
    Finished(all, got, pend, [], out.Length);
  }

  /** The eight oldest pending bits become the next byte. */
  method PutByte(out: array<byte>, count: nat, buffer: nat, bitsLeft: nat, ghost got: seq<byte>, ghost pend: Bits,
                 ghost rest: Bits, ghost all: Bits) returns (ghost more: seq<byte>)
    requires count < out.Length && out[..count] == got && 8 <= bitsLeft == |pend| <= 12
    requires buffer % Pow2(bitsLeft) == Value(pend) && all == ByteBits(got) + pend + rest
    modifies out
    ensures out[..count + 1] == more && all == ByteBits(more) + pend[8..] + rest
    ensures buffer % Pow2(bitsLeft - 8) == Value(pend[8..])
  {
    MoveByte(got, pend, rest);
    TakeByte(buffer, pend);
    out[count] := (buffer / Pow2(bitsLeft - 8) % 256) as byte;
    more := got + [Value(pend[..8]) as byte];
  }

  lemma LetterStep(done: Bits, pend: Bits, rest: string)
    requires rest != ""
    ensures var v := SymbolValue(Upper(rest[0]));
      done + pend + LetterBits(Clean(rest)) ==
      (if v < 32 then done + (pend + BitsOf(v, 5)) else done + pend) + LetterBits(Clean(rest[1..]))
  {
    var v, more := SymbolValue(Upper(rest[0])), Clean(rest[1..]);
    if v < 32 {
      LetterBitsCons(Upper(rest[0]), more);
      FourParts(done, pend, BitsOf(v, 5), LetterBits(more));
    }
  }

  lemma LetterBitsCons(c: char, more: string)
    ensures LetterBits([c] + more) == BitsOf(SymbolValue(c), 5) + LetterBits(more)
  {
    assert ([c] + more)[1..] == more;
  }

  lemma FourParts(a: Bits, b: Bits, c: Bits, d: Bits)
    ensures a + b + (c + d) == a + (b + c) + d
  {
  }

  // ---------- as numbers ----------

  /** The number letters write in base 32. */
  function Number32(letters: string): nat {
    if letters == "" then 0 else Number32(letters[..|letters|-1]) * 32 + SymbolValue(letters[|letters|-1])
  }

  /** The number bytes write in base 256. */
  function Number256(x: seq<byte>): nat {
    if x == [] then 0 else Number256(x[..|x|-1]) * 256 + x[|x|-1] as nat
  }

  lemma {:induction false} LetterBitsSnoc(letters: string, c: char)
    ensures LetterBits(letters + [c]) == LetterBits(letters) + BitsOf(SymbolValue(c), 5)
  {
    if letters == "" {
      LetterBitsCons(c, "");
      assert "" + [c] == [c] + "";
    } else {
      LetterBitsSnoc(letters[1..], c);
      assert (letters + [c])[1..] == letters[1..] + [c];
    }
  }

  lemma {:induction false} LetterBitsNumber(letters: string)
    requires forall i | 0 <= i < |letters| :: SymbolValue(letters[i]) < 32
    ensures |LetterBits(letters)| == 5 * |letters| && Value(LetterBits(letters)) == Number32(letters)
  {
    if letters != "" {
      var init, c := letters[..|letters|-1], letters[|letters|-1];
      assert letters == init + [c];
      LetterBitsNumber(init);
      LetterBitsSnoc(init, c);
      ValueConcat(LetterBits(init), BitsOf(SymbolValue(c), 5));
      assert Pow2(5) == 32;
      ValueOfBits(SymbolValue(c), 5);
    }
  }

  lemma {:induction false} ByteBitsNumber(x: seq<byte>)
    ensures |ByteBits(x)| == 8 * |x| && Value(ByteBits(x)) == Number256(x)
  {
    if x != [] {
      var init, v := x[..|x|-1], x[|x|-1];
      assert x == init + [v];
      ByteBitsNumber(init);
      ByteBitsSnoc(init, v);
      ValueConcat(ByteBits(init), BitsOf(v, 8));
      assert Pow2(8) == 256;
      ValueOfBits(v, 8);
    }
  }

  lemma {:induction false} OctetsBits(b: Bits)
    ensures |b| == 8 * |Octets(b)| + |b| % 8 && ByteBits(Octets(b)) == b[..8 * |Octets(b)|]
    decreases |b|
  {
    if |b| >= 8 {
      var v, rest := Value(b[..8]), b[8..];
      OctetsBits(rest);
      BitsOfValue(b[..8]);
      assert Octets(b)[1..] == Octets(rest);
      assert b[..8] + rest[..8 * |Octets(rest)|] == b[..8 * |Octets(b)|];
    }
  }

  lemma {:induction false} CleanLetters(text: string)
    ensures forall i | 0 <= i < |Clean(text)| :: SymbolValue(Clean(text)[i]) < 32
  {
    if text != "" { CleanLetters(text[1..]); }
  }

  /** What is decoded is the number the letters write in base 32, as bytes: as many as there are whole ones, the last
      bits dropped. */
  lemma {:induction false} DecodedIsNumber(text: string, room: nat)
    requires 5 * |Clean(text)| / 8 <= room
    ensures var n, x := 5 * |Clean(text)|, Decoded(text, room);
      |x| == n / 8 && Number256(x) == Number32(Clean(text)) / Pow2(n % 8)
  {
    var letters := Clean(text);
    CleanLetters(text);
    LetterBitsNumber(letters);
    var b := LetterBits(letters);
    OctetsBits(b);
    ByteBitsNumber(Octets(b));
    var k := 8 * |Octets(b)|;
    assert b == b[..k] + b[k..];
    ValueConcat(b[..k], b[k..]);
    ValueBound(b[k..]);
    DivMod(Value(b), Pow2(|b| % 8), Value(b[..k]), Value(b[k..]));
  }

  /** With less room the last bytes are missing. */
  lemma {:induction false} DecodedIsCut(text: string, room: nat, more: nat)
    requires |Decoded(text, more)| >= room
    ensures Decoded(text, room) == Decoded(text, more)[..room]
  {
  }

  lemma {:induction false} ZerosValue(n: nat)
    ensures Value(Zeros(n)) == 0
  {
    if n > 0 {
      ZerosValue(n - 1);
      assert Zeros(n)[..n-1] == Zeros(n - 1);
    }
  }

  /** An encoding is the number the bytes are, with less than five zero bits behind it. */
  lemma {:induction false} EncodeIsNumber(x: seq<byte>) returns (fill: nat)
    ensures fill < 5 && 5 * |Encode(x)| == 8 * |x| + fill && Number32(Encode(x)) == Number256(x) * Pow2(fill)
  {
    fill := LettersBack(ByteBits(x));
    CleanOfLetters(ByteBits(x));
    CleanLetters(Encode(x));
    LetterBitsNumber(Encode(x));
    ByteBitsNumber(x);
    ValueConcat(ByteBits(x), Zeros(fill));
    ZerosValue(fill);
  }

  // ---------- codes (RFC 6238, and section 5.3 of RFC 4226) ----------

  function ToBigEndian(v: nat, n: nat): (b: seq<byte>)
    ensures |b| == n
  {
    if n == 0 then [] else ToBigEndian(v / 256, n - 1) + [(v % 256) as byte]
  }

  lemma {:induction false} BigEndianBack(v: nat, n: nat)
    requires v < Pow2(8 * n)
    ensures Number256(ToBigEndian(v, n)) == v
  {
    if n > 0 {
      PowAdd(8 * (n - 1), 8);
      assert Pow2(8) == 256;
      assert v < Pow2(8 * (n - 1)) * 256;
      BigEndianBack(v / 256, n - 1);
      assert ToBigEndian(v, n)[..n-1] == ToBigEndian(v / 256, n - 1);
    }
  }

  /** The message that is signed: the number of 30-second periods, as eight bytes. */
  method CounterBytes(periods: nat) returns (a: array<byte>)
    ensures fresh(a) && a.Length == 8 && a[..] == ToBigEndian(periods, 8)
  {
    a := new byte[8](_ => 0);
    var counter := periods;
    ghost var done: seq<byte> := [];
    var i := 7;
    while i >= 0
      invariant -1 <= i <= 7 && a[i + 1..] == done && ToBigEndian(periods, 8) == ToBigEndian(counter, i + 1) + done
    {
      ghost var low := (counter % 256) as byte;
      a[i] := (counter % 256) as byte;
      counter := counter / 256;
      assert a[i..] == [low] + done;
      done := [low] + done;
      i := i - 1;
    }
    assert a[0..] == a[..];
  }

  /** What a 20-byte digest is cut down to. */
  function Truncated(digest: seq<byte>): (code: nat)
    requires |digest| == 20
    ensures code < 1_000_000
  {
    var o := digest[19] % 16;
    Number256(digest[o..o + 4]) % 0x8000_0000 % 1_000_000
  }

  method Truncate(digest: seq<byte>) returns (code: nat)
    requires |digest| == 20
    ensures code == Truncated(digest)
  {
    var offset := digest[19] % 16;
    var a: nat, b: nat := digest[offset] as int, digest[offset + 1] as int;
    var c: nat, d: nat := digest[offset + 2] as int, digest[offset + 3] as int;
    var binary := a % 128 * 0x100_0000 + b * 0x1_0000 + c * 0x100 + d;
    code := binary % 1_000_000;
    Number256Four(digest[offset..offset + 4]);
    DropTopBit(a, b * 0x1_0000 + c * 0x100 + d);
  }

  /** The four bytes at the place the last half byte gives, without their first bit. */
  lemma {:induction false} TruncatedMeans(digest: seq<byte>)
    requires |digest| == 20
    ensures var o := digest[19] as nat - digest[19] as nat / 16 * 16;
      var top := if digest[o] < 128 then digest[o] as nat else digest[o] as nat - 128;
      var number := ((top * 256 + digest[o + 1] as nat) * 256 + digest[o + 2] as nat) * 256 + digest[o + 3] as nat;
      Truncated(digest) == number % 1_000_000
  {
    var o := digest[19] as nat % 16;
    Number256Four(digest[o..o + 4]);
    DropTopBit(digest[o] as nat,
               digest[o + 1] as nat * 0x1_0000 + digest[o + 2] as nat * 0x100 + digest[o + 3] as nat);
  }

  /** The example of section 5.4 of RFC 4226: of this digest only these five bytes are looked at. */
  lemma {:induction false} TruncatedExample(digest: seq<byte>)
    requires |digest| == 20 && digest[19] == 0x5a
    requires digest[10] == 0x50 && digest[11] == 0xef && digest[12] == 0x7f && digest[13] == 0x19
    ensures Truncated(digest) == 872921
  {
    TruncatedMeans(digest);
  }

  lemma DropTopBit(a: nat, rest: nat)
    requires a < 256 && rest < 0x100_0000
    ensures (a * 0x100_0000 + rest) % 0x8000_0000 == a % 128 * 0x100_0000 + rest
  {
    assert a == a / 128 * 128 + a % 128;
    DivMod(a * 0x100_0000 + rest, 0x8000_0000, a / 128, a % 128 * 0x100_0000 + rest);
  }

  lemma Number256Four(b: seq<byte>)
    requires |b| == 4
    ensures Number256(b) == b[0] as int * 0x100_0000 + b[1] as int * 0x1_0000 + b[2] as int * 0x100 + b[3] as int
  {
    var three, two, one := b[..3], b[..2], b[..1];
    assert b[..3][..2] == two && two[..1] == one && one[..0] == [];
    assert Number256(one) == b[0];
    assert Number256(two) == Number256(one) * 256 + b[1];
    assert Number256(three) == Number256(two) * 256 + b[2];
  }

  /** A number printed with six digits, zeros in front. */
  function SixDigits(v: nat): (s: string)
    requires v < 1_000_000
    ensures |s| == 6 && forall i | 0 <= i < 6 :: '0' <= s[i] <= '9'
  {
    [Digit(v / 100_000), Digit(v / 10_000 % 10), Digit(v / 1_000 % 10), Digit(v / 100 % 10), Digit(v / 10 % 10),
     Digit(v % 10)]
  }

  function DigitValue(c: char): int { c as int - '0' as int }

  lemma DigitBack(d: nat)
    requires d < 10
    ensures DigitValue(Digit(d)) == d
  {
  }

  lemma TenParts(v: nat)
    ensures v / 10 * 10 + v % 10 == v && v / 100 * 10 + v / 10 % 10 == v / 10
    ensures v / 1_000 * 10 + v / 100 % 10 == v / 100 && v / 10_000 * 10 + v / 1_000 % 10 == v / 1_000
    ensures v / 100_000 * 10 + v / 10_000 % 10 == v / 10_000
  {
  }

  /** Read as a decimal number the digits are the code. */
  lemma {:induction false} SixDigitsRead(v: nat)
    requires v < 1_000_000
    ensures var s := SixDigits(v);
      DigitValue(s[0]) * 100_000 + DigitValue(s[1]) * 10_000 + DigitValue(s[2]) * 1_000 + DigitValue(s[3]) * 100 +
      DigitValue(s[4]) * 10 + DigitValue(s[5]) == v
  {
    TenParts(v);
    DigitBack(v / 100_000);
    DigitBack(v / 10_000 % 10);
    DigitBack(v / 1_000 % 10);
    DigitBack(v / 100 % 10);
    DigitBack(v / 10 % 10);
    DigitBack(v % 10);
  }

  /** The code of a secret at a time, for any keyed hash of 20 bytes, which may also fail; nothing for a secret
      with no letters in it. */
  method GenerateCode(text: string, now: int, outSize: nat, hmac: (seq<byte>, seq<byte>) -> Option<seq<byte>>)
      returns (ok: bool, code: string)
    requires forall k, m :: hmac(k, m).Some? ==> |hmac(k, m).value| == 20
    ensures var digest := hmac(Decoded(text, 64), ToBigEndian(now % 0x1_0000_0000_0000_0000 / 30, 8));
      && (ok <==> Decoded(text, 64) != [] && digest.Some?)
      && (ok ==> code == Clip(SixDigits(Truncated(digest.value)), outSize))
  {
    code := "";
    var secret := new byte[64](_ => 0);
    var n := Base32Decode(text, secret);
    ok := n > 0;
    if !ok { return; }
    var message := CounterBytes(now % 0x1_0000_0000_0000_0000 / 30);
    var digest := hmac(secret[..n], message[..]);
    if digest.None? { return false, code; }
    var v := Truncate(digest.value);
    code := Clip(SixDigits(v), outSize);
  }
}
