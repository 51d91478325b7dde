/** One-time-code secrets: base32 text read through an accumulator that wraps at 32 bits. */
module Base32 {
  import opened CScan
  import opened CText

  // ---------- bits ----------

  type Bits = seq<bool>

  function Pow2(n: nat): (p: nat)
    ensures p > 0
  {
    if n == 0 then 1 else 2 * Pow2(n - 1)
  }

  /** Most significant bit first. */
  function Value(b: Bits): nat {
    if b == [] then 0 else 2 * Value(b[..|b|-1]) + if b[|b|-1] then 1 else 0
  }

  function BitsOf(v: nat, n: nat): (b: Bits)
    ensures |b| == n
  {
    if n == 0 then [] else BitsOf(v / 2, n - 1) + [v % 2 == 1]
  }

  function Zeros(n: nat): (b: Bits)
    ensures |b| == n
  {
    seq(n, _ => false)
  }

  lemma {:induction false} ValueBound(b: Bits)
    ensures Value(b) < Pow2(|b|)
  {
    if b != [] { ValueBound(b[..|b|-1]); }
  }

  lemma {:induction false} ValueOfBits(v: nat, n: nat)
    requires v < Pow2(n)
    ensures Value(BitsOf(v, n)) == v
  {
    if n > 0 {
      ValueOfBits(v / 2, n - 1);
      var b := BitsOf(v, n);
      assert b[..n-1] == BitsOf(v / 2, n - 1);
    }
  }

  lemma {:induction false} BitsOfValue(b: Bits)
    ensures BitsOf(Value(b), |b|) == b
  {
    if b != [] {
      BitsOfValue(b[..|b|-1]);
      assert Value(b) / 2 == Value(b[..|b|-1]);
    }
  }

  lemma {:induction false} ValueConcat(a: Bits, b: Bits)
    ensures Value(a + b) == Value(a) * Pow2(|b|) + Value(b)
  {
    if b == [] {
      assert a + b == a;
    } else {
      var init, last := b[..|b|-1], b[|b|-1];
      ValueConcat(a, init);
      ValueSnoc(a + init, last);
      ValueSnoc(init, last);
      assert b == init + [last] && a + b == (a + init) + [last];
      MulTwo(Value(a), Pow2(|init|));
    }
  }

  lemma ValueSnoc(b: Bits, x: bool)
    ensures Value(b + [x]) == 2 * Value(b) + if x then 1 else 0
  {
    assert (b + [x])[..|b|] == b;
  }

  lemma MulTwo(x: nat, p: nat)
    ensures x * (2 * p) == 2 * (x * p)
  {
  }

  // ---------- symbols ----------

  const ALPHABET: string := "ABCDEFGHIJKLMNOPQRSTUVWXYZ234567"

  /** The value of a letter of the alphabet; 32 for any other character. */
  function SymbolValue(c: char): nat {
    if 'A' <= c <= 'Z' then (c - 'A') as nat
    else if '2' <= c <= '7' then 26 + (c - '2') as nat
    else 32
  }

  lemma SymbolValueIs(i: nat)
    requires i < 32
    ensures SymbolValue(ALPHABET[i]) == i && Upper(ALPHABET[i]) == ALPHABET[i]
  {
  }

  /** The value is the letter's place in the alphabet. */
  lemma SymbolValueFinds(c: char)
    ensures if SymbolValue(c) < 32 then ALPHABET[SymbolValue(c)] == c else c !in ALPHABET
  {
    if c in ALPHABET {
      var i :| 0 <= i < 32 && ALPHABET[i] == c;
      SymbolValueIs(i);
    } else if SymbolValue(c) < 32 {
      assert ALPHABET[SymbolValue(c)] == c;
    }
  }

  /** The letters a text stands for: blanks, dashes, padding and foreign characters dropped, upper case. */
  function Clean(text: string): string {
    if text == "" then ""
    else if SymbolValue(Upper(text[0])) < 32 then [Upper(text[0])] + Clean(text[1..])
    else Clean(text[1..])
  }

  /** The bits of a cleaned text, five for each letter. */
  function LetterBits(letters: string): Bits {
    if letters == "" then [] else BitsOf(SymbolValue(letters[0]), 5) + LetterBits(letters[1..])
  }

  function ByteBits(bytes: seq<byte>): Bits {
    if bytes == [] then [] else BitsOf(bytes[0], 8) + ByteBits(bytes[1..])
  }

  /** Reads as many whole bytes as there are. */
  function Octets(b: Bits): seq<byte> {
    if |b| < 8 then [] else (ValueBound(b[..8]); [Value(b[..8]) as byte] + Octets(b[8..]))
  }

  /** What a text decodes to, cut to the room there is. */
  function Decoded(text: string, room: nat): seq<byte> {
    var all := Octets(LetterBits(Clean(text)));
    if |all| <= room then all else all[..room]
  }

  // ---------- encoding (section 6 of RFC 4648) ----------

  function Letter(b: Bits): char
    requires |b| == 5
  {
    ValueBound(b);
    assert Pow2(5) == 32;
    ALPHABET[Value(b)]
  }

  /** Five bits a letter; the last group is filled with zero bits. */
  function Letters(b: Bits): string
    decreases |b|
  {
    if b == [] then ""
    else if |b| < 5 then [Letter(b + Zeros(5 - |b|))]
    else [Letter(b[..5])] + Letters(b[5..])
  }

  function Encode(x: seq<byte>): string { Letters(ByteBits(x)) }

  // ---------- round trip ----------

  lemma LetterBack(b: Bits)
    requires |b| == 5
    ensures BitsOf(SymbolValue(Letter(b)), 5) == b && SymbolValue(Letter(b)) < 32 && Upper(Letter(b)) == Letter(b)
  {
    ValueBound(b);
    assert Pow2(5) == 32;
    SymbolValueIs(Value(b));
    BitsOfValue(b);
  }

  lemma {:induction false} LettersBack(b: Bits) returns (fill: nat)
    ensures fill < 5 && LetterBits(Letters(b)) == b + Zeros(fill)
    decreases |b|
  {
    fill := 0;
    if b == [] {
    } else if |b| < 5 {
      fill := 5 - |b|;
      LetterBack(b + Zeros(fill));
      var s := [Letter(b + Zeros(fill))];
      assert s[1..] == "";
      assert LetterBits(s) == b + Zeros(fill) + [];
    } else {
      fill := LettersBack(b[5..]);
      LetterBack(b[..5]);
      assert Letters(b)[1..] == Letters(b[5..]);
      assert b == b[..5] + b[5..];
    }
  }

  lemma {:induction false} OctetsBack(x: seq<byte>, rest: Bits)
    ensures Octets(ByteBits(x) + rest) == x + Octets(rest)
  {
    if x == [] {
      assert ByteBits(x) + rest == rest;
    } else {
      OctetsBack(x[1..], rest);
      OctetsCons(x[0], ByteBits(x[1..]) + rest);
      assert ByteBits(x) + rest == BitsOf(x[0], 8) + (ByteBits(x[1..]) + rest);
      assert x == [x[0]] + x[1..];
    }
  }

  lemma OctetsCons(v: byte, rest: Bits)
    ensures Octets(BitsOf(v, 8) + rest) == [v] + Octets(rest)
  {
    var b := BitsOf(v, 8) + rest;
    assert b[..8] == BitsOf(v, 8) && b[8..] == rest;
    assert Pow2(8) == 256;
    ValueOfBits(v, 8);
  }

  /** Decoding undoes encoding for every secret that fits, whatever the case of its letters and whatever is
      inserted between them that is no letter of the alphabet. */
  lemma DecodeOfEncode(x: seq<byte>, text: string, room: nat)
    requires Clean(text) == Encode(x) && |x| <= room
    ensures Decoded(text, room) == x
  {
    var fill := LettersBack(ByteBits(x));
    OctetsBack(x, Zeros(fill));
    assert Octets(Zeros(fill)) == [];
  }

  /** An encoded text is clean. */
  lemma {:induction false} CleanOfLetters(b: Bits)
    ensures Clean(Letters(b)) == Letters(b)
    decreases |b|
  {
    if b == [] {
    } else if |b| < 5 {
      LetterBack(b + Zeros(5 - |b|));
      assert Letters(b)[1..] == "";
    } else {
      LetterBack(b[..5]);
      CleanOfLetters(b[5..]);
      assert Letters(b)[1..] == Letters(b[5..]);
    }
  }

  /** An encoded text decodes to what was encoded. */
  lemma EncodedComesBack(x: seq<byte>, room: nat)
    requires |x| <= room
    ensures Decoded(Encode(x), room) == x
  {
    CleanOfLetters(ByteBits(x));
    DecodeOfEncode(x, Encode(x), room);
  }

  lemma {:induction false} CleanConcat(a: string, b: string)
    ensures Clean(a + b) == Clean(a) + Clean(b)
  {
    if a == "" {
      assert a + b == b;
    } else {
      CleanConcat(a[1..], b);
      assert (a + b)[1..] == a[1..] + b;
    }
  }

  /** Noise inserted anywhere leaves the meaning alone. */
  lemma NoiseIsIgnored(a: string, noise: string, b: string)
    requires Clean(noise) == ""
    ensures Clean(a + noise + b) == Clean(a + b)
  {
    CleanConcat(a + noise, b);
    CleanConcat(a, noise);
    CleanConcat(a, b);
  }

  /** So does writing a letter small. */
  lemma CaseIsIgnored(a: string, c: char, b: string)
    requires 'A' <= c <= 'Z'
    ensures Clean(a + [c - 'A' + 'a'] + b) == Clean(a + [c] + b)
  {
    CleanOne(c - 'A' + 'a', c);
    CleanConcat(a + [c - 'A' + 'a'], b);
    CleanConcat(a, [c - 'A' + 'a']);
    CleanConcat(a + [c], b);
    CleanConcat(a, [c]);
  }

  lemma CleanOne(c: char, d: char)
    requires Upper(c) == Upper(d)
    ensures Clean([c]) == Clean([d])
  {
    assert [c][1..] == "" && [d][1..] == "";
  }
}
