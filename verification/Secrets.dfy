/** Stored secrets: block padding (section 6.3 of RFC 5652), hex text, and a text encrypted to hex and back, for
    any invertible block cipher. */
module Secrets {
  import opened CScan
  import opened CText
  import opened Options

  type Bytes = seq<byte>

  // ---------- padding ----------

  function PadLen(n: nat): (p: nat)
    ensures 1 <= p <= 16 && (n + p) % 16 == 0
  {
    16 - n % 16
  }

  function Pad(p: Bytes): (r: Bytes)
    ensures |r| == |p| + PadLen(|p|)
  {
    p + seq(PadLen(|p|), _ => PadLen(|p|) as byte)
  }

  /** Drops the padding the last byte asks for; nothing if it cannot be padding. */
  function Unpad(b: Bytes): Option<Bytes>
    requires b != []
  {
    var pad := b[|b|-1] as int;
    if pad == 0 || pad > 16 || pad > |b| then None else Some(b[..|b| - pad])
  }

  lemma UnpadOfPad(p: Bytes)
    ensures Unpad(Pad(p)) == Some(p) && |Pad(p)| % 16 == 0
  {
    var b := Pad(p);
    assert b[|b|-1] as int == PadLen(|p|);
    assert b[..|p|] == p;
  }

  /** One to sixteen bytes, the last of them their number. */
  predicate Padding(tail: Bytes) { 1 <= |tail| <= 16 && tail[|tail|-1] as int == |tail| }

  lemma UnpadOfTail(p: Bytes, tail: Bytes)
    requires Padding(tail)
    ensures Unpad(p + tail) == Some(p)
  {
    var b := p + tail;
    assert b[|b|-1] == tail[|tail|-1];
    assert b[..|p|] == p;
  }

  /** The last byte of the padding says how long it is; the others are not looked at. */
  lemma UnpadIff(b: Bytes, p: Bytes)
    requires b != []
    ensures Unpad(b) == Some(p) <==> exists tail :: Padding(tail) && b == p + tail
  {
    if Unpad(b) == Some(p) {
      var tail := b[|p|..];
      assert b == p + tail && Padding(tail);
    }
    if tail :| Padding(tail) && b == p + tail { UnpadOfTail(p, tail); }
  }

  /** What is added are up to sixteen bytes, each their number. */
  lemma PadMeans(p: Bytes)
    ensures Pad(p)[..|p|] == p && (|Pad(p)| == |p| + 16 <==> |p| % 16 == 0) && |Pad(p)| <= |p| + 16
    ensures forall i | |p| <= i < |Pad(p)| :: Pad(p)[i] as int == |Pad(p)| - |p|
  {
  }

  /** `for (i = len; i < total; i++) buf[i] = pad`, after the text has been copied in. */
  method PadInPlace(buf: array<byte>, len: nat) returns (total: nat)
    requires len + PadLen(len) <= buf.Length
    modifies buf
    ensures total == len + PadLen(len) && buf[..total] == Pad(old(buf[..len]))
  {
    var pad := 16 - len % 16;
    total := len + pad;
    for i := len to total
      invariant buf[..len] == old(buf[..len])
      invariant forall k | len <= k < i :: buf[k] as int == pad
    {
      buf[i] := pad as byte;
    }
  }

  // ---------- hex ----------

  function HexDigit(d: nat): char
    requires d < 16
  {
    if d < 10 then '0' + d as char else 'a' + (d - 10) as char
  }

  function HexValue(c: char): (v: nat)
    ensures v <= 16
  {
    if '0' <= c <= '9' then (c - '0') as nat
    else if 'a' <= c <= 'f' then (c - 'a') as nat + 10
    else if 'A' <= c <= 'F' then (c - 'A') as nat + 10
    else 16
  }

  predicate White(c: char) { c in " \t\n\r" || c == 11 as char || c == 12 as char }

  function OneDigit(c: char): (v: nat)
    ensures v < 16
  {
    if HexValue(c) < 16 then HexValue(c) else 0
  }

  /** `(unsigned char)strtoul(two characters, nullptr, 16)`, whatever they are. */
  function PairValue(a: char, b: char): byte {
    if HexValue(a) < 16 then
      if HexValue(b) < 16 then (HexValue(a) * 16 + HexValue(b)) as byte else HexValue(a) as byte
    else if White(a) || a == '+' then OneDigit(b) as byte
    else if a == '-' then ((256 - OneDigit(b)) % 256) as byte
    else 0
  }

  function ToHex(b: Bytes): (s: string)
    ensures |s| == 2 * |b|
  {
    if b == [] then "" else [HexDigit(b[0] as int / 16), HexDigit(b[0] as int % 16)] + ToHex(b[1..])
  }

  function FromHex(s: string): (b: Bytes)
    requires |s| % 2 == 0
    ensures |b| == |s| / 2
    decreases |s|
  {
    if s == "" then [] else [PairValue(s[0], s[1])] + FromHex(s[2..])
  }

  lemma {:induction false} FromHexOfToHex(b: Bytes)
    ensures FromHex(ToHex(b)) == b
  {
    if b != [] {
      FromHexOfToHex(b[1..]);
      assert ToHex(b)[2..] == ToHex(b[1..]);
      assert PairValue(HexDigit(b[0] as int / 16), HexDigit(b[0] as int % 16)) == b[0];
    }
  }

  const LOWER: string := "0123456789abcdef"
  const UPPER: string := "0123456789ABCDEF"

  /** The character is a hex digit of that value. */
  predicate IsHex(c: char, v: nat) { v < 16 && (c == LOWER[v] || c == UPPER[v]) }

  lemma HexValueIs(c: char, v: nat)
    requires v < 16
    ensures HexValue(c) == v <==> IsHex(c, v)
  {
    if IsHex(c, v) { assert c in LOWER || c in UPPER; }
    if HexValue(c) == v { assert LOWER[v] == HexDigit(v); }
  }

  /** Two characters for a byte, the high half first. */
  lemma {:induction false} ToHexMeans(v: byte, rest: Bytes)
    ensures ToHex([v] + rest) == [LOWER[v as int / 16], LOWER[v as int % 16]] + ToHex(rest)
  {
    assert ([v] + rest)[1..] == rest;
  }

  /** White space and a plus sign are passed over. */
  predicate Passed(c: char) { c in " \t\n\U{0B}\U{0C}\r+" }

  lemma PassedIs(c: char)
    ensures Passed(c) <==> White(c) || c == '+'
    ensures Passed(c) || c == '-' ==> HexValue(c) == 16
  {
  }

  /** What a pair is read as: leading white space and a sign are passed over, and reading stops at the first
      character that is no digit. */
  lemma {:induction false} PairMeans(a: char, b: char, h: nat, l: nat)
    ensures IsHex(a, h) && IsHex(b, l) ==> PairValue(a, b) as int == 16 * h + l
    ensures IsHex(a, h) && HexValue(b) == 16 ==> PairValue(a, b) as int == h
    ensures Passed(a) && IsHex(b, l) ==> PairValue(a, b) as int == l
    ensures a == '-' && IsHex(b, l) ==> PairValue(a, b) as int == if l == 0 then 0 else 256 - l
    ensures HexValue(a) == 16 && ((!Passed(a) && a != '-') || HexValue(b) == 16) ==> PairValue(a, b) == 0
  {
    if h < 16 { HexValueIs(a, h); }
    if l < 16 { HexValueIs(b, l); }
    PassedIs(a);
    PairCases(a, b);
  }

  lemma {:induction false} PairCases(a: char, b: char)
    ensures var x, y := HexValue(a), HexValue(b);
      PairValue(a, b) as int ==
      if x < 16 then if y < 16 then 16 * x + y else x
      else if y == 16 then 0 else if White(a) || a == '+' then y else if a == '-' && y > 0 then 256 - y else 0
  {
  }

  method BytesToHex(data: Bytes) returns (out: string)
    ensures out == ToHex(data)
  {
    out := "";
    ghost var rest := data;
    for i := 0 to |data|
      invariant rest == data[i..] && out + ToHex(rest) == ToHex(data)
    {
      out := out + [HexDigit(data[i] as int / 16), HexDigit(data[i] as int % 16)];
      rest := rest[1..];
    }
  }

  /** Fails on an odd length, or if the bytes do not fit. */
  method HexToBytes(hex: string, outMax: nat) returns (ok: bool, out: Bytes)
    ensures ok <==> |hex| % 2 == 0 && |hex| / 2 <= outMax
    ensures ok ==> out == FromHex(hex)
  {
    out := [];
    if |hex| % 2 != 0 || |hex| / 2 > outMax { return false, out; }
    var n := |hex| / 2;
    assert hex[2 * 0..] == hex;
    for i := 0 to n
      invariant |hex| == 2 * n && |hex[2 * i..]| == 2 * (n - i) && out + FromHex(hex[2 * i..]) == FromHex(hex)
    {
      HexStep(out, hex[2 * i..], FromHex(hex));
      assert hex[2 * i..][2..] == hex[2 * (i + 1)..];
      out := out + [PairValue(hex[2 * i], hex[2 * i + 1])];
    }
    return true, out;
  }

  lemma {:induction false} HexStep(out: Bytes, rest: string, whole: Bytes)
    requires |rest| % 2 == 0 && rest != "" && out + FromHex(rest) == whole
    ensures (out + [PairValue(rest[0], rest[1])]) + FromHex(rest[2..]) == whole
  {
    assert FromHex(rest) == [PairValue(rest[0], rest[1])] + FromHex(rest[2..]);
  }

  // ---------- encrypted text ----------

  /** A block cipher in chaining mode under one key, and what is assumed of it. */
  datatype Cipher = Cipher(enc: (Bytes, Bytes, Bytes) -> Bytes, dec: (Bytes, Bytes, Bytes) -> Bytes)

  ghost predicate Invertible(c: Cipher) {
    forall key, iv, p :: |p| % 16 == 0 ==> |c.enc(key, iv, p)| == |p| && c.dec(key, iv, c.enc(key, iv, p)) == p
  }

  function TextBytes(s: string): (b: Bytes)
    requires forall i | 0 <= i < |s| :: s[i] < 256 as char
    ensures |b| == |s|
  {
    seq(|s|, i requires 0 <= i < |s| => s[i] as int as byte)
  }

  function BytesText(b: Bytes): (s: string)
    ensures |s| == |b|
  {
    seq(|b|, i requires 0 <= i < |b| => b[i] as int as char)
  }

  predicate Narrow(s: string) { forall i | 0 <= i < |s| :: s[i] < 256 as char }

  const TEXT_MAX: nat := 64

  /** What of a text is kept when it is encrypted. */
  function Kept(text: string): string { if |text| > TEXT_MAX then text[..TEXT_MAX] else text }

  /** Hex of the vector and the padded text; nothing for an empty text or a buffer that is too small. */
  function EncryptToHex(c: Cipher, key: Bytes, iv: Bytes, text: string, outSize: nat): string
    requires Narrow(text)
  {
    var padded := Pad(TextBytes(Kept(text)));
    if text == "" || outSize < 32 + |padded| * 2 + 1 then ""
    else ToHex(iv) + ToHex(c.enc(key, iv, padded))
  }

  function DecryptFromHex(c: Cipher, key: Bytes, hex: string, outSize: nat): string
    requires outSize > 0
  {
    if |hex| < 32 || |hex[32..]| % 2 != 0 || |hex[32..]| / 2 > 80 then ""
    else
      var iv, body := FromHex(hex[..32]), FromHex(hex[32..]);
      if body == [] || |body| % 16 != 0 then ""
      else
        PlainText(c.dec(key, iv, body), outSize)
  }

  /** The text in decrypted bytes: nothing if they do not end in padding. */
  function PlainText(plain: Bytes, outSize: nat): string
    requires outSize > 0
  {
    if plain == [] then ""
    else
      match Unpad(plain)
      case None => ""
      case Some(p) => CStr(Clip(BytesText(p), outSize))
  }

  /** Decrypting undoes encrypting: the first 64 characters come back, as many as the caller has room for, exactly
      if the encrypted form had room. */
  lemma DecryptOfEncrypt(c: Cipher, key: Bytes, iv: Bytes, text: string, hexSize: nat, outSize: nat)
    requires Invertible(c) && |iv| == 16 && Narrow(text) && NulFree(text) && outSize > 0
    ensures var kept := Kept(text);
      DecryptFromHex(c, key, EncryptToHex(c, key, iv, text, hexSize), outSize) ==
      if hexSize >= 33 + 2 * (|kept| + PadLen(|kept|)) then Clip(kept, outSize) else ""
  {
    var kept := Kept(text);
    var padded := Pad(TextBytes(kept));
    UnpadOfPad(TextBytes(kept));
    if text != "" && hexSize >= 33 + 2 * |padded| {
      var body := c.enc(key, iv, padded);
      HexParts(iv, body);
      assert BytesText(TextBytes(kept)) == kept;
      assert forall i | 0 <= i < |Clip(kept, outSize)| :: Clip(kept, outSize)[i] in text;
      CStrOfText(Clip(kept, outSize));
    }
  }

  lemma HexParts(iv: Bytes, body: Bytes)
    requires |iv| == 16
    ensures var h := ToHex(iv) + ToHex(body);
      |h| == 32 + 2 * |body| && FromHex(h[..32]) == iv && FromHex(h[32..]) == body
  {
    var h := ToHex(iv) + ToHex(body);
    assert h[..32] == ToHex(iv) && h[32..] == ToHex(body);
    FromHexOfToHex(iv);
    FromHexOfToHex(body);
  }

  /** Reading anybody's text: in hex, a vector of 16 bytes and one to five whole blocks. */
  lemma {:induction false} DecryptMeans(c: Cipher, key: Bytes, iv: Bytes, body: Bytes, outSize: nat)
    requires |iv| == 16 && outSize > 0
    ensures DecryptFromHex(c, key, ToHex(iv) + ToHex(body), outSize) ==
            if |body| in {16, 32, 48, 64, 80} then PlainText(c.dec(key, iv, body), outSize) else ""
  {
    HexParts(iv, body);
    WholeBlocks(|body|);
  }

  lemma WholeBlocks(n: nat)
    ensures n in {16, 32, 48, 64, 80} <==> 0 < n <= 80 && n % 16 == 0
  {
    if 0 < n <= 80 && n % 16 == 0 { assert n == n / 16 * 16; }
  }

  lemma {:induction false} DecryptRefuses(c: Cipher, key: Bytes, hex: string, outSize: nat)
    requires outSize > 0 && (|hex| < 64 || |hex| > 192 || |hex| % 32 != 0)
    ensures DecryptFromHex(c, key, hex, outSize) == ""
  {
  }

  method EncryptText(c: Cipher, key: Bytes, iv: Bytes, text: string, outSize: nat) returns (out: string)
    requires Narrow(text)
    ensures out == EncryptToHex(c, key, iv, text, outSize)
  {
    if text == "" { return ""; }
    var buf := new byte[80](_ => 0);
    var len := if |text| > TEXT_MAX then TEXT_MAX else |text|;
    for i := 0 to len
      invariant forall k | 0 <= k < i :: buf[k] as int == text[k] as int
    {
      buf[i] := text[i] as int as byte;
    }
    assert buf[..len] == TextBytes(Kept(text));
    if outSize < 32 + (len / 16 + 1) * 16 * 2 + 1 { return ""; }
    var total := PadInPlace(buf, len);
    var head := BytesToHex(iv);
    var body := BytesToHex(c.enc(key, iv, buf[..total]));
    out := head + body;
  }

  method DecryptText(c: Cipher, key: Bytes, hex: string, outSize: nat) returns (out: string)
    requires outSize > 0
    ensures out == DecryptFromHex(c, key, hex, outSize)
  {
    if |hex| < 32 { return ""; }
    var ivOk, iv := HexToBytes(hex[..32], 16);
    if !ivOk || |iv| != 16 { return ""; }
    var ok, body := HexToBytes(hex[32..], 80);
    if !ok { return ""; }
    if |body| == 0 || |body| % 16 != 0 { return ""; }
    out := TakeText(c.dec(key, iv, body), outSize);
  }

  method TakeText(plain: Bytes, outSize: nat) returns (out: string)
    requires outSize > 0
    ensures out == PlainText(plain, outSize)
  {
    if plain == [] { return ""; }
    var pad := plain[|plain|-1] as int;
    if pad == 0 || pad > 16 || pad > |plain| { return ""; }
    var len := |plain| - pad;
    ghost var kept := plain[..len];
    if len >= outSize { len := outSize - 1; }
    assert plain[..len] == kept[..len];
    TextOfPrefix(kept, len, outSize);
    out := CStr(BytesText(plain[..len]));
  }

  lemma {:induction false} TextOfPrefix(b: Bytes, n: nat, cap: nat)
    requires cap > 0 && n == if |b| < cap then |b| else cap - 1
    ensures BytesText(b[..n]) == Clip(BytesText(b), cap)
  {
    var t := BytesText(b);
    assert BytesText(b[..n]) == t[..n];
  }
}
