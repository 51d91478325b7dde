/** C strings and byte buffers as the firmware handles them: NUL-terminated text
    inside fixed arrays, `snprintf` truncation and decimal printing. */
module CText {

  const NUL: char := '\0'

  type byte = x: int | 0 <= x < 256

  predicate NulFree(s: string) { NUL !in s }

  /** The text a buffer holds: everything before the first NUL. */
  function CStr(a: seq<char>): (s: string)
    ensures |s| <= |a| && s == a[..|s|] && NulFree(s)
    ensures |s| < |a| ==> a[|s|] == NUL
  {
    if a == [] || a[0] == NUL then ""
    else [a[0]] + CStr(a[1..])
  }

  lemma {:induction false} CStrUnique(a: seq<char>, n: nat)
    requires n < |a| && a[n] == NUL && NulFree(a[..n])
    ensures CStr(a) == a[..n]
  {
    if n > 0 {
      assert a[0] == a[..n][0];
      assert a[1..][..n-1] == a[..n][1..];
      CStrUnique(a[1..], n - 1);
    }
  }

  /** What `snprintf(dst, cap, "%s", s)` leaves in dst. */
  function Clip(s: string, cap: nat): (r: string)
    ensures r <= s && |r| == if cap == 0 then 0 else if |s| < cap then |s| else cap - 1
  {
    if cap == 0 then "" else if |s| < cap then s else s[..cap-1]
  }

  /** Appending to already clipped text clips the whole. */
  lemma ClipAppend(a: string, b: string, cap: nat)
    ensures Clip(Clip(a, cap) + b, cap) == Clip(a + b, cap)
  {
  }

  function Digit(d: nat): char
    requires d < 10
  {
    '0' + d as char
  }

  /** The text printed by `%d` for a non-negative number. */
  function Decimal(n: nat): (s: string)
    ensures |s| > 0 && forall i | 0 <= i < |s| :: '0' <= s[i] <= '9'
  {
    if n < 10 then [Digit(n)] else Decimal(n / 10) + [Digit(n % 10)]
  }

  /** Reading digits left to right, as `v * 10 + (c - '0')`. */
  function ReadDecimal(v: nat, s: string): nat
    requires forall i | 0 <= i < |s| :: '0' <= s[i] <= '9'
    decreases |s|
  {
    if s == "" then v else ReadDecimal(v * 10 + (s[0] - '0') as nat, s[1..])
  }

  lemma {:induction false} ReadDecimalAppend(v: nat, s: string, c: char)
    requires forall i | 0 <= i < |s| :: '0' <= s[i] <= '9'
    requires '0' <= c <= '9'
    ensures ReadDecimal(v, s + [c]) == ReadDecimal(v, s) * 10 + (c - '0') as nat
    decreases |s|
  {
    if s == "" {
      assert (s + [c])[1..] == "";
    } else {
      assert (s + [c])[1..] == s[1..] + [c];
      ReadDecimalAppend(v * 10 + (s[0] - '0') as nat, s[1..], c);
    }
  }

  lemma {:induction false} ReadDecimalOfDecimal(n: nat)
    ensures ReadDecimal(0, Decimal(n)) == n
  {
    if n >= 10 {
      ReadDecimalOfDecimal(n / 10);
      ReadDecimalAppend(0, Decimal(n / 10), Digit(n % 10));
    } else {
      assert Decimal(n)[1..] == "";
    }
  }
}
