/** Walking along a C string: up to a character, over blanks, to the terminator. */
module CScan {
  import opened CText

  /** Number of characters before the first c. */
  function Until(s: string, c: char): (n: nat)
    ensures n <= |s| && c !in s[..n] && (n < |s| ==> s[n] == c)
  {
    if s == "" || s[0] == c then 0 else 1 + Until(s[1..], c)
  }

  lemma UntilIs(s: string, c: char, n: nat)
    requires n <= |s| && c !in s[..n] && (n < |s| ==> s[n] == c)
    ensures Until(s, c) == n
  {
    var m := Until(s, c);
    forall i | 0 <= i < n ensures s[i] != c { assert s[i] == s[..n][i]; }
    forall i | 0 <= i < m ensures s[i] != c { assert s[i] == s[..m][i]; }
  }

  /** Text without c, then c: that is where the first c is. */
  lemma UntilConcat(a: string, c: char, rest: string)
    requires c !in a
    ensures Until(a + [c] + rest, c) == |a| && (a + [c] + rest)[..|a|] == a && (a + [c] + rest)[|a| + 1..] == rest
  {
    assert (a + [c] + rest)[..|a|] == a;
    UntilIs(a + [c] + rest, c, |a|);
  }

  predicate Blank(c: char) { c == ' ' || c == '\t' }

  function Upper(c: char): char { if 'a' <= c <= 'z' then c - 'a' + 'A' else c }

  /** Blanks at the start are passed over. */
  function Skip(s: string): string { if s != "" && Blank(s[0]) then Skip(s[1..]) else s }

  lemma {:induction false} CStrOfText(s: string)
    requires NulFree(s)
    ensures CStr(s) == s
  {
    if s != "" {
      assert s[0] in s;
      CStrOfText(s[1..]);
    }
  }
}
