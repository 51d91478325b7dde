/** C strings inside character arrays, cut in place. */
module CBuffer {
  import opened CScan
  import opened CText

  /** The array holds the text at p, terminated. */
  ghost predicate Holds(a: array<char>, p: int, s: string)
    reads a
  {
    && 0 <= p && p + |s| < a.Length && a[p + |s|] == NUL
    && forall k | 0 <= k < |s| :: a[p + k] == s[k] != NUL
  }

  lemma HoldsRest(a: array<char>, p: nat, s: string)
    requires Holds(a, p, s) && s != ""
    ensures Holds(a, p + 1, s[1..]) && a[p] == s[0]
  {
    assert a[p + 0] == s[0];
    forall k | 0 <= k < |s| - 1 ensures a[p + 1 + k] == s[1..][k] != NUL { assert a[p + (k + 1)] == s[k + 1]; }
  }

  method StrLen(a: array<char>, p: nat, ghost s: string) returns (n: nat)
    requires Holds(a, p, s)
    ensures n == |s|
  {
    n := 0;
    while a[p + n] != NUL
      invariant n <= |s| && (n < |s| ==> a[p + n] == s[n] != NUL)
      decreases |s| - n
    {
      n := n + 1;
    }
  }

  /** `strchr`: the distance to the first c, or to the terminator. */
  method Find(a: array<char>, p: nat, c: char, ghost s: string) returns (n: nat)
    requires Holds(a, p, s)
    ensures n <= |s| && c !in s[..n] && (n < |s| ==> s[n] == c)
  {
    n := 0;
    while a[p + n] != NUL && a[p + n] != c
      invariant n <= |s| && c !in s[..n] && (n < |s| ==> a[p + n] == s[n] != NUL)
      decreases |s| - n
    {
      assert s[..n + 1] == s[..n] + [s[n]];
      n := n + 1;
    }
  }

  /** Writes a terminator into the text. */
  method Cut(a: array<char>, p: nat, n: nat, ghost s: string)
    requires Holds(a, p, s) && n < |s|
    modifies a
    ensures Holds(a, p, s[..n]) && Holds(a, p + n + 1, s[n + 1..])
    ensures forall i | 0 <= i < a.Length && i != p + n :: a[i] == old(a[i])
  {
    a[p + n] := NUL;
  }

  method Read(a: array<char>, p: nat, ghost text: string) returns (s: string)
    requires Holds(a, p, text)
    ensures s == text
  {
    var n := StrLen(a, p, text);
    s := a[p..p + n];
  }

  /** Copies a text into a new array with a terminator and spare room. */
  method Copied(s: string, spare: nat) returns (a: array<char>)
    requires NulFree(s)
    ensures fresh(a) && Holds(a, 0, s) && a.Length == |s| + 1 + spare
  {
    a := new char[|s| + 1 + spare](i => if 0 <= i < |s| then s[i] else NUL);
    assert forall k | 0 <= k < |s| :: s[k] in s;
  }

  // ---------- a line read through a pointer ----------

  /** What is left of the line at p. */
  ghost predicate Tail(line: string, p: nat, rest: string) {
    p + |rest| == |line| && forall k | 0 <= k < |rest| :: rest[k] == line[p + k]
  }

  /** Moves over blanks. */
  method SkipWs(line: string, p: nat, ghost rest: string) returns (q: nat)
    requires Tail(line, p, rest)
    ensures Tail(line, q, Skip(rest))
  {
    q := p;
    ghost var after := rest;
    while q < |line| && (line[q] == ' ' || line[q] == '\t')
      invariant Tail(line, q, after) && Skip(after) == Skip(rest)
      invariant q < |line| ==> after[0] == line[q]
      decreases |line| - q
    {
      q, after := q + 1, after[1..];
      assert q < |line| ==> after[0] == line[q + 0];
    }
  }
}
