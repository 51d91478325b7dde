/** Pipes and redirects: how a command line is cut into stages, and what running them one after another gives. */
module ShellPipe {
  import opened CScan
  import opened CText
  import opened ShellWords

  const MAX_STAGES: nat := 6

  // ---------- quoting ----------

  /** The quote state after a character. */
  function After(c: char, q: char): char { if Drops(c, q) then Toggled(c, q) else q }

  function QuoteAfter(s: string, q: char): char { if s == "" then q else QuoteAfter(s[1..], After(s[0], q)) }

  predicate HasUnquoted(s: string, q: char, c: char) {
    s != "" && ((q == NUL && !QuoteMark(s[0]) && s[0] == c) || HasUnquoted(s[1..], After(s[0], q), c))
  }

  /** Number of characters before the first c outside quotes. */
  function UntilUnquoted(s: string, q: char, c: char): (n: nat)
    ensures n <= |s|
  {
    if s == "" || (q == NUL && !QuoteMark(s[0]) && s[0] == c) then 0
    else 1 + UntilUnquoted(s[1..], After(s[0], q), c)
  }

  // ---------- stages ----------

  /** The pieces between the unquoted bars. */
  function Stages(s: string): (p: seq<string>)
    ensures p != []
    decreases |s|
  {
    var n := UntilUnquoted(s, NUL, '|');
    if n == |s| then [s] else [s[..n]] + Stages(s[n + 1..])
  }

  function JoinBars(p: seq<string>): string
    requires p != []
  {
    if |p| == 1 then p[0] else p[0] + ['|'] + JoinBars(p[1..])
  }

  /** A piece that a bar may follow: no bar and no open quote. */
  predicate Closed(s: string) { !HasUnquoted(s, NUL, '|') && QuoteAfter(s, NUL) == NUL }

  ghost predicate Pieces(p: seq<string>) {
    p != [] && !HasUnquoted(p[|p|-1], NUL, '|') && forall k | 0 <= k < |p| - 1 :: Closed(p[k])
  }

  lemma {:induction false} UntilUnquotedMeans(s: string, q: char, c: char)
    requires !QuoteMark(c)
    ensures var n := UntilUnquoted(s, q, c);
      && !HasUnquoted(s[..n], q, c)
      && (n < |s| <==> HasUnquoted(s, q, c))
      && (n < |s| ==> s[n] == c && QuoteAfter(s[..n], q) == NUL)
  {
    var n := UntilUnquoted(s, q, c);
    if n > 0 {
      UntilUnquotedMeans(s[1..], After(s[0], q), c);
      assert s[..n][1..] == s[1..][..n - 1];
    }
  }

  lemma {:induction false} UntilUnquotedConcat(a: string, q: char, c: char, rest: string)
    requires !QuoteMark(c) && !HasUnquoted(a, q, c) && QuoteAfter(a, q) == NUL
    ensures UntilUnquoted(a + [c] + rest, q, c) == |a|
  {
    var s := a + [c] + rest;
    if a == "" {
      assert s[0] == c;
    } else {
      assert s[1..] == a[1..] + [c] + rest && s[0] == a[0];
      UntilUnquotedConcat(a[1..], After(a[0], q), c, rest);
    }
  }

  /** The stages are pieces, and put together again they are the line. */
  lemma {:induction false} StagesAreIn(s: string)
    ensures Pieces(Stages(s)) && JoinBars(Stages(s)) == s
    decreases |s|
  {
    var n := UntilUnquoted(s, NUL, '|');
    UntilUnquotedMeans(s, NUL, '|');
    if n < |s| {
      StagesAreIn(s[n + 1..]);
      var p := Stages(s[n + 1..]);
      assert s == s[..n] + ['|'] + s[n + 1..];
      assert ([s[..n]] + p)[1..] == p;
    } else {
      assert s[..n] == s;
    }
  }

  lemma StagesOfCut(a: string, rest: string)
    requires Closed(a)
    ensures Stages(a + ['|'] + rest) == [a] + Stages(rest)
  {
    var s := a + ['|'] + rest;
    UntilUnquotedConcat(a, NUL, '|', rest);
    assert s[..|a|] == a && s[|a| + 1..] == rest;
  }

  /** No other pieces make up the line. */
  lemma {:induction false} StagesAreAll(p: seq<string>)
    requires Pieces(p)
    ensures Stages(JoinBars(p)) == p
  {
    if |p| > 1 {
      assert Closed(p[0]);
      StagesAreAll(p[1..]);
      StagesOfCut(p[0], JoinBars(p[1..]));
      assert p == [p[0]] + p[1..];
    } else {
      UntilUnquotedMeans(p[0], NUL, '|');
      assert p == [p[0]];
    }
  }

  // ---------- commands ----------

  predicate Space(c: char) { c == ' ' || c == '\t' || c == '\r' || c == '\n' }

  function TrimEnd(s: string): (r: string)
    ensures r <= s
  {
    if s != "" && Space(s[|s|-1]) then TrimEnd(s[..|s|-1]) else s
  }

  function Trim(s: string): string { TrimEnd(Skip(s)) }

  // ---------- running ----------

  /** A command: the world and the command line, with the output of the stage before it, give a world and an
      output. */
  type Runner<!W> = (W, string, string, bool) -> (W, string)

  /** The world and the output of running the commands from left to right. */
  function Composed<W>(run: Runner<W>, w: W, cmds: seq<string>, input: string, piped: bool, size: nat): (W, string)
    requires cmds != []
    decreases |cmds|
  {
    var r := run(w, Trim(cmds[0]), input, piped);
    if |cmds| == 1 then (r.0, Clip(r.1, size))
    else Composed(run, r.0, cmds[1..], Clip(r.1, size), true, size)
  }

  /** The three places an output can be: the caller's buffer and the two in between. */
  method RunStages<W>(run: Runner<W>, world: W, cmds: seq<string>, size: nat, redirected: bool)
      returns (w: W, last: string, out: string)
    requires cmds != [] && size > 0
    ensures (w, last) == Composed(run, world, cmds, "", false, size)
    ensures !redirected ==> out == last
  {
    var text := new string[3](_ => "");
    var input := 3;
    w := world;
    var i := 0;
    ghost var goal := Composed(run, world, cmds, "", false, size);
    while true
      invariant i < |cmds| && input <= 3 && (input == 3 <==> i == 0)
      invariant i > 0 ==> input == if i % 2 == 1 then 1 else 2
      invariant goal == Composed(run, w, cmds[i..], if i == 0 then "" else text[input], i > 0, size)
      decreases |cmds| - i
    {
      var finalToOut := i == |cmds| - 1 && !redirected;
      var target := if finalToOut then 0 else if i % 2 == 0 then 1 else 2;
      assert target != input;
      text[target] := "";
      var r := run(w, Trim(cmds[i]), if i == 0 then "" else text[input], i > 0);
      assert cmds[i..][0] == cmds[i] && cmds[i..][1..] == cmds[i + 1..];
      w := r.0;
      text[target] := Clip(r.1, size);
      input, i := target, i + 1;
      if i == |cmds| { break; }
    }
    last, out := text[input], text[0];
  }
}
