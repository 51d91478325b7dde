/** The tokenizer as written: one pass over the line, arguments laid one after another in a buffer. */
module ShellTokenizer {
  import opened CScan
  import opened CText
  import opened CBuffer
  import opened ShellWords

  /** Copies one argument into the buffer at o; returns where the line and the buffer stand after it. */
  method CopyArg(line: string, p: nat, buf: array<char>, o: nat, ghost rest: string) returns (p2: nat, o2: nat)
    requires Tail(line, p, rest) && NulFree(line) && o + 1 < buf.Length
    modifies buf
    ensures var w := TakeSome(rest, NUL, buf.Length - o - 1);
      o2 == o + |w| + 1 <= buf.Length && Holds(buf, o, w)
    ensures Tail(line, p2, DropSome(rest, NUL, buf.Length - o - 1))
    ensures forall i | 0 <= i < o :: buf[i] == old(buf[i])
  {
    ghost var left: nat := buf.Length - o - 1;
    ghost var want, after := TakeSome(rest, NUL, left), DropSome(rest, NUL, left);
    ghost var w, more := "", rest;
    p2, o2 := p, o;
    var q := NUL;
    while p2 < |line| && (q != NUL || (line[p2] != ' ' && line[p2] != '\t'))
      invariant Tail(line, p2, more) && o2 == o + |w| && o2 + left + 1 == buf.Length
      invariant forall k | 0 <= k < |w| :: buf[o + k] == w[k] != NUL
      invariant Still(w, more, q, left, want, after)
      invariant forall i | 0 <= i < o :: buf[i] == old(buf[i])
      decreases |more|
    {
      var c := line[p2];
      assert more[0] == line[p2 + 0] && c in line;
      if q != NUL {
        if c == q {
          StillDropped(w, more, q, left, want, after);
          q, p2, more := NUL, p2 + 1, more[1..];
          continue;
        }
      } else if c == '\'' || c == '"' {
        StillDropped(w, more, q, left, want, after);
        q, p2, more := c, p2 + 1, more[1..];
        continue;
      }
      if o2 + 1 >= buf.Length { break; }
      StillTaken(w, more, q, left, want, after);
      buf[o2] := c;
      o2, p2 := o2 + 1, p2 + 1;
      w, more, left := w + [c], more[1..], left - 1;
    }
    assert more != "" ==> more[0] == line[p2 + 0];
    StillDone(w, more, q, left, want, after);
    buf[o2] := NUL;
    o2 := o2 + 1;
  }

  /** What has been taken, and what the rest would still give, make up what is wanted. */
  ghost predicate Still(w: string, more: string, q: char, left: nat, want: string, after: string) {
    w + TakeSome(more, q, left) == want && DropSome(more, q, left) == after
  }

  lemma StillDropped(w: string, more: string, q: char, left: nat, want: string, after: string)
    requires Still(w, more, q, left, want, after) && !Ends(more, q) && Drops(more[0], q)
    ensures Still(w, more[1..], Toggled(more[0], q), left, want, after)
  {
  }

  lemma StillTaken(w: string, more: string, q: char, left: nat, want: string, after: string)
    requires Still(w, more, q, left, want, after) && !Ends(more, q) && !Drops(more[0], q) && left > 0
    ensures Still(w + [more[0]], more[1..], q, left - 1, want, after)
  {
  }

  lemma StillDone(w: string, more: string, q: char, left: nat, want: string, after: string)
    requires Still(w, more, q, left, want, after) && (Ends(more, q) || (!Drops(more[0], q) && left == 0))
    ensures w == want && more == after
  {
    assert w + "" == w;
  }

  /** The arguments laid out so far, each one ending before the place o. */
  ghost predicate Laid(buf: array<char>, argv: seq<nat>, words: seq<string>, o: nat)
    reads buf
  {
    && |argv| == |words| && o <= buf.Length
    && forall k | 0 <= k < |argv| :: argv[k] + |words[k]| < o && Holds(buf, argv[k], words[k])
  }

  method Tokenize(line: string, buf: array<char>, max: nat) returns (argv: seq<nat>)
    requires NulFree(line)
    modifies buf
    ensures |argv| == |Tokens(line, buf.Length, max)|
    ensures forall k | 0 <= k < |argv| :: Holds(buf, argv[k], Tokens(line, buf.Length, max)[k])
  {
    argv := [];
    var p: nat, o: nat := 0, 0;
    ghost var rest, words: seq<string> := line, [];
    ghost var all := Tokens(line, buf.Length, max);
    assert [] + all == all;
    while p < |line|
      invariant Tail(line, p, rest) && |argv| <= max && Laid(buf, argv, words, o)
      invariant words + Tokens(rest, buf.Length - o, max - |argv|) == all
      decreases max - |argv|
    {
      var more;
      more, p, o, argv, rest, words := NextToken(line, p, buf, o, max, argv, rest, words, all);
      if !more { return; }
    }
    TokensStart(words, rest, buf.Length - o, max - |argv|);
  }

  /** One round of the loop: an argument, or nothing more. */
  method NextToken(line: string, p: nat, buf: array<char>, o: nat, max: nat, argv: seq<nat>, ghost rest: string,
                   ghost words: seq<string>, ghost all: seq<string>)
      returns (more: bool, p2: nat, o2: nat, argv2: seq<nat>, ghost rest2: string, ghost words2: seq<string>)
    requires Tail(line, p, rest) && NulFree(line) && |argv| <= max && Laid(buf, argv, words, o)
    requires words + Tokens(rest, buf.Length - o, max - |argv|) == all
    modifies buf
    ensures Laid(buf, argv2, words2, o2) && |argv2| <= max
    ensures if more
            then |argv2| == |argv| + 1 && Tail(line, p2, rest2) &&
                 words2 + Tokens(rest2, buf.Length - o2, max - |argv2|) == all
            else words2 == all
  {
    TokensStart(words, rest, buf.Length - o, max - |argv|);
    p2 := SkipWs(line, p, rest);
    rest2 := Skip(rest);
    o2, argv2, words2 := o, argv, words;
    if p2 == |line| || |argv| >= max || o + 1 >= buf.Length { return false, p2, o2, argv2, rest2, words2; }
    more := true;
    ghost var start := rest2;
    p2, o2 := LayArg(line, p2, buf, o, start, argv, words);
    argv2 := argv + [o];
    rest2, words2 := DropSome(start, NUL, buf.Length - o - 1), words + [TakeSome(start, NUL, buf.Length - o - 1)];
  }

  /** One more argument after those laid out. */
  method LayArg(line: string, p: nat, buf: array<char>, o: nat, ghost rest: string, ghost argv: seq<nat>,
      ghost words: seq<string>)
      returns (p2: nat, o2: nat)
    requires Tail(line, p, rest) && NulFree(line) && o + 1 < buf.Length && Laid(buf, argv, words, o)
    modifies buf
    ensures var w := TakeSome(rest, NUL, buf.Length - o - 1);
      o2 == o + |w| + 1 && Laid(buf, argv + [o], words + [w], o2)
    ensures Tail(line, p2, DropSome(rest, NUL, buf.Length - o - 1))
  {
    p2, o2 := CopyArg(line, p, buf, o, rest);
  }

  lemma TokensStart(words: seq<string>, s: string, room: nat, max: nat)
    ensures var t := Skip(s);
      if t == "" || max == 0 || room <= 1 then words + Tokens(s, room, max) == words
      else
        var w := TakeSome(t, NUL, room - 1);
        words + Tokens(s, room, max) ==
          (words + [w]) + Tokens(DropSome(t, NUL, room - 1), room - |w| - 1, max - 1)
  {
  }
}
