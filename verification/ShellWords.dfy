/** How a command line is cut into arguments, and a way of writing arguments that survives it. */
module ShellWords {
  import opened CScan
  import opened CText
  import opened CBuffer

  predicate QuoteMark(c: char) { c == '\'' || c == '"' }

  /** The quote state after a character that is dropped: a mark opens a group, or closes the one it opened. */
  predicate Drops(c: char, q: char) { if q != NUL then c == q else QuoteMark(c) }

  function Toggled(c: char, q: char): char { if q != NUL then NUL else c }

  predicate Ends(s: string, q: char) { s == "" || (q == NUL && Blank(s[0])) }

  /** The argument that starts here, and what follows it. */
  function TakeArg(s: string, q: char): string {
    if Ends(s, q) then ""
    else if Drops(s[0], q) then TakeArg(s[1..], Toggled(s[0], q))
    else [s[0]] + TakeArg(s[1..], q)
  }

  function DropArg(s: string, q: char): (r: string)
    ensures |r| <= |s| && (!Ends(s, q) ==> |r| < |s|)
  {
    if Ends(s, q) then s
    else if Drops(s[0], q) then DropArg(s[1..], Toggled(s[0], q))
    else DropArg(s[1..], q)
  }

  function Args(s: string): seq<string>
    decreases |s|
  {
    var t := Skip(s);
    SkipShorter(s);
    if t == "" then [] else [TakeArg(t, NUL)] + Args(DropArg(t, NUL))
  }

  lemma {:induction false} SkipShorter(s: string)
    ensures |Skip(s)| <= |s| && (Skip(s) != "" ==> !Blank(Skip(s)[0]))
  {
    if s != "" && Blank(s[0]) { SkipShorter(s[1..]); }
  }

  // ---------- bounded ----------

  /** As above, but with room for so many characters; when it is used up the argument ends there. */
  function TakeSome(s: string, q: char, room: nat): (r: string)
    ensures |r| <= room
  {
    if Ends(s, q) then ""
    else if Drops(s[0], q) then TakeSome(s[1..], Toggled(s[0], q), room)
    else if room == 0 then ""
    else [s[0]] + TakeSome(s[1..], q, room - 1)
  }

  function DropSome(s: string, q: char, room: nat): (r: string)
    ensures |r| <= |s|
  {
    if Ends(s, q) then s
    else if Drops(s[0], q) then DropSome(s[1..], Toggled(s[0], q), room)
    else if room == 0 then s
    else DropSome(s[1..], q, room - 1)
  }

  /** The arguments a buffer of the size and a table of the length can hold. */
  function Tokens(s: string, room: nat, max: nat): (r: seq<string>)
    ensures |r| <= max
    decreases max
  {
    var t := Skip(s);
    if t == "" || max == 0 || room <= 1 then []
    else
      var w := TakeSome(t, NUL, room - 1);
      [w] + Tokens(DropSome(t, NUL, room - 1), room - |w| - 1, max - 1)
  }

  predicate Fits(args: seq<string>, room: nat) {
    args == [] || (room > 1 && |args[0]| + 1 <= room && Fits(args[1..], room - |args[0]| - 1))
  }

  lemma {:induction false} TakeSomeIs(s: string, q: char, room: nat)
    ensures |TakeArg(s, q)| <= room ==> TakeSome(s, q, room) == TakeArg(s, q) && DropSome(s, q, room) == DropArg(s, q)
    ensures |TakeArg(s, q)| > room ==> TakeSome(s, q, room) != TakeArg(s, q)
    decreases |s|
  {
    if Ends(s, q) {
    } else if Drops(s[0], q) {
      TakeSomeIs(s[1..], Toggled(s[0], q), room);
    } else if room > 0 {
      TakeSomeIs(s[1..], q, room - 1);
    }
  }

  /** All arguments come through unharmed exactly when the table and the buffer can hold them. */
  lemma {:induction false} TokensAreArgs(s: string, room: nat, max: nat)
    ensures Tokens(s, room, max) == Args(s) <==> |Args(s)| <= max && Fits(Args(s), room)
    decreases max
  {
    var t := Skip(s);
    if t != "" && max > 0 && room > 1 {
      var w := TakeArg(t, NUL);
      TakeSomeIs(t, NUL, room - 1);
      TokensStep(s, room, max);
      if |w| + 1 <= room { TokensAreArgs(DropArg(t, NUL), room - |w| - 1, max - 1); }
    }
  }

  lemma TokensStep(s: string, room: nat, max: nat)
    requires Skip(s) != "" && max > 0 && room > 1
    ensures Args(s)[0] == TakeArg(Skip(s), NUL) && Args(s)[1..] == Args(DropArg(Skip(s), NUL))
    ensures Tokens(s, room, max)[0] == TakeSome(Skip(s), NUL, room - 1)
    ensures Tokens(s, room, max)[1..] ==
      Tokens(DropSome(Skip(s), NUL, room - 1), room - |TakeSome(Skip(s), NUL, room - 1)| - 1, max - 1)
  {
  }

  // ---------- writing ----------

  function Quoted(arg: string): string { "'" + arg + "'" }

  function Written(args: seq<string>): string {
    if args == [] then "" else Quoted(args[0]) + (if |args| == 1 then "" else " " + Written(args[1..]))
  }

  lemma {:induction false} InQuotes(arg: string, rest: string)
    requires '\'' !in arg && NulFree(arg) && (rest == "" || Blank(rest[0]))
    ensures TakeArg(arg + "'" + rest, '\'') == arg && DropArg(arg + "'" + rest, '\'') == rest
  {
    var s := arg + "'" + rest;
    if arg == "" {
      assert s[0] == '\'' && s[1..] == rest;
    } else {
      assert s[0] == arg[0] && arg[0] in arg && s[1..] == arg[1..] + "'" + rest;
      InQuotes(arg[1..], rest);
    }
  }

  lemma {:induction false} ArgsOfWritten(args: seq<string>)
    requires forall k | 0 <= k < |args| :: '\'' !in args[k] && NulFree(args[k])
    ensures Args(Written(args)) == args && Args(" " + Written(args)) == args
  {
    if args != [] {
      var rest := if |args| == 1 then "" else " " + Written(args[1..]);
      ArgsOfWritten(args[1..]);
      WrittenStep(args[0], rest, args[1..]);
      assert [args[0]] + args[1..] == args;
    } else {
      assert " " + "" == " " && " "[1..] == "";
    }
  }

  lemma WrittenStep(arg: string, rest: string, args: seq<string>)
    requires '\'' !in arg && NulFree(arg) && (rest == "" || Blank(rest[0])) && Args(rest) == args
    ensures Args(Quoted(arg) + rest) == [arg] + args && Args(" " + (Quoted(arg) + rest)) == [arg] + args
  {
    var s := Quoted(arg) + rest;
    InQuotes(arg, rest);
    assert s[0] == '\'' && s[1..] == arg + "'" + rest;
    assert Skip(s) == s;
    BlankFirst(s);
  }

  lemma BlankFirst(s: string)
    ensures Args(" " + s) == Args(s)
  {
    assert (" " + s)[1..] == s;
  }

  /** Arguments written in quotes are read back, empty ones included, exactly when they fit. */
  lemma WrittenArgsComeBack(args: seq<string>, bufsz: nat, max: nat)
    requires forall k | 0 <= k < |args| :: '\'' !in args[k] && NulFree(args[k])
    ensures Tokens(Written(args), bufsz, max) == args <==> |args| <= max && Fits(args, bufsz)
  {
    ArgsOfWritten(args);
    TokensAreArgs(Written(args), bufsz, max);
  }
}
