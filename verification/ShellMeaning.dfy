/** What a command line means, said from the outside: how arguments, pipes and redirects are written. */
module ShellMeaning {
  import opened CScan
  import opened CText
  import opened ShellWords
  import opened ShellPipe
  import opened ShellPipeline

  // ---------- writing ----------

  /** A piece of a word: bare, or in quotes of either kind. */
  datatype Piece = Bare(text: string) | Single(text: string) | Double(text: string)

  predicate BlankChar(c: char) { c == ' ' || c == '\t' }

  /** Bare pieces have no blanks and no quotes; in quotes everything may stand but the quote itself. */
  ghost predicate PieceOk(p: Piece) {
    NulFree(p.text) &&
    match p
    case Bare(t) => forall i | 0 <= i < |t| :: !BlankChar(t[i]) && t[i] != '\'' && t[i] != '"'
    case Single(t) => '\'' !in t
    case Double(t) => '"' !in t
  }

  ghost predicate PiecesOk(ps: seq<Piece>) { forall i | 0 <= i < |ps| :: PieceOk(ps[i]) }

  function RenderPiece(p: Piece): string {
    match p
    case Bare(t) => t
    case Single(t) => "'" + t + "'"
    case Double(t) => "\"" + t + "\""
  }

  function Render(ps: seq<Piece>): string { if ps == [] then "" else RenderPiece(ps[0]) + Render(ps[1..]) }

  function Meant(ps: seq<Piece>): string { if ps == [] then "" else ps[0].text + Meant(ps[1..]) }

  /** Words with what stands before each of them, and what stands at the end. */
  function LineOf(words: seq<seq<Piece>>, gaps: seq<string>, end: string): string
    requires |gaps| == |words|
  {
    if words == [] then end else gaps[0] + Render(words[0]) + LineOf(words[1..], gaps[1..], end)
  }

  function AllMeant(words: seq<seq<Piece>>): seq<string> {
    if words == [] then [] else [Meant(words[0])] + AllMeant(words[1..])
  }

  ghost predicate Blanks(s: string) { forall i | 0 <= i < |s| :: BlankChar(s[i]) }

  /** Words are not empty as written, and blanks are between them. */
  ghost predicate Written(words: seq<seq<Piece>>, gaps: seq<string>, end: string) {
    && |gaps| == |words| && Blanks(end)
    && (forall i | 0 <= i < |words| :: PiecesOk(words[i]) && Render(words[i]) != "" && Blanks(gaps[i]))
    && (forall i | 0 < i < |words| :: gaps[i] != "")
  }

  // ---------- arguments ----------

  lemma {:induction false} TakeBare(t: string, rest: string)
    requires PieceOk(Bare(t))
    ensures TakeArg(t + rest, NUL) == t + TakeArg(rest, NUL) && DropArg(t + rest, NUL) == DropArg(rest, NUL)
  {
    if t == "" {
      assert t + rest == rest;
    } else {
      assert (t + rest)[1..] == t[1..] + rest;
      TakeBare(t[1..], rest);
    }
  }

  lemma {:induction false} TakeQuoted(t: string, q: char, rest: string)
    requires q != NUL && q !in t && NulFree(t)
    ensures TakeArg(t + [q] + rest, q) == t + TakeArg(rest, NUL) && DropArg(t + [q] + rest, q) == DropArg(rest, NUL)
  {
    var s := t + [q] + rest;
    if t == "" {
      assert s[0] == q && s[1..] == rest;
    } else {
      assert s[0] == t[0] && t[0] in t && s[1..] == t[1..] + [q] + rest;
      TakeQuoted(t[1..], q, rest);
    }
  }

  lemma {:induction false} TakePiece(p: Piece, rest: string)
    requires PieceOk(p)
    ensures TakeArg(RenderPiece(p) + rest, NUL) == p.text + TakeArg(rest, NUL)
    ensures DropArg(RenderPiece(p) + rest, NUL) == DropArg(rest, NUL)
  {
    match p
    case Bare(t) => TakeBare(t, rest);
    case Single(t) => TakeMarked(t, '\'', rest); assert RenderPiece(p) == ['\''] + t + ['\''];
    case Double(t) => TakeMarked(t, '"', rest); assert RenderPiece(p) == ['"'] + t + ['"'];
  }

  lemma {:induction false} TakeMarked(t: string, q: char, rest: string)
    requires q in {'\'', '"'} && q !in t && NulFree(t)
    ensures TakeArg([q] + t + [q] + rest, NUL) == t + TakeArg(rest, NUL)
    ensures DropArg([q] + t + [q] + rest, NUL) == DropArg(rest, NUL)
  {
    var s := [q] + t + [q] + rest;
    assert s[0] == q && s[1..] == t + [q] + rest;
    TakeQuoted(t, q, rest);
  }

  lemma {:induction false} TakeWord(ps: seq<Piece>, rest: string)
    requires PiecesOk(ps) && (rest == "" || BlankChar(rest[0]))
    ensures TakeArg(Render(ps) + rest, NUL) == Meant(ps) && DropArg(Render(ps) + rest, NUL) == rest
  {
    if ps == [] {
      assert "" + rest == rest;
    } else {
      TakeWord(ps[1..], rest);
      TakePiece(ps[0], Render(ps[1..]) + rest);
      assert Render(ps) + rest == RenderPiece(ps[0]) + (Render(ps[1..]) + rest);
    }
  }

  lemma {:induction false} SkipBlanks(gap: string, rest: string)
    requires Blanks(gap) && (rest == "" || !BlankChar(rest[0]))
    ensures Skip(gap + rest) == rest
  {
    if gap == "" {
      assert gap + rest == rest;
    } else {
      assert (gap + rest)[1..] == gap[1..] + rest;
      SkipBlanks(gap[1..], rest);
    }
  }

  lemma {:induction false} RenderStart(ps: seq<Piece>)
    requires PiecesOk(ps) && Render(ps) != ""
    ensures !BlankChar(Render(ps)[0])
  {
    if RenderPiece(ps[0]) == "" {
      RenderStart(ps[1..]);
      assert Render(ps) == Render(ps[1..]);
    }
  }

  lemma {:induction false} LineStart(words: seq<seq<Piece>>, gaps: seq<string>, end: string)
    requires Written(words, gaps, end) && (words != [] ==> gaps[0] != "")
    ensures LineOf(words, gaps, end) == "" || BlankChar(LineOf(words, gaps, end)[0])
  {
    if words != [] { assert LineOf(words, gaps, end)[0] == gaps[0][0]; }
  }

  lemma {:induction false} WrittenRest(words: seq<seq<Piece>>, gaps: seq<string>, end: string)
    requires Written(words, gaps, end) && words != []
    ensures Written(words[1..], gaps[1..], end) && (|words| > 1 ==> gaps[1..][0] != "")
  {
    forall i | 0 <= i < |words| - 1
      ensures PiecesOk(words[1..][i]) && Render(words[1..][i]) != "" && Blanks(gaps[1..][i])
      ensures i > 0 ==> gaps[1..][i] != ""
    {
      assert words[1..][i] == words[i + 1] && gaps[1..][i] == gaps[i + 1];
    }
  }

  /** However words are written, quoted wholly or in part, and spaced, the arguments are what they mean. */
  lemma {:induction false} ArgsOfLine(words: seq<seq<Piece>>, gaps: seq<string>, end: string)
    requires Written(words, gaps, end)
    ensures Args(LineOf(words, gaps, end)) == AllMeant(words)
    decreases |words|
  {
    if words == [] {
      SkipBlanks(end, "");
      assert end + "" == end;
    } else {
      var rest := LineOf(words[1..], gaps[1..], end);
      WrittenRest(words, gaps, end);
      LineStart(words[1..], gaps[1..], end);
      var word := Render(words[0]);
      assert PiecesOk(words[0]) && Blanks(gaps[0]);
      RenderStart(words[0]);
      assert (word + rest)[0] == word[0];
      SkipBlanks(gaps[0], word + rest);
      assert LineOf(words, gaps, end) == gaps[0] + (word + rest);
      TakeWord(words[0], rest);
      ArgsOfLine(words[1..], gaps[1..], end);
    }
  }

  // ---------- bars and redirects ----------

  /** Text of a command: bare pieces without quotes, and anything in quotes. */
  ghost predicate Closes(p: Piece) {
    match p
    case Bare(t) => forall i | 0 <= i < |t| :: t[i] != '\'' && t[i] != '"'
    case Single(t) => '\'' !in t && NulFree(t)
    case Double(t) => '"' !in t && NulFree(t)
  }

  ghost predicate AllClose(ps: seq<Piece>) { forall i | 0 <= i < |ps| :: Closes(ps[i]) }

  /** The character stands outside quotes. */
  ghost predicate Shows(ps: seq<Piece>, c: char) { exists i | 0 <= i < |ps| :: ps[i].Bare? && c in ps[i].text }

  lemma {:induction false} ThroughBare(t: string, rest: string, c: char)
    requires Closes(Bare(t)) && !QuoteMark(c)
    ensures QuoteAfter(t + rest, NUL) == QuoteAfter(rest, NUL)
    ensures HasUnquoted(t + rest, NUL, c) <==> c in t || HasUnquoted(rest, NUL, c)
  {
    if t == "" {
      assert t + rest == rest;
    } else {
      assert (t + rest)[1..] == t[1..] + rest && t == [t[0]] + t[1..];
      ThroughBare(t[1..], rest, c);
    }
  }

  lemma {:induction false} ThroughQuoted(t: string, q: char, rest: string, c: char)
    requires q in {'\'', '"'} && q !in t && NulFree(t) && !QuoteMark(c)
    ensures QuoteAfter(t + [q] + rest, q) == QuoteAfter(rest, NUL)
    ensures HasUnquoted(t + [q] + rest, q, c) <==> HasUnquoted(rest, NUL, c)
  {
    var s := t + [q] + rest;
    if t == "" {
      assert s[0] == q && s[1..] == rest;
    } else {
      assert s[0] == t[0] && t[0] in t && s[1..] == t[1..] + [q] + rest;
      ThroughQuoted(t[1..], q, rest, c);
    }
  }

  lemma {:induction false} ThroughPiece(p: Piece, rest: string, c: char)
    requires Closes(p) && !QuoteMark(c)
    ensures QuoteAfter(RenderPiece(p) + rest, NUL) == QuoteAfter(rest, NUL)
    ensures HasUnquoted(RenderPiece(p) + rest, NUL, c) <==> (p.Bare? && c in p.text) || HasUnquoted(rest, NUL, c)
  {
    if p.Bare? {
      ThroughBare(p.text, rest, c);
    } else {
      var q := if p.Single? then '\'' else '"';
      var s := RenderPiece(p) + rest;
      assert s[0] == q && s[1..] == p.text + [q] + rest;
      ThroughQuoted(p.text, q, rest, c);
    }
  }

  /** A bar or a redirect counts exactly if it stands outside quotes, of either kind; and quotes that are closed stay
      closed. */
  lemma {:induction false} QuotesHide(ps: seq<Piece>, c: char)
    requires AllClose(ps) && !QuoteMark(c)
    ensures QuoteAfter(Render(ps), NUL) == NUL
    ensures HasUnquoted(Render(ps), NUL, c) <==> Shows(ps, c)
  {
    if ps != [] {
      QuotesHide(ps[1..], c);
      ThroughPiece(ps[0], Render(ps[1..]), c);
      if Shows(ps[1..], c) {
        var i :| 0 <= i < |ps[1..]| && ps[1..][i].Bare? && c in ps[1..][i].text;
        assert ps[i + 1] == ps[1..][i];
      }
      if i :| 0 <= i < |ps| && ps[i].Bare? && c in ps[i].text {
        if i > 0 { assert ps[1..][i - 1] == ps[i]; }
      }
    }
  }

  /** A command without bars and redirects outside quotes. */
  ghost predicate Clear(ps: seq<Piece>) { AllClose(ps) && !Shows(ps, '|') && !Shows(ps, '>') }

  lemma {:induction false} RenderMore(ps: seq<Piece>, t: string)
    ensures Render(ps + [Bare(t)]) == Render(ps) + t
  {
    if ps == [] {
      assert ps + [Bare(t)] == [Bare(t)] && [Bare(t)][1..] == [];
      assert Render([Bare(t)]) == t + "";
    } else {
      assert (ps + [Bare(t)])[1..] == ps[1..] + [Bare(t)];
      RenderMore(ps[1..], t);
    }
  }

  lemma {:induction false} ShowsMore(ps: seq<Piece>, t: string, c: char)
    requires AllClose(ps) && Closes(Bare(t))
    ensures AllClose(ps + [Bare(t)]) && (Shows(ps + [Bare(t)], c) <==> Shows(ps, c) || c in t)
  {
    var more := ps + [Bare(t)];
    assert more[|ps|] == Bare(t);
    if i :| 0 <= i < |ps| && ps[i].Bare? && c in ps[i].text { assert more[i] == ps[i]; }
    if i :| 0 <= i < |more| && more[i].Bare? && c in more[i].text { if i < |ps| { assert ps[i] == more[i]; } }
  }

  /** A line without bars and redirects outside quotes is run as it is. */
  lemma {:induction false} PlainOutcome<W>(o: Outside<W>, w: W, ps: seq<Piece>, size: nat)
    requires Clear(ps)
    ensures var r := o.run(w, Render(ps), "", false);
      Outcome(o, w, Render(ps), size) == (r.0, Clip(r.1, size))
  {
    QuotesHide(ps, '|');
    QuotesHide(ps, '>');
  }

  /** A file name as it may stand behind a redirect. */
  ghost predicate NameOk(f: string) {
    f != "" && forall i | 0 <= i < |f| :: f[i] !in {' ', '\t', '\r', '\n', '>', '<', '|', '\'', '"'}
  }

  lemma {:induction false} OneStage(line: string)
    requires !HasUnquoted(line, NUL, '|')
    ensures Stages(line) == [line]
  {
    UntilUnquotedMeans(line, NUL, '|');
  }

  lemma {:induction false} BlankSpace(gap: string, f: string)
    requires Blanks(gap) && NameOk(f)
    ensures Trim(gap + f) == f && TrimEnd(gap + f) == gap + f
  {
    SkipBlanks(gap, f);
    assert (gap + f)[|gap + f|-1] == f[|f|-1];
  }

  /** Where the redirect of such a line is, and what is behind it. */
  lemma {:induction false} RedirectParts(c: string, behind: string)
    requires !HasUnquoted(c, NUL, '>') && QuoteAfter(c, NUL) == NUL
    requires behind != "" && !Space(behind[|behind|-1])
    ensures var line := c + ['>'] + behind;
      && TrimEnd(line) == line && RedirectAt(line) == |c| && HasRedirect(line)
      && RedirectText(line) == behind && CommandOf(line) == c
  {
    var line := c + ['>'] + behind;
    assert line[|line|-1] == behind[|behind|-1];
    UntilUnquotedConcat(c, NUL, '>', behind);
    assert line[|c| + 1..] == behind && line[..|c|] == c;
  }

  lemma {:induction false} LineParts(ps: seq<Piece>, behind: string)
    requires Clear(ps) && Closes(Bare(behind)) && '|' !in behind
    ensures var line := Render(ps) + ['>'] + behind;
      && !HasUnquoted(line, NUL, '|') && HasUnquoted(line, NUL, '>')
      && !HasUnquoted(Render(ps), NUL, '>') && QuoteAfter(Render(ps), NUL) == NUL
  {
    var t := ['>'] + behind;
    assert Render(ps) + t == Render(ps) + ['>'] + behind;
    RedirectChars(behind);
    ShowsBehind(ps, t, '|');
    ShowsBehind(ps, t, '>');
    QuotesHide(ps, '>');
  }

  lemma {:induction false} RedirectChars(behind: string)
    requires Closes(Bare(behind)) && '|' !in behind
    ensures var t := ['>'] + behind; '>' in t && '|' !in t && Closes(Bare(t))
  {
    var t := ['>'] + behind;
    assert t[0] == '>';
    forall i | 0 <= i < |t| ensures t[i] != '|' && t[i] != '\'' && t[i] != '"' {
      if i > 0 { assert t[i] == behind[i - 1]; }
    }
  }

  lemma {:induction false} ShowsBehind(ps: seq<Piece>, t: string, c: char)
    requires AllClose(ps) && Closes(Bare(t)) && !QuoteMark(c)
    ensures HasUnquoted(Render(ps) + t, NUL, c) <==> Shows(ps, c) || c in t
  {
    RenderMore(ps, t);
    ShowsMore(ps, t, c);
    QuotesHide(ps + [Bare(t)], c);
  }

  function Behind(append: bool, gap: string, f: string): string { (if append then ">" else "") + (gap + f) }

  lemma {:induction false} BehindParts(append: bool, gap: string, f: string)
    requires Blanks(gap) && NameOk(f)
    ensures var b := Behind(append, gap, f);
      && b != "" && !Space(b[|b|-1]) && Closes(Bare(b)) && '|' !in b
      && (b[0] == '>' <==> append) && (append ==> b[1..] == gap + f)
  {
    var b := Behind(append, gap, f);
    assert forall i | 0 <= i < |b| :: b[i] == '>' || BlankChar(b[i]) || b[i] in f;
    assert b[|b|-1] == f[|f|-1];
    if !append { assert b == gap + f; if gap == "" { assert b[0] == f[0]; } }
  }

  /** What is made of a line with one redirect. */
  ghost predicate Redirects(line: string, cmd: string, append: bool, f: string) {
    && Stages(line) == [line] && HasRedirect(line) && TrimEnd(line) == line && '>' in line
    && !HasUnquoted(line, NUL, '|') && HasUnquoted(line, NUL, '>')
    && FileOk(f) && TargetFile(line) == f && CommandOf(line) == cmd && Appends(line) == append
  }

  lemma {:induction false} RedirectRead(ps: seq<Piece>, append: bool, gap: string, f: string)
    requires Clear(ps) && Blanks(gap) && NameOk(f)
    ensures Redirects(Render(ps) + ['>'] + Behind(append, gap, f), Render(ps), append, f)
  {
    var b := Behind(append, gap, f);
    var line := Render(ps) + ['>'] + b;
    BehindParts(append, gap, f);
    LineParts(ps, b);
    RedirectParts(Render(ps), b);
    OneStage(line);
    TargetRead(line, append, gap, f);
    assert line[|Render(ps)|] == '>';
  }

  lemma {:induction false} TargetRead(line: string, append: bool, gap: string, f: string)
    requires Blanks(gap) && NameOk(f) && HasRedirect(line) && RedirectText(line) == Behind(append, gap, f)
    ensures Appends(line) == append && TargetFile(line) == f && FileOk(f)
  {
    BehindParts(append, gap, f);
    BlankSpace(gap, f);
    assert !append ==> Behind(append, gap, f) == gap + f;
    forall c | c in f ensures c !in " \t><|" { FileChars(c); }
  }

  lemma {:induction false} FileChars(c: char)
    ensures c in " \t><|" <==> c in {' ', '\t', '>', '<', '|'}
  {
    var s := " \t><|";
    assert s[0] == ' ' && s[1] == '\t' && s[2] == '>' && s[3] == '<' && s[4] == '|' && |s| == 5;
  }

  /** The output of a command with one redirect goes to the file behind it, without returns: `>` replaces the file,
      `>>` appends to it. */
  lemma {:induction false} RedirectOutcome<W>(o: Outside<W>, w: W, ps: seq<Piece>, append: bool, gap: string, f: string,
                                              size: nat)
    requires Clear(ps) && Blanks(gap) && NameOk(f)
    ensures var line := Render(ps) + ['>'] + ((if append then ">" else "") + (gap + f));
      Outcome(o, w, line, size) ==
      if !o.copy || !o.buffers then (w, Clip("out of memory\r\n", size))
      else
        var r := o.run(w, Trim(Render(ps)), "", false);
        var t := o.store(r.0, f, append, NoReturns(Clip(r.1, size)));
        (t.0, Clip(t.1, size))
  {
    RedirectRead(ps, append, gap, f);
    OneCommand(o, w, Render(ps) + ['>'] + Behind(append, gap, f), Render(ps), append, f, size);
  }

  lemma {:induction false} SkipKeeps(s: string, c: char)
    requires !BlankChar(c) && c in s
    ensures c in Skip(s)
  {
    if s != "" && Blank(s[0]) {
      assert s == [s[0]] + s[1..];
      SkipKeeps(s[1..], c);
    }
  }

  lemma {:induction false} TrimEndKeeps(s: string, c: char)
    requires !Space(c) && c in s
    ensures c in TrimEnd(s)
  {
    if s != "" && Space(s[|s|-1]) {
      assert s == s[..|s|-1] + [s[|s|-1]];
      TrimEndKeeps(s[..|s|-1], c);
    }
  }

  lemma {:induction false} OneCommand<W>(o: Outside<W>, w: W, line: string, cmd: string, append: bool, f: string,
                                         size: nat)
    requires Redirects(line, cmd, append, f)
    ensures Outcome(o, w, line, size) ==
            if !o.copy || !o.buffers then (w, Clip(NO_MEMORY, size))
            else
              var r := o.run(w, Trim(cmd), "", false);
              var t := o.store(r.0, f, append, NoReturns(Clip(r.1, size)));
              (t.0, Clip(t.1, size))
  {
    SkipKeeps(line, '>');
    TrimEndKeeps(Skip(line), '>');
    var p := [line];
    assert Problem(p) == "";
    assert Commands(p) == [cmd];
  }

  lemma {:induction false} NoReturnsConcat(a: string, b: string)
    ensures NoReturns(a + b) == NoReturns(a) + NoReturns(b)
  {
    if a == "" {
      assert a + b == b;
    } else {
      assert (a + b)[1..] == a[1..] + b;
      NoReturnsConcat(a[1..], b);
    }
  }

  lemma {:induction false} NoReturnsKeeps(a: string)
    requires '\r' !in a
    ensures NoReturns(a) == a
  {
    if a != "" {
      assert a == [a[0]] + a[1..] && a[0] in a;
      NoReturnsKeeps(a[1..]);
    }
  }

  /** Returns are taken out of what is stored, and nothing else. */
  lemma {:induction false} NoReturnsMeans(a: string, b: string)
    ensures '\r' !in a ==> NoReturns(a) == a
    ensures NoReturns(a + "\r" + b) == NoReturns(a) + NoReturns(b)
  {
    if '\r' !in a { NoReturnsKeeps(a); }
    NoReturnsConcat(a + "\r", b);
    NoReturnsConcat(a, "\r");
    assert "\r"[1..] == "";
  }

  /** A command that is not blank, without bars and redirects outside quotes. */
  ghost predicate Runs(ps: seq<Piece>) { Clear(ps) && Trim(Render(ps)) != "" }

  lemma {:induction false} ClearStage(ps: seq<Piece>)
    requires Clear(ps)
    ensures Closed(Render(ps)) && Stages(Render(ps)) == [Render(ps)] && !HasRedirect(Render(ps))
  {
    QuotesHide(ps, '|');
    QuotesHide(ps, '>');
    OneStage(Render(ps));
    NoneInTrimmed(Render(ps), '>');
  }

  lemma {:induction false} NoneInTrimmed(s: string, c: char)
    requires !HasUnquoted(s, NUL, c) && !QuoteMark(c)
    ensures UntilUnquoted(TrimEnd(s), NUL, c) == |TrimEnd(s)|
  {
    NoneInPrefix(s, TrimEnd(s), NUL, c);
    UntilUnquotedMeans(TrimEnd(s), NUL, c);
  }

  lemma {:induction false} NoneInPrefix(s: string, t: string, q: char, c: char)
    requires !HasUnquoted(s, q, c) && t <= s
    ensures !HasUnquoted(t, q, c)
  {
    if t != "" { NoneInPrefix(s[1..], t[1..], After(s[0], q), c); }
  }

  /** Two commands with a bar between them: the second one reads what the first one has put out. */
  lemma {:induction false} PipeOutcome<W>(o: Outside<W>, w: W, a: seq<Piece>, b: seq<Piece>, size: nat)
    requires Runs(a) && Runs(b)
    ensures Outcome(o, w, Render(a) + ['|'] + Render(b), size) ==
            if !o.copy || !o.buffers then (w, Clip("out of memory\r\n", size))
            else
              var r := o.run(w, Trim(Render(a)), "", false);
              var t := o.run(r.0, Trim(Render(b)), Clip(r.1, size), true);
              (t.0, Clip(t.1, size))
  {
    var x, y := Render(a), Render(b);
    var line := x + ['|'] + y;
    ClearStage(a);
    ClearStage(b);
    StagesOfCut(x, y);
    assert Stages(line) == [x, y] by { assert [x] + [y] == [x, y]; }
    HasBar(x, y);
    TwoStages(o, w, line, x, y, size);
  }

  lemma {:induction false} TwoStages<W>(o: Outside<W>, w: W, line: string, x: string, y: string, size: nat)
    requires Stages(line) == [x, y] && HasUnquoted(line, NUL, '|') && !HasRedirect(x) && !HasRedirect(y)
    requires Trim(x) != "" && Trim(y) != ""
    ensures Outcome(o, w, line, size) ==
            if !o.copy || !o.buffers then (w, Clip(NO_MEMORY, size))
            else
              var r := o.run(w, Trim(x), "", false);
              var t := o.run(r.0, Trim(y), Clip(r.1, size), true);
              (t.0, Clip(t.1, size))
  {
    var p := [x, y];
    assert Problem(p) == "";
    TwoCommands(o, w, x, y, size);
  }

  lemma {:induction false} HasBar(x: string, y: string)
    requires Closed(x)
    ensures HasUnquoted(x + ['|'] + y, NUL, '|')
  {
    UntilUnquotedConcat(x, NUL, '|', y);
    UntilUnquotedMeans(x + ['|'] + y, NUL, '|');
  }

  lemma {:induction false} TrimEndTwice(s: string)
    ensures TrimEnd(TrimEnd(s)) == TrimEnd(s)
    ensures Trim(TrimEnd(s)) == Trim(s)
  {
    if s != "" && Space(s[|s|-1]) {
      TrimEndTwice(s[..|s|-1]);
      SkipThenTrim(s[..|s|-1], s[|s|-1]);
      assert s == s[..|s|-1] + [s[|s|-1]];
    }
  }

  /** A space more at the end makes no difference to a trimmed text. */
  lemma {:induction false} SkipThenTrim(s: string, c: char)
    requires Space(c)
    ensures TrimEnd(Skip(s + [c])) == TrimEnd(Skip(s))
  {
    var t := s + [c];
    if s == "" {
      assert t == [c] && [c][1..] == "" && [c][..0] == "";
    } else if Blank(s[0]) {
      assert t[1..] == s[1..] + [c];
      SkipThenTrim(s[1..], c);
    } else {
      assert t[..|t|-1] == s;
    }
  }

  lemma {:induction false} TwoCommands<W>(o: Outside<W>, w: W, x: string, y: string, size: nat)
    requires !HasRedirect(y)
    ensures Composed(o.run, w, Commands([x, y]), "", false, size) ==
            var r := o.run(w, Trim(x), "", false);
            var t := o.run(r.0, Trim(y), Clip(r.1, size), true);
            (t.0, Clip(t.1, size))
  {
    var c := Commands([x, y]);
    assert c == [x, TrimEnd(y)] && c[1..] == [TrimEnd(y)];
    TrimEndTwice(y);
  }

  /** What is complained about, in which words. */
  lemma {:induction false} Complaints<W>(o: Outside<W>, w: W, line: string, size: nat)
    requires (HasUnquoted(line, NUL, '|') || HasUnquoted(line, NUL, '>')) && o.copy
    ensures var p, said := Stages(line), Outcome(o, w, line, size);
      && (|p| > 6 ==> said == (w, Clip("too many pipes (max 5)\r\n", size)))
      && (|p| <= 6 && (exists k :: 0 <= k < |p| && Trim(p[k]) == "") ==>
            said == (w, Clip("syntax error: empty command\r\n", size)))
      && (|p| <= 6 && (forall k | 0 <= k < |p| :: Trim(p[k]) != "") &&
          (exists k :: 0 <= k < |p| - 1 && HasUnquoted(TrimEnd(p[k]), NUL, '>')) ==>
            said == (w, Clip("syntax error: redirect only after the last command\r\n", size)))
  {
    var p := Stages(line);
    forall k | 0 <= k < |p| ensures HasRedirect(p[k]) <==> HasUnquoted(TrimEnd(p[k]), NUL, '>') {
      UntilUnquotedMeans(TrimEnd(p[k]), NUL, '>');
    }
  }

  /** What is behind a redirect must be one name. */
  lemma {:induction false} BadFileComplaint<W>(o: Outside<W>, w: W, ps: seq<Piece>, behind: string, size: nat)
    requires Clear(ps) && o.copy && Closes(Bare(behind)) && '|' !in behind
    requires behind != "" && !Space(behind[|behind|-1]) && behind[0] != '>'
    requires exists i | 0 <= i < |Trim(behind)| :: Trim(behind)[i] in {' ', '\t', '>', '<'}
    ensures Outcome(o, w, Render(ps) + ['>'] + behind, size) ==
            (w, Clip("syntax error: expected one file name after >\r\n", size))
  {
    LineParts(ps, behind);
    OneStage(Render(ps) + ['>'] + behind);
    BadFileProblem(Render(ps), behind);
  }

  lemma {:induction false} BadFileProblem(c: string, behind: string)
    requires !HasUnquoted(c, NUL, '>') && QuoteAfter(c, NUL) == NUL
    requires behind != "" && !Space(behind[|behind|-1]) && behind[0] != '>'
    requires exists i | 0 <= i < |Trim(behind)| :: Trim(behind)[i] in {' ', '\t', '>', '<'}
    ensures Problem([c + ['>'] + behind]) == BAD_FILE
  {
    var line := c + ['>'] + behind;
    RedirectParts(c, behind);
    SkipKeeps(line, '>');
    TrimEndKeeps(Skip(line), '>');
    var i :| 0 <= i < |Trim(behind)| && Trim(behind)[i] in {' ', '\t', '>', '<'};
    FileChars(Trim(behind)[i]);
    assert !FileOk(Trim(behind));
  }
}
