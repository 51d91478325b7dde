/** The pipeline front end as written: bars cut in a copy of the line, then checks, the redirect and the run. */
module ShellPipeline {
  import opened CText
  import opened CBuffer
  import opened ShellWords
  import opened ShellPipe

  // ---------- what a line asks for ----------

  function RedirectAt(s: string): nat { UntilUnquoted(TrimEnd(s), NUL, '>') }

  predicate HasRedirect(s: string) { RedirectAt(s) < |TrimEnd(s)| }

  /** What follows the first unquoted `>`. */
  function RedirectText(s: string): string
    requires HasRedirect(s)
  {
    TrimEnd(s)[RedirectAt(s) + 1..]
  }

  predicate Appends(s: string)
    requires HasRedirect(s)
  {
    RedirectText(s) != "" && RedirectText(s)[0] == '>'
  }

  function TargetFile(s: string): string
    requires HasRedirect(s)
  {
    Trim(if Appends(s) then RedirectText(s)[1..] else RedirectText(s))
  }

  predicate FileOk(f: string) { f != "" && forall c | c in f :: c !in " \t><|" }

  function CommandOf(s: string): string { TrimEnd(s)[..RedirectAt(s)] }

  const TOO_MANY: string := "too many pipes (max 5)\r\n"
  const EMPTY: string := "syntax error: empty command\r\n"
  const EARLY: string := "syntax error: redirect only after the last command\r\n"
  const BAD_FILE: string := "syntax error: expected one file name after >\r\n"
  const NO_MEMORY: string := "out of memory\r\n"

  /** The first complaint about a line cut into stages; none if it can be run. */
  function Problem(p: seq<string>): string
    requires p != []
  {
    var last := p[|p|-1];
    if |p| > MAX_STAGES then TOO_MANY
    else if exists k :: 0 <= k < |p| && Trim(p[k]) == "" then EMPTY
    else if exists k :: 0 <= k < |p| - 1 && HasRedirect(p[k]) then EARLY
    else if HasRedirect(last) && !FileOk(TargetFile(last)) then BAD_FILE
    else ""
  }

  /** The stages as they are run: the last one without its redirect. */
  function Commands(p: seq<string>): (c: seq<string>)
    requires p != []
    ensures c != []
  {
    p[|p|-1 := if HasRedirect(p[|p|-1]) then CommandOf(p[|p|-1]) else TrimEnd(p[|p|-1])]
  }

  function NoReturns(s: string): string {
    if s == "" then "" else (if s[0] == '\r' then [] else [s[0]]) + NoReturns(s[1..])
  }

  // ---------- the code ----------

  method HasUnquotedLoop(line: string, c: char) returns (has: bool)
    requires NulFree(line) && !QuoteMark(c)
    ensures has == HasUnquoted(line, NUL, c)
  {
    var q := NUL;
    ghost var rest := line;
    for i := 0 to |line|
      invariant rest == line[i..] && HasUnquoted(line, NUL, c) == HasUnquoted(rest, q, c)
    {
      assert rest[0] == line[i] && line[i] in line;
      rest := rest[1..];
      if q != NUL {
        if line[i] == q { q := NUL; }
      } else if line[i] == '\'' || line[i] == '"' {
        q := line[i];
      } else if line[i] == c {
        return true;
      }
    }
    return false;
  }

  /** Where the loop stands inside the current stage. */
  ghost predicate Scanning(s: string, k: nat, more: string, q: char) {
    && k + |more| == |s| && (forall i | 0 <= i < |more| :: more[i] == s[k + i])
    && UntilUnquoted(s, NUL, '|') == k + UntilUnquoted(more, q, '|')
  }

  /** The stages cut so far, and the one being scanned. */
  ghost predicate CutSoFar(work: array<char>, stage: seq<nat>, done: seq<string>, start: nat, cur: string)
    reads work
  {
    && |stage| == |done| + 1 && stage[|done|] == start && Holds(work, start, cur)
    && forall k | 0 <= k < |done| :: stage[k] + |done[k]| < start && Holds(work, stage[k], done[k])
  }

  /** The stages cut so far and those of the rest are those of the line. */
  ghost predicate LeftToCut(done: seq<string>, cur: string, all: seq<string>) { done + Stages(cur) == all }

  /** Cuts at a bar, unless the table is full. */
  method CutBar(work: array<char>, stage: seq<nat>, start: nat, k: nat, ghost done: seq<string>, ghost cur: string,
                ghost all: seq<string>) returns (ok: bool, more: seq<nat>, ghost done2: seq<string>)
    requires CutSoFar(work, stage, done, start, cur) && k == UntilUnquoted(cur, NUL, '|') < |cur|
    requires LeftToCut(done, cur, all) && |stage| <= MAX_STAGES
    modifies work
    ensures !ok ==> |all| > MAX_STAGES
    ensures ok ==> |more| <= MAX_STAGES && CutSoFar(work, more, done2, start + k + 1, cur[k + 1..])
    ensures ok ==> LeftToCut(done2, cur[k + 1..], all)
  {
    StageFound(done, cur, k, all);
    done2 := done + [cur[..k]];
    if |stage| >= MAX_STAGES { return false, stage, done2; }
    Cut(work, start, k, cur);
    ok, more := true, stage + [start + k + 1];
  }

  /** Cuts the copy of the line at its unquoted bars; fails at the sixth. */
  method CutStages(work: array<char>, ghost line: string) returns (ok: bool, stage: seq<nat>)
    requires Holds(work, 0, line)
    modifies work
    ensures ok <==> |Stages(line)| <= MAX_STAGES
    ensures ok ==> |stage| == |Stages(line)| && forall k | 0 <= k < |stage| :: Holds(work, stage[k], Stages(line)[k])
  {
    var q, p: nat, start: nat := NUL, 0, 0;
    stage := [0];
    ghost var done: seq<string>, cur, more := [], line, line;
    ghost var all := Stages(line);
    assert [] + all == all;
    ok := true;
    while work[p] != NUL
      invariant |stage| <= MAX_STAGES && start <= p && CutSoFar(work, stage, done, start, cur)
      invariant Scanning(cur, p - start, more, q) && LeftToCut(done, cur, all)
      decreases work.Length - p
    {
      CharAt(work, start, cur, p - start, more);
      ScanStep(cur, p - start, more, q);
      if q != NUL || work[p] != '|' {
        q, more := After(work[p], q), more[1..];
      } else {
        ghost var k := p - start;
        ok, stage, done := CutBar(work, stage, start, p - start, done, cur, all);
        if !ok { return; }
        cur, start := cur[k + 1..], p + 1;
        more := cur;
      }
      p := p + 1;
    }
    CharAt(work, start, cur, p - start, more);
    StagesEnd(done, cur, all);
  }

  lemma {:induction false} ScanStep(s: string, k: nat, more: string, q: char)
    requires Scanning(s, k, more, q) && more != ""
    ensures q == NUL && more[0] == '|' ==> UntilUnquoted(s, NUL, '|') == k
    ensures !(q == NUL && more[0] == '|') ==> Scanning(s, k + 1, more[1..], After(more[0], q))
    ensures Scanning(s[k + 1..], 0, s[k + 1..], NUL)
  {
  }

  lemma {:induction false} StagesEnd(done: seq<string>, cur: string, all: seq<string>)
    requires LeftToCut(done, cur, all) && UntilUnquoted(cur, NUL, '|') == |cur|
    ensures all == done + [cur]
  {
  }

  lemma CharAt(work: array<char>, start: nat, cur: string, k: nat, more: string)
    requires Holds(work, start, cur) && k + |more| == |cur| && (forall i | 0 <= i < |more| :: more[i] == cur[k + i])
    ensures if more == "" then work[start + k] == NUL else work[start + k] == more[0] == cur[k] != NUL
  {
    if more != "" { assert more[0] == cur[k + 0]; assert work[start + k] == cur[k]; }
  }

  lemma {:induction false} StageFound(done: seq<string>, cur: string, k: nat, all: seq<string>)
    requires k == UntilUnquoted(cur, NUL, '|') < |cur| && LeftToCut(done, cur, all)
    ensures LeftToCut(done + [cur[..k]], cur[k + 1..], all)
    ensures |done| + 1 >= MAX_STAGES ==> |all| > MAX_STAGES
  {
    StagesOpen(cur, k);
    Regroup(done, cur[..k], Stages(cur[k + 1..]));
  }

  lemma {:induction false} StagesOpen(cur: string, k: nat)
    requires k == UntilUnquoted(cur, NUL, '|') < |cur|
    ensures Stages(cur) == [cur[..k]] + Stages(cur[k + 1..])
  {
  }

  lemma Regroup(a: seq<string>, x: string, b: seq<string>)
    ensures a + ([x] + b) == (a + [x]) + b
  {
  }

  // ---------- the whole line ----------

  /** Everything outside the line: how commands run, how a file is written, and whether memory is there. */
  datatype Outside<!W> = Outside(run: Runner<W>, store: (W, string, bool, string) -> (W, string),
                                 copy: bool, buffers: bool)

  function Stored<W>(o: Outside<W>, w: W, p: seq<string>, last: string, size: nat): (W, string)
    requires p != [] && HasRedirect(p[|p|-1])
  {
    var r := o.store(w, TargetFile(p[|p|-1]), Appends(p[|p|-1]), NoReturns(last));
    (r.0, Clip(r.1, size))
  }

  /** What a line does to the world and leaves as output. */
  function Outcome<W>(o: Outside<W>, w: W, line: string, size: nat): (W, string) {
    var p := Stages(line);
    if !HasUnquoted(line, NUL, '|') && !HasUnquoted(line, NUL, '>') then
      var r := o.run(w, line, "", false);
      (r.0, Clip(r.1, size))
    else if !o.copy then (w, Clip(NO_MEMORY, size))
    else if Problem(p) != "" then (w, Clip(Problem(p), size))
    else if !o.buffers then (w, Clip(NO_MEMORY, size))
    else
      var r := Composed(o.run, w, Commands(p), "", false, size);
      if HasRedirect(p[|p|-1]) then Stored(o, r.0, p, r.1, size) else r
  }

  method FirstRedirect(s: string) returns (n: nat)
    requires NulFree(s)
    ensures n == UntilUnquoted(s, NUL, '>')
  {
    var q := NUL;
    ghost var rest := s;
    n := 0;
    while n < |s|
      invariant n <= |s| && rest == s[n..] && UntilUnquoted(s, NUL, '>') == n + UntilUnquoted(rest, q, '>')
    {
      assert rest[0] == s[n] && s[n] in s;
      if q != NUL {
        if s[n] == q { q := NUL; }
      } else if s[n] == '\'' || s[n] == '"' {
        q := s[n];
      } else if s[n] == '>' {
        return;
      }
      n, rest := n + 1, rest[1..];
    }
  }

  /** The checks between cutting and running, in their order. */
  method CheckStages(p: seq<string>) returns (problem: string)
    requires p != [] && |p| <= MAX_STAGES && forall k | 0 <= k < |p| :: NulFree(p[k])
    ensures problem == Problem(p)
  {
    for i := 0 to |p|
      invariant forall k | 0 <= k < i :: Trim(p[k]) != ""
    {
      if Trim(p[i]) == "" { return EMPTY; }
    }
    for i := 0 to |p|
      invariant forall k | 0 <= k < i :: !HasRedirect(p[k])
    {
      var n := FirstRedirect(TrimEnd(p[i]));
      if n < |TrimEnd(p[i])| {
        if i != |p| - 1 { return EARLY; }
        var file := TargetFile(p[i]);
        return if FileOk(file) then "" else BAD_FILE;
      }
    }
    return "";
  }

  method Pipeline<W>(o: Outside<W>, world: W, line: string, size: nat) returns (w: W, out: string)
    requires NulFree(line) && size > 0
    ensures (w, out) == Outcome(o, world, line, size)
  {
    var bar := HasUnquotedLoop(line, '|');
    var redirect := HasUnquotedLoop(line, '>');
    w := world;
    if !bar && !redirect {
      var r := o.run(world, line, "", false);
      return r.0, Clip(r.1, size);
    }
    if !o.copy { return w, Clip(NO_MEMORY, size); }
    var work := Copied(line, 0);
    var ok, stage := CutStages(work, line);
    if !ok { return w, Clip(TOO_MANY, size); }
    var p := ReadStages(work, stage, Stages(line));
    var problem := CheckStages(p);
    if problem != "" { return w, Clip(problem, size); }
    if !o.buffers { return w, Clip(NO_MEMORY, size); }
    var redirected := HasRedirect(p[|p|-1]);
    var last;
    w, last, out := RunStages(o.run, world, Commands(p), size, redirected);
    if redirected {
      var r := Stored(o, w, p, last, size);
      w, out := r.0, r.1;
    }
  }

  method ReadStages(work: array<char>, stage: seq<nat>, ghost texts: seq<string>) returns (p: seq<string>)
    requires |stage| == |texts| && forall k | 0 <= k < |stage| :: Holds(work, stage[k], texts[k])
    ensures p == texts && forall k | 0 <= k < |p| :: NulFree(p[k])
  {
    p := [];
    for i := 0 to |stage|
      invariant |p| == i && (forall k | 0 <= k < i :: p[k] == texts[k] && NulFree(p[k]))
    {
      assert Holds(work, stage[i], texts[i]);
      var s := Read(work, stage[i], texts[i]);
      p := p + [s];
    }
  }
}
