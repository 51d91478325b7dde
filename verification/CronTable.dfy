/** The job table: what a crontab file loads, and what is run in a minute. */
module CronTable {
  import opened CBuffer
  import opened CScan
  import opened CText
  import opened CronText
  import opened CronJob
  import CronParser

  const FILE_MAX: nat := 2048
  const MAX_JOBS: nat := 16

  predicate Ending(c: char) { c == '\r' || c == ' ' || c == '\t' }

  function TrimEnd(s: string): (r: string)
    ensures r <= s && (r != "" ==> !Ending(r[|r|-1]))
  {
    if s != "" && Ending(s[|s|-1]) then TrimEnd(s[..|s|-1]) else s
  }

  function FirstLine(text: string): string { text[..Until(text, '\n')] }

  function Rest(text: string): (r: string)
    ensures text != "" ==> |r| < |text|
  {
    var n := Until(text, '\n');
    if n < |text| then text[n + 1..] else ""
  }

  /** A line that is a job, taken apart into its five fields and a command; nothing for a blank line, a comment or a bad
      line. */
  ghost function JobLine(line: string): (e: seq<string>)
    ensures e != [] ==> EntryOk(e)
  {
    JobText(Skip(TrimEnd(line)))
  }

  ghost function JobText(t: string): (e: seq<string>)
    ensures e != [] ==> EntryOk(e)
  {
    if t == "" || t[0] == '#' || !EntryOk(Split(t, FIELDS)) then [] else Split(t, FIELDS)
  }

  /** The jobs of a crontab, as many as there is room for; a job has `FIELDS` fields. */
  ghost function Entries(text: string, room: nat): (r: seq<seq<string>>)
    ensures |r| <= room
    decreases |text|
  {
    if text == "" || room == 0 then []
    else
      var e := JobLine(FirstLine(text));
      if e == [] then Entries(Rest(text), room) else [e] + Entries(Rest(text), room - 1)
  }

  ghost predicate AllOk(entries: seq<seq<string>>) { forall k | 0 <= k < |entries| :: EntryOk(entries[k]) }

  ghost predicate AllCompiled(jobs: seq<Job>, entries: seq<seq<string>>) {
    |jobs| == |entries| && forall k | 0 <= k < |jobs| :: EntryOk(entries[k]) && Compiled(jobs[k], entries[k])
  }

  /** The commands of the lines that are due, in the order of the file, each cut to its slot. */
  ghost function DueCommands(entries: seq<seq<string>>, t: Tm): seq<string>
    requires AllOk(entries)
  {
    if entries == [] then []
    else
      assert EntryOk(entries[|entries|-1]);
      DueCommands(entries[..|entries|-1], t) +
      if Due(entries[|entries|-1], t) then [Clip(entries[|entries|-1][5], 96)] else []
  }

  /** What a read of the file leaves in its buffer, up to the terminator. */
  function Loaded(file: string): string { CStr(if |file| <= FILE_MAX then file else file[..FILE_MAX]) }

  // ---------- the code ----------

  method TrimLine(buf: array<char>, p: nat, ghost line: string) returns (t: string)
    requires Holds(buf, p, line)
    modifies buf
    ensures t == Skip(TrimEnd(line)) && NulFree(t)
    ensures forall i | 0 <= i < buf.Length && !(p <= i < p + |line|) :: buf[i] == old(buf[i])
  {
    var n := StrLen(buf, p, line);
    ghost var left := line;
    while n > 0 && (buf[p + n - 1] == '\r' || buf[p + n - 1] == ' ' || buf[p + n - 1] == '\t')
      invariant n == |left| <= |line| && Holds(buf, p, left) && TrimEnd(left) == TrimEnd(line)
      invariant n > 0 ==> buf[p + n - 1] == left[n - 1]
      invariant forall i | 0 <= i < buf.Length && !(p <= i < p + |line|) :: buf[i] == old(buf[i])
    {
      left := left[..n - 1];
      n := n - 1;
      buf[p + n] := NUL;
      assert n > 0 ==> buf[p + (n - 1)] == left[n - 1];
    }
    var s := Read(buf, p, left);
    assert forall i | 0 <= i < |left| :: left[i] == buf[p + i];
    assert NulFree(s);
    var q := SkipWs(s, 0, s);
    t := s[q..];
    assert t == Skip(s);
    assert forall c | c in t :: c in s;
  }

  class Table {
    var jobs: seq<Job>

    /** Reads the file anew; if the buffers cannot be had the table stays as it is. */
    method Reload(file: string, memory: bool) returns (count: int)
      modifies this
      ensures if memory then count == |jobs| && AllCompiled(jobs, Entries(Loaded(file), MAX_JOBS))
              else count == -1 && jobs == old(jobs)
    {
      if !memory { return -1; }
      var loaded := Load(file);
      jobs := loaded;
      count := |jobs|;
    }

    /** The commands run for a minute. Each slot is looked at in a lock section of its own, and the table may be
        exchanged between two: `seen[i]` is the table the i-th one finds. */
    method RunDue(t: Tm, seen: seq<seq<Job>>, ghost lines: seq<seq<seq<string>>>) returns (cmds: seq<string>)
      requires TmOk(t) && |seen| == |lines| == MAX_JOBS
      requires forall i | 0 <= i < MAX_JOBS :: AllCompiled(seen[i], lines[i])
      modifies this
      ensures cmds == DueAcross(lines, t) && jobs == seen[MAX_JOBS - 1]
    {
      cmds := [];
      for i := 0 to |seen|
        invariant cmds == DueAcross(lines[..i], t) && (i > 0 ==> jobs == seen[i - 1])
      {
        jobs := seen[i];
        assert lines[..i + 1][..i] == lines[..i];
        if i < |jobs| {
          MatchesMeansDue(jobs[i], lines[i][i], t);
          if Matches(jobs[i], t) { cmds := cmds + [jobs[i].cmd]; }
        }
      }
      assert lines[..|seen|] == lines;
    }
  }

  /** Slot i of a table, if it is used and due. */
  ghost function DueIn(entries: seq<seq<string>>, i: nat, t: Tm): seq<string> {
    if i < |entries| && EntryOk(entries[i]) && Due(entries[i], t) then [Clip(entries[i][5], 96)] else []
  }

  /** The commands of a minute: of slot 0 as the first table has it, of slot 1 as the second has it, and so on. */
  ghost function DueAcross(lines: seq<seq<seq<string>>>, t: Tm): seq<string> {
    if lines == [] then [] else DueAcross(lines[..|lines|-1], t) + DueIn(lines[|lines|-1], |lines| - 1, t)
  }

  /** If nobody exchanges the table meanwhile, these are the commands of all its lines that are due, in order. */
  lemma {:induction false} DueAcrossOne(entries: seq<seq<string>>, lines: seq<seq<seq<string>>>, t: Tm)
    requires AllOk(entries) && forall i | 0 <= i < |lines| :: lines[i] == entries
    ensures |lines| <= |entries| ==>
              AllOk(entries[..|lines|]) && DueAcross(lines, t) == DueCommands(entries[..|lines|], t)
    ensures |lines| >= |entries| ==> DueAcross(lines, t) == DueCommands(entries, t)
  {
    if lines != [] {
      var n := |lines| - 1;
      DueAcrossOne(entries, lines[..n], t);
      if n < |entries| { DueStep(entries, n, t); }
    }
    assert entries[..|entries|] == entries;
  }

  lemma DueStep(entries: seq<seq<string>>, i: nat, t: Tm)
    requires i < |entries| && AllOk(entries)
    ensures EntryOk(entries[i]) && AllOk(entries[..i]) && AllOk(entries[..i + 1])
    ensures DueCommands(entries[..i + 1], t) ==
            DueCommands(entries[..i], t) + if Due(entries[i], t) then [Clip(entries[i][5], 96)] else []
  {
    assert entries[..i + 1][..i] == entries[..i];
  }

  method Load(file: string) returns (jobs: seq<Job>)
    ensures AllCompiled(jobs, Entries(Loaded(file), MAX_JOBS))
  {
    jobs := LoadText(Loaded(file));
  }

  method LoadText(text: string) returns (jobs: seq<Job>)
    requires NulFree(text)
    ensures AllCompiled(jobs, Entries(text, MAX_JOBS))
  {
    var buf := Copied(text, 0);
    ghost var found;
    jobs, found := LoadLines(buf, text);
  }

  /** Done so far, and what the rest of the text still adds. */
  ghost predicate SoFar(done: seq<seq<string>>, rest: string, all: seq<seq<string>>) {
    |done| <= MAX_JOBS && done + Entries(rest, MAX_JOBS - |done|) == all
  }

  lemma SoFarStart(text: string)
    ensures SoFar([], text, Entries(text, MAX_JOBS))
  {
    assert [] + Entries(text, MAX_JOBS) == Entries(text, MAX_JOBS);
  }

  /** Cuts off and compiles line by line, until the text or the table ends. */
  method LoadLines(buf: array<char>, ghost text: string) returns (jobs: seq<Job>, ghost done: seq<seq<string>>)
    requires Holds(buf, 0, text)
    modifies buf
    ensures AllCompiled(jobs, done) && done == Entries(text, MAX_JOBS)
  {
    jobs, done := [], [];
    var pos := 0;
    ghost var rest, all := text, Entries(text, MAX_JOBS);
    SoFarStart(text);
    while pos >= 0 && buf[pos] != NUL && |jobs| < MAX_JOBS
      invariant |jobs| <= MAX_JOBS && AllCompiled(jobs, done)
      invariant if pos < 0 then rest == "" else Holds(buf, pos, rest)
      invariant SoFar(done, rest, all)
      decreases |rest|
    {
      pos, jobs, done := LoadNext(buf, pos, rest, jobs, done, all);
      rest := Rest(rest);
    }
    EntriesEnd(done, rest, MAX_JOBS - |jobs|, pos < 0 || buf[pos] == NUL);
  }

  method LoadNext(buf: array<char>, pos: nat, ghost rest: string, jobs: seq<Job>, ghost done: seq<seq<string>>,
                  ghost all: seq<seq<string>>)
      returns (next: int, more: seq<Job>, ghost found: seq<seq<string>>)
    requires Holds(buf, pos, rest) && rest != ""
    requires |jobs| < MAX_JOBS && AllCompiled(jobs, done) && SoFar(done, rest, all)
    modifies buf
    ensures if next < 0 then Rest(rest) == "" else Holds(buf, next, Rest(rest))
    ensures |more| <= MAX_JOBS && AllCompiled(more, found)
    ensures SoFar(found, Rest(rest), all)
  {
    ghost var e := JobLine(FirstLine(rest));
    EntriesStep(done, rest, MAX_JOBS - |jobs|);
    var ok, job;
    next, ok, job := LoadLine(buf, pos, rest);
    more, found := jobs, done;
    if ok {
      more, found := jobs + [job], done + [e];
      CompiledAdd(jobs, done, job, e);
    }
  }

  lemma CompiledAdd(jobs: seq<Job>, entries: seq<seq<string>>, job: Job, e: seq<string>)
    requires AllCompiled(jobs, entries) && EntryOk(e) && Compiled(job, e)
    ensures AllCompiled(jobs + [job], entries + [e])
  {
    var a, b := jobs + [job], entries + [e];
    forall k | 0 <= k < |a| ensures EntryOk(b[k]) && Compiled(a[k], b[k]) {
      if k < |jobs| { assert a[k] == jobs[k] && b[k] == entries[k]; } else { assert a[k] == job && b[k] == e; }
    }
  }

  /** One round of the loop: cuts a line off, trims it and compiles it. */
  method LoadLine(buf: array<char>, pos: nat, ghost rest: string) returns (next: int, ok: bool, job: Job)
    requires Holds(buf, pos, rest) && rest != ""
    modifies buf
    ensures if next < 0 then Rest(rest) == "" else Holds(buf, next, Rest(rest))
    ensures ok <==> JobLine(FirstLine(rest)) != []
    ensures ok ==> Compiled(job, JobLine(FirstLine(rest)))
  {
    next := CutLine(buf, pos, rest);
    var t := TrimLine(buf, pos, FirstLine(rest));
    ok, job := TryLine(t);
  }

  /** A trimmed line is compiled unless it is empty or a comment. */
  method TryLine(t: string) returns (ok: bool, job: Job)
    requires NulFree(t)
    ensures ok <==> JobText(t) != []
    ensures ok ==> Compiled(job, JobText(t))
  {
    job := Job(Masks(0, 0, 0, 0, 0), false, false, "", "");
    ok := t != "" && t[0] != '#';
    if ok { ok, job := CronParser.ParseLine(t); }
  }

  lemma EntriesStep(done: seq<seq<string>>, text: string, room: nat)
    requires text != "" && room > 0
    ensures var e := JobLine(FirstLine(text));
      done + Entries(text, room) ==
      if e == [] then done + Entries(Rest(text), room) else (done + [e]) + Entries(Rest(text), room - 1)
  {
  }

  lemma EntriesEnd(done: seq<seq<string>>, rest: string, room: nat, empty: bool)
    requires (empty ==> rest == "") && (!empty ==> room == 0)
    ensures done + Entries(rest, room) == done
  {
  }

  /** Ends the line at its newline; returns where the next one starts, or a negative number. */
  method CutLine(buf: array<char>, p: nat, ghost text: string) returns (next: int)
    requires Holds(buf, p, text) && text != ""
    modifies buf
    ensures Holds(buf, p, FirstLine(text))
    ensures if next < 0 then Rest(text) == "" else Holds(buf, next, Rest(text)) && p + |FirstLine(text)| < next
    ensures forall i | 0 <= i < buf.Length && !(p <= i < p + |text|) :: buf[i] == old(buf[i])
  {
    var n := Find(buf, p, '\n', text);
    UntilIs(text, '\n', n);
    if buf[p + n] == '\n' {
      Cut(buf, p, n, text);
      next := p + n + 1;
    } else {
      next := -1;
      assert text[..n] == text;
    }
  }
}
