/** When the lines of a crontab are due, by the texts they are written with. */
module CronMeaning {
  import opened CText
  import opened CScan
  import opened Options
  import opened Division
  import opened CronText
  import opened CronJob
  import opened CronTable

  // ---------- numbers ----------

  lemma NumberMeans(s: string)
    ensures Number(s) <==> |s| in {1, 2, 3} && forall c | c in s :: c in "0123456789"
  {
    if |s| in {1, 2, 3} && forall c | c in s :: c in "0123456789" {
      forall i | 0 <= i < |s| ensures '0' <= s[i] <= '9' { assert s[i] in s; }
    }
    if Number(s) {
      forall c | c in s ensures c in "0123456789" { DigitIsListed(c); }
    }
  }

  lemma DigitIsListed(c: char)
    requires '0' <= c <= '9'
    ensures c in "0123456789"
  {
    assert "0123456789"[c as int - '0' as int] == c;
  }

  /** Read in the decimal system. */
  lemma {:induction false} ValMeans(s: string, c: char)
    requires '0' <= c <= '9' && (s != "" ==> Number(s) && |s| < 3)
    ensures Number([c]) && Val([c]) == c as int - '0' as int
    ensures s != "" ==> Number(s + [c]) && Val(s + [c]) == 10 * Val(s) + (c as int - '0' as int)
  {
    ReadDecimalAppend(0, "", c);
    assert "" + [c] == [c];
    if s != "" { ReadDecimalAppend(0, s, c); }
  }

  // ---------- items ----------

  /** One of a, a + k, a + 2k and so on up to b. */
  ghost predicate Reached(a: nat, b: nat, k: nat, v: nat) { v <= b && exists j: nat :: Multiple(v, a, k, j) }

  predicate Multiple(v: nat, a: nat, k: nat, j: nat) { v == a + j * k }

  lemma ReachedByOne(a: nat, b: nat, v: nat)
    ensures Reached(a, b, 1, v) <==> a <= v <= b
  {
    if a <= v { assert Multiple(v, a, 1, v - a); }
  }

  lemma HasMeans(i: Item, lo: nat, hi: nat, v: nat)
    requires Spelled(i)
    ensures Has(i, lo, hi, v) <==> Reached(First(i, lo), Last(i, hi), Step(i), v)
  {
    var a, k := First(i, lo), Step(i);
    if j: nat :| Multiple(v, a, k, j) {
      MulNonNegative(j, k);
      DivMod(v - a, k, j, 0);
    }
    if a <= v && (v - a) % k == 0 { assert Multiple(v, a, k, (v - a) / k); }
  }

  lemma MulNonNegative(x: nat, y: nat)
    ensures x * y >= 0
  {
  }

  lemma Reads(i: Item, lo: nat, hi: nat, v: nat)
    requires Spelled(i)
    ensures GoodItem(Print(i), lo, hi) <==> lo <= First(i, lo) <= Last(i, hi) <= hi
    ensures ItemHas(Print(i), lo, hi, v) <==>
            lo <= First(i, lo) <= Last(i, hi) <= hi && Reached(First(i, lo), Last(i, hi), Step(i), v)
  {
    ReadItemIff(Print(i), i);
    HasMeans(i, lo, hi, v);
  }

  /** A star is the whole range. */
  lemma StarMeans(lo: nat, hi: nat, v: nat)
    requires lo <= hi
    ensures GoodItem("*", lo, hi) && (ItemHas("*", lo, hi, v) <==> lo <= v <= hi)
  {
    Reads(Item(Star, None), lo, hi, v);
    ReachedByOne(lo, hi, v);
  }

  lemma NumberMeansItself(n: string, lo: nat, hi: nat, v: nat)
    requires Number(n)
    ensures GoodItem(n, lo, hi) <==> lo <= Val(n) <= hi
    ensures ItemHas(n, lo, hi, v) <==> lo <= Val(n) <= hi && v == Val(n)
  {
    Reads(Item(One(n), None), lo, hi, v);
    ReachedByOne(Val(n), Val(n), v);
  }

  lemma RangeMeans(n: string, m: string, lo: nat, hi: nat, v: nat)
    requires Number(n) && Number(m)
    ensures GoodItem(n + "-" + m, lo, hi) <==> lo <= Val(n) <= Val(m) <= hi
    ensures ItemHas(n + "-" + m, lo, hi, v) <==> lo <= Val(n) <= v <= Val(m) <= hi
  {
    Reads(Item(Span(n, m), None), lo, hi, v);
    ReachedByOne(Val(n), Val(m), v);
  }

  /** With a step only every k-th value is meant; a star starts at the beginning of the range, and a single number
      goes on to its end. */
  lemma StepMeans(n: string, m: string, k: string, lo: nat, hi: nat, v: nat)
    requires lo <= hi && Number(n) && Number(m) && Number(k) && Val(k) > 0
    ensures ItemHas("*/" + k, lo, hi, v) <==> Reached(lo, hi, Val(k), v)
    ensures ItemHas(n + "/" + k, lo, hi, v) <==> lo <= Val(n) <= hi && Reached(Val(n), hi, Val(k), v)
    ensures ItemHas(n + "-" + m + "/" + k, lo, hi, v) <==>
            lo <= Val(n) <= Val(m) <= hi && Reached(Val(n), Val(m), Val(k), v)
  {
    Reads(Item(Star, Some(k)), lo, hi, v);
    Reads(Item(One(n), Some(k)), lo, hi, v);
    Reads(Item(Span(n, m), Some(k)), lo, hi, v);
    assert Print(Item(Star, Some(k))) == "*/" + k;
    assert Print(Item(One(n), Some(k))) == n + "/" + k;
    assert Print(Item(Span(n, m), Some(k))) == n + "-" + m + "/" + k;
  }

  lemma StepOfZeroIsRefused(b: string, k: string, lo: nat, hi: nat)
    requires '/' !in b && Number(k) && Val(k) == 0
    ensures !GoodItem(b + "/" + k, lo, hi)
  {
    UntilConcat(b, '/', k);
  }

  // ---------- lists ----------

  lemma {:induction false} PiecesMore(a: string, rest: string)
    requires ',' !in a
    ensures Pieces(a, ',') == (if a == "" then [] else [a])
    ensures Pieces(a + "," + rest, ',') == (if a == "" then [] else [a]) + Pieces(rest, ',')
  {
    var s := a + "," + rest;
    if a == "" {
      assert s[0] == ',' && s[1..] == rest;
      assert Until(s, ',') == 0;
    } else {
      PiecesCons(a, ',', rest);
    }
  }

  /** A field of one item. */
  lemma {:induction false} OneItemMeans(a: string, lo: nat, hi: nat, v: nat)
    requires ',' !in a
    ensures FieldOk(a, lo, hi) <==> |a| < 40 && a != "" && GoodItem(a, lo, hi)
    ensures InField(a, lo, hi, v) <==> a != "" && ItemHas(a, lo, hi, v)
  {
    PiecesMore(a, "");
    if a != "" { OneMoreGood(a, [], lo, hi, v); }
  }

  /** Commas put items together, all of which must be good; two commas beside each other make no difference. */
  lemma {:induction false} ListMeans(a: string, rest: string, lo: nat, hi: nat, v: nat)
    requires ',' !in a
    ensures var s := a + "," + rest;
      && (FieldOk(s, lo, hi) <==>
          && |s| < 40
          && if a == "" then FieldOk(rest, lo, hi)
             else GoodItem(a, lo, hi) && (FieldOk(rest, lo, hi) || Pieces(rest, ',') == []))
      && (InField(s, lo, hi, v) <==> (a != "" && ItemHas(a, lo, hi, v)) || InField(rest, lo, hi, v))
  {
    PiecesMore(a, rest);
    if a == "" {
      assert [] + Pieces(rest, ',') == Pieces(rest, ',');
    } else {
      OneMoreGood(a, Pieces(rest, ','), lo, hi, v);
    }
  }

  lemma {:induction false} OneMoreGood(a: string, p: seq<string>, lo: nat, hi: nat, v: nat)
    ensures AllGood([a] + p, lo, hi) <==> GoodItem(a, lo, hi) && AllGood(p, lo, hi)
    ensures AnyHas([a] + p, lo, hi, v) <==> ItemHas(a, lo, hi, v) || AnyHas(p, lo, hi, v)
  {
    var q := [a] + p;
    assert q[0] == a && forall k | 0 <= k < |p| :: q[k + 1] == p[k];
    if AnyHas(p, lo, hi, v) {
      var k :| 0 <= k < |p| && ItemHas(p[k], lo, hi, v);
      assert ItemHas(q[k + 1], lo, hi, v);
    }
    if AllGood(q, lo, hi) {
      forall k | 0 <= k < |p| ensures GoodItem(p[k], lo, hi) { assert GoodItem(q[k + 1], lo, hi); }
    }
    if AnyHas(q, lo, hi, v) {
      var k :| 0 <= k < |q| && ItemHas(q[k], lo, hi, v);
      if k > 0 { assert ItemHas(p[k - 1], lo, hi, v); }
    }
  }

  // ---------- lines ----------

  /** A field that is a star or one number. */
  predicate Simple(f: string) { f == "*" || Number(f) }

  predicate Within(f: string, lo: nat, hi: nat)
    requires Simple(f)
  {
    f == "*" || lo <= Val(f) <= hi
  }

  predicate Allows(f: string, v: nat)
    requires Simple(f)
  {
    f == "*" || Val(f) == v
  }

  lemma {:induction false} SimpleFieldMeans(f: string, lo: nat, hi: nat, v: nat)
    requires Simple(f) && lo <= v <= hi
    ensures FieldOk(f, lo, hi) <==> Within(f, lo, hi)
    ensures Within(f, lo, hi) ==> (InField(f, lo, hi, v) <==> Allows(f, v))
  {
    if f == "*" {
      StarMeans(lo, hi, v);
    } else {
      NumberHasNo(f, ',');
      NumberMeansItself(f, lo, hi, v);
    }
    PiecesCons(f, ',', "");
    assert Pieces(f, ',')[0] == f;
  }

  /** Seven, too, is Sunday. */
  predicate AllowsDay(f: string, wday: nat)
    requires Simple(f)
  {
    f == "*" || Val(f) == wday || (Val(f) == 7 && wday == 0)
  }

  lemma {:induction false} SimpleWeekdayMeans(f: string, wday: nat)
    requires Simple(f) && Within(f, 0, 7) && wday < 7
    ensures OnWeekday(f, wday) <==> AllowsDay(f, wday)
  {
    SimpleFieldMeans(f, 0, 7, wday);
    SimpleFieldMeans(f, 0, 7, 7);
  }

  lemma SimpleStarred(f: string)
    requires Simple(f)
    ensures Starred(f) <==> f == "*"
    ensures Word(f) && |f| < FIELD_MAX
  {
    if f != "*" { assert '0' <= f[0] <= '9'; }
  }

  ghost predicate AllSimple(f: seq<string>) { |f| == 5 && forall k | 0 <= k < 5 :: Simple(f[k]) }

  /** A line of five stars or numbers and a command: minute, hour, day, month and day of the week. Both days must
      match if one of them is a star, otherwise one of them. */
  lemma {:induction false} SimpleLineMeans(f: seq<string>, cmd: string, t: Tm)
    requires AllSimple(f) && cmd != "" && !Blank(cmd[0]) && TmOk(t)
    ensures var e := Split(f[0] + " " + f[1] + " " + f[2] + " " + f[3] + " " + f[4] + " " + cmd, 5);
      && e == f + [cmd]
      && (EntryOk(e) <==> Within(f[0], 0, 59) && Within(f[1], 0, 23) && Within(f[2], 1, 31) && Within(f[3], 1, 12) &&
                          Within(f[4], 0, 7))
      && (EntryOk(e) ==>
            (Due(e, t) <==>
             && Allows(f[0], t.min) && Allows(f[1], t.hour) && Allows(f[3], t.mon + 1)
             && if f[2] == "*" || f[4] == "*" then Allows(f[2], t.mday) && AllowsDay(f[4], t.wday)
                else Allows(f[2], t.mday) || AllowsDay(f[4], t.wday)))
  {
    SimpleLineSplits(f, cmd);
    SimpleEntryOk(f, cmd, t);
    if EntryOk(f + [cmd]) { SimpleEntryDue(f, cmd, t); }
  }

  /** The job keeps the schedule with single blanks, cut to 47 characters, and the command cut to 95. */
  lemma {:induction false} TextsAreKept(j: Job, e: seq<string>)
    requires |e| == 6 && Compiled(j, e)
    ensures var sched := e[0] + " " + e[1] + " " + e[2] + " " + e[3] + " " + e[4];
      && j.sched == (if |sched| < 48 then sched else sched[..47])
      && j.cmd == (if |e[5]| < 96 then e[5] else e[5][..95])
  {
  }

  lemma {:induction false} SimpleEntryOk(f: seq<string>, cmd: string, t: Tm)
    requires AllSimple(f) && TmOk(t)
    ensures EntryOk(f + [cmd]) <==> Within(f[0], 0, 59) && Within(f[1], 0, 23) && Within(f[2], 1, 31) &&
                                    Within(f[3], 1, 12) && Within(f[4], 0, 7)
  {
    SimpleFieldMeans(f[0], 0, 59, t.min);
    SimpleFieldMeans(f[1], 0, 23, t.hour);
    SimpleFieldMeans(f[2], 1, 31, t.mday);
    SimpleFieldMeans(f[3], 1, 12, t.mon + 1);
    SimpleFieldMeans(f[4], 0, 7, t.wday);
  }

  lemma {:induction false} SimpleEntryDue(f: seq<string>, cmd: string, t: Tm)
    requires AllSimple(f) && TmOk(t) && Within(f[0], 0, 59) && Within(f[1], 0, 23) && Within(f[2], 1, 31)
    requires Within(f[3], 1, 12) && Within(f[4], 0, 7)
    ensures Due(f + [cmd], t) <==>
            && Allows(f[0], t.min) && Allows(f[1], t.hour) && Allows(f[3], t.mon + 1)
            && if f[2] == "*" || f[4] == "*" then Allows(f[2], t.mday) && AllowsDay(f[4], t.wday)
               else Allows(f[2], t.mday) || AllowsDay(f[4], t.wday)
  {
    SimpleFieldMeans(f[0], 0, 59, t.min);
    SimpleFieldMeans(f[1], 0, 23, t.hour);
    SimpleFieldMeans(f[2], 1, 31, t.mday);
    SimpleFieldMeans(f[3], 1, 12, t.mon + 1);
    SimpleWeekdayMeans(f[4], t.wday);
    SimpleStarred(f[2]);
    SimpleStarred(f[4]);
  }

  lemma {:induction false} SimpleLineSplits(f: seq<string>, cmd: string)
    requires AllSimple(f) && cmd != "" && !Blank(cmd[0])
    ensures Split(f[0] + " " + f[1] + " " + f[2] + " " + f[3] + " " + f[4] + " " + cmd, 5) == f + [cmd]
  {
    var gaps := ["", " ", " ", " ", " ", " "];
    forall k | 0 <= k < 5 ensures Word(f[k]) && |f[k]| < FIELD_MAX { SimpleStarred(f[k]); }
    assert LaidOut(gaps, f, cmd);
    SplitRender(gaps, f, cmd);
    RenderFive(f, cmd);
  }

  lemma {:induction false} RenderFive(f: seq<string>, cmd: string)
    requires |f| == 5
    ensures Render(["", " ", " ", " ", " ", " "], f, cmd) ==
            f[0] + " " + f[1] + " " + f[2] + " " + f[3] + " " + f[4] + " " + cmd
  {
    RenderTail(f[4..], cmd, f[4]);
    assert f[3..][1..] == f[4..] && f[2..][1..] == f[3..] && f[1..][1..] == f[2..];
    assert [" ", " ", " "][1..] == [" ", " "] && [" ", " ", " ", " "][1..] == [" ", " ", " "];
    assert [" ", " ", " ", " ", " "][1..] == [" ", " ", " ", " "];
    assert ["", " ", " ", " ", " ", " "][1..] == [" ", " ", " ", " ", " "];
    var r4 := Render([" ", " "], f[4..], cmd);
    var r3 := Render([" ", " ", " "], f[3..], cmd);
    var r2 := Render([" ", " ", " ", " "], f[2..], cmd);
    var r1 := Render([" ", " ", " ", " ", " "], f[1..], cmd);
    assert r4 == " " + f[4] + " " + cmd;
    assert r3 == " " + (f[3] + r4);
    assert r2 == " " + (f[2] + r3);
    assert r1 == " " + (f[1] + r2);
  }

  lemma {:induction false} RenderTail(last: seq<string>, cmd: string, w: string)
    requires last == [w]
    ensures Render([" ", " "], last, cmd) == " " + w + " " + cmd
  {
    assert [" ", " "][1..] == [" "] && last[1..] == [];
    assert Render([" "], [], cmd) == " " + cmd;
  }

  // ---------- files ----------

  predicate Endings(s: string) { forall i | 0 <= i < |s| :: s[i] in " \t\r" }

  lemma {:induction false} TrimEndIs(s: string, tail: string)
    requires Endings(tail) && (s != "" ==> s[|s|-1] !in " \t\r")
    ensures TrimEnd(s + tail) == s
    decreases |tail|
  {
    if tail == "" {
      assert s + tail == s;
    } else {
      var init := tail[..|tail|-1];
      assert (s + tail)[..|s + tail| - 1] == s + init && (s + tail)[|s + tail| - 1] == tail[|tail|-1];
      TrimEndIs(s, init);
    }
  }

  /** Blanks around a line do not matter; what begins with a hash is a comment, and a line with a bad field is none. */
  lemma {:induction false} JobLineMeans(lead: string, body: string, tail: string)
    requires Blanks(lead) && Endings(tail) && body != "" && !Blank(body[0]) && body[|body|-1] !in " \t\r"
    ensures JobLine(lead + body + tail) == if body[0] == '#' || !EntryOk(Split(body, 5)) then [] else Split(body, 5)
  {
    TrimEndIs(lead + body, tail);
    SkipIs(lead, body);
  }

  lemma {:induction false} BlankLineMeans(line: string)
    requires Endings(line)
    ensures JobLine(line) == []
  {
    TrimEndIs("", line);
    assert "" + line == line;
  }

  /** The first jobs of a file, line by line, until there is no room. */
  lemma {:induction false} EntriesMean(line: string, rest: string, room: nat)
    requires '\n' !in line && room > 0
    ensures Entries(line + "\n" + rest, room) ==
            if JobLine(line) == [] then Entries(rest, room) else [JobLine(line)] + Entries(rest, room - 1)
    ensures line != "" ==> Entries(line, room) == if JobLine(line) == [] then [] else [JobLine(line)]
  {
    UntilConcat(line, '\n', rest);
    UntilIs(line, '\n', |line|);
    var text := line + "\n" + rest;
    assert text[..|line|] == line && text[|line| + 1..] == rest && line[..|line|] == line;
  }
}
