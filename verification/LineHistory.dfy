/** The line history: which lines it holds and what browsing it does to the line being typed. */
module LineHistory {
  import opened CText
  import opened Terminal
  import opened LineEdit

  /** The history after adding lines one by one, oldest first. */
  function Remembered(lines: seq<string>): seq<string> {
    if lines == [] then [] else HistoryAdd(Remembered(lines[..|lines|-1]), lines[|lines|-1])
  }

  /** Every line worth keeping, newest first and without limit: not empty, no password command and not
      the line stored just before. */
  function Log(lines: seq<string>): seq<string> {
    if lines == [] then []
    else
      var log, line := Log(lines[..|lines|-1]), lines[|lines|-1];
      if line == "" || "ftppass" <= line || (log != [] && log[0] == line) then log
      else [Clip(line, LE_MAX)] + log
  }

  /** The history is the newest 20 lines of the log. */
  lemma {:induction false} HistoryIsNewest(lines: seq<string>)
    ensures Remembered(lines) == Log(lines)[..if |Log(lines)| < LE_HIST then |Log(lines)| else LE_HIST]
  {
    if lines != [] {
      HistoryIsNewest(lines[..|lines|-1]);
    }
  }

  ghost predicate NoRepeat(hist: seq<string>) {
    forall i | 0 <= i < |hist| - 1 :: hist[i] != hist[i+1]
  }

  /** Adding a line makes two neighbours equal exactly when the line is too long for its slot and its
      stored part repeats the newest line. */
  lemma AddRepeats(hist: seq<string>, line: string)
    requires NoRepeat(hist)
    ensures NoRepeat(HistoryAdd(hist, line)) <==>
            !(|line| >= LE_MAX && !("ftppass" <= line) && hist != [] && hist[0] == line[..LE_MAX - 1])
  {
    var added := HistoryAdd(hist, line);
    if !(line == "" || "ftppass" <= line) && hist != [] && hist[0] != line {
      assert added[0] == Clip(line, LE_MAX) && added[1] == hist[0];
      assert forall i | 1 <= i < |added| :: added[i] == hist[i-1];
    }
  }

  /** Such a line, added twice: 160 times one character is stored cut to 159, and what it is compared with is not. */
  lemma LongLineRepeats(c: char)
    requires c != 'f'
    ensures var line := seq(LE_MAX, _ => c);
      Remembered([line, line]) == [line[..LE_MAX - 1], line[..LE_MAX - 1]]
  {
    var line := seq(LE_MAX, _ => c);
    assert line[0] == c && "ftppass"[0] == 'f';
    var one: seq<string> := [line];
    assert [line, line][..1] == one && one[..0] == [];
    assert Remembered(one) == [line[..LE_MAX - 1]];
  }

  /** Lines that fit their slot are never stored twice in a row. */
  lemma {:induction false} NeverRepeats(lines: seq<string>)
    requires forall i | 0 <= i < |lines| :: |lines[i]| < LE_MAX
    ensures NoRepeat(Remembered(lines))
  {
    if lines != [] {
      NeverRepeats(lines[..|lines|-1]);
      AddRepeats(Remembered(lines[..|lines|-1]), lines[|lines|-1]);
    }
  }

  /** No password command is ever kept, and nothing outgrows its slot. */
  lemma {:induction false} NeverKeepsPasswords(lines: seq<string>)
    requires forall i | 0 <= i < |lines| :: NulFree(lines[i])
    ensures WfHistory(Remembered(lines))
    ensures forall i | 0 <= i < |Remembered(lines)| :: !("ftppass" <= Remembered(lines)[i])
  {
    if lines != [] {
      NeverKeepsPasswords(lines[..|lines|-1]);
      var line := lines[|lines|-1];
      assert NulFree(line);
      assert "ftppass" <= Clip(line, LE_MAX) ==> "ftppass" <= line;
    }
  }

  // ---------- browsing ----------

  const UP: string := [ESC, '[', 'A']
  const DOWN: string := [ESC, '[', 'B']

  function FeedAll(e: Editor, hist: seq<string>, keys: string): Editor
    requires Wf(e, hist) && WfHistory(hist)
    decreases |keys|
  {
    if keys == "" then e
    else
      FeedKeepsWf(e, hist, NoMemory, keys[0]);
      FeedAll(Feed(e, hist, NoMemory, keys[0]).ed, hist, keys[1..])
  }

  lemma {:induction false} FeedAllWf(e: Editor, hist: seq<string>, keys: string)
    requires Wf(e, hist) && WfHistory(hist)
    ensures Wf(FeedAll(e, hist, keys), hist)
    decreases |keys|
  {
    if keys != "" {
      FeedKeepsWf(e, hist, NoMemory, keys[0]);
      FeedAllWf(Feed(e, hist, NoMemory, keys[0]).ed, hist, keys[1..]);
    }
  }

  lemma {:induction false} FeedAllConcat(e: Editor, hist: seq<string>, a: string, b: string)
    requires Wf(e, hist) && WfHistory(hist)
    ensures Wf(FeedAll(e, hist, a), hist)
    ensures FeedAll(e, hist, a + b) == FeedAll(FeedAll(e, hist, a), hist, b)
    decreases |a|
  {
    FeedAllWf(e, hist, a);
    if a == "" {
      assert a + b == b;
    } else {
      assert (a + b)[1..] == a[1..] + b;
      FeedKeepsWf(e, hist, NoMemory, a[0]);
      FeedAllConcat(Feed(e, hist, NoMemory, a[0]).ed, hist, a[1..], b);
    }
  }

  function Times(keys: string, k: nat): string {
    if k == 0 then "" else keys + Times(keys, k - 1)
  }

  /** The editor with no key half read. */
  function Quiet(e: Editor): Editor { e.(lastWasCr := false, tabPending := false, arg := 0) }

  lemma FeedThree(e: Editor, hist: seq<string>, a: char, b: char, c: char)
    requires Wf(e, hist) && WfHistory(hist)
    ensures var e1 := Feed(e, hist, NoMemory, a).ed;
      && Wf(e1, hist)
      && var e2 := Feed(e1, hist, NoMemory, b).ed;
      && Wf(e2, hist)
      && FeedAll(e, hist, [a, b, c]) == Feed(e2, hist, NoMemory, c).ed
  {
    FeedKeepsWf(e, hist, NoMemory, a);
    var e1 := Feed(e, hist, NoMemory, a).ed;
    FeedKeepsWf(e1, hist, NoMemory, b);
    var e2 := Feed(e1, hist, NoMemory, b).ed;
    FeedKeepsWf(e2, hist, NoMemory, c);
    assert [a, b, c][1..] == [b, c] && [b, c][1..] == [c] && [c][1..] == "";
    assert FeedAll(e2, hist, [c]) == Feed(e2, hist, NoMemory, c).ed;
    assert FeedAll(e1, hist, [b, c]) == FeedAll(e2, hist, [c]);
  }

  lemma ArrowKey(e: Editor, hist: seq<string>, final: char)
    requires Wf(e, hist) && WfHistory(hist) && e.esc == Typing && final in {'A', 'B'}
    ensures FeedAll(e, hist, [ESC, '[', final]) == CsiKey(Quiet(e), hist, final).ed
  {
    FeedThree(e, hist, ESC, '[', final);
    var e1 := Feed(e, hist, NoMemory, ESC).ed;
    assert e1 == e.(lastWasCr := false, tabPending := false, esc := AfterEsc);
    var e2 := Feed(e1, hist, NoMemory, '[').ed;
    assert e2 == Quiet(e).(esc := InCsi);
    assert e2.(lastWasCr := false, tabPending := false, esc := Typing) == Quiet(e);
  }

  /** x shows the j-th newest line in place of `typed`, the line being typed; j == 0 is that line. */
  ghost predicate Shown(x: Editor, typed: string, hist: seq<string>, j: nat) {
    && Wf(x, hist) && WfHistory(hist) && x.esc == Typing && j <= |hist| && x.histPos == j - 1
    && if j == 0 then x.Text() == typed
       else x.left == hist[j-1] && x.right == "" && x.saved == typed
  }

  lemma Up(x: Editor, typed: string, hist: seq<string>, j: nat)
    requires Shown(x, typed, hist, j)
    ensures Shown(FeedAll(x, hist, UP), typed, hist, if j < |hist| then j + 1 else j)
  {
    ArrowKey(x, hist, 'A');
    CsiKeyKeepsWf(Quiet(x), hist, 'A');
    assert Quiet(x).Text() == x.Text();
  }

  lemma Down(x: Editor, typed: string, hist: seq<string>, j: nat)
    requires Shown(x, typed, hist, j)
    ensures Shown(FeedAll(x, hist, DOWN), typed, hist, if j > 0 then j - 1 else 0)
  {
    ArrowKey(x, hist, 'B');
    CsiKeyKeepsWf(Quiet(x), hist, 'B');
  }

  /** k Ups move k lines back, stopping at the oldest. */
  lemma {:induction false} UpsShow(x: Editor, typed: string, hist: seq<string>, j: nat, k: nat)
    requires Shown(x, typed, hist, j)
    ensures Shown(FeedAll(x, hist, Times(UP, k)), typed, hist, if j + k <= |hist| then j + k else |hist|)
    decreases k
  {
    if k > 0 {
      Up(x, typed, hist, j);
      FeedAllConcat(x, hist, UP, Times(UP, k - 1));
      UpsShow(FeedAll(x, hist, UP), typed, hist, if j < |hist| then j + 1 else j, k - 1);
    }
  }

  /** k Downs move k lines forward, stopping at the line being typed. */
  lemma {:induction false} DownsShow(x: Editor, typed: string, hist: seq<string>, j: nat, k: nat)
    requires Shown(x, typed, hist, j)
    ensures Shown(FeedAll(x, hist, Times(DOWN, k)), typed, hist, if k <= j then j - k else 0)
    decreases k
  {
    if k > 0 {
      Down(x, typed, hist, j);
      FeedAllConcat(x, hist, DOWN, Times(DOWN, k - 1));
      DownsShow(FeedAll(x, hist, DOWN), typed, hist, if j > 0 then j - 1 else 0, k - 1);
    }
  }

  /** Any number of Ups followed by as many Downs gives back the line being typed. */
  lemma UpsThenDownsRestore(e: Editor, hist: seq<string>, k: nat)
    requires Wf(e, hist) && WfHistory(hist) && e.esc == Typing && e.histPos == -1
    ensures var r := FeedAll(e, hist, Times(UP, k) + Times(DOWN, k));
      r.Text() == e.Text() && r.histPos == -1
  {
    var typed := e.Text();
    FeedAllConcat(e, hist, Times(UP, k), Times(DOWN, k));
    UpsShow(e, typed, hist, 0, k);
    DownsShow(FeedAll(e, hist, Times(UP, k)), typed, hist, if k <= |hist| then k else |hist|, k);
  }
}
