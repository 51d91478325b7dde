/** The screen mirrors the line: running what the editor sends keeps the cursor row equal to prompt and
    text and the cursor under the edited position, whether the editor echoed, moved or redrew. */
module LineMirror {
  import opened CText
  import opened Terminal
  import opened LineEdit

  ghost predicate Mirrors(s: Screen, e: Editor) {
    Shows(s, e.prompt + e.Text(), |e.prompt| + |e.left|)
  }

  /** Every text the editor may have to draw is printable. */
  ghost predicate Drawable(e: Editor) {
    AllPrintable(e.prompt) && AllPrintable(e.left) && AllPrintable(e.right) && AllPrintable(e.saved)
  }

  ghost predicate DrawableAll(lines: seq<string>) {
    forall i | 0 <= i < |lines| :: AllPrintable(lines[i])
  }

  ghost predicate DrawableListing(l: Listing) { l.Files? ==> DrawableAll(l.names) }

  /** What the terminal shows once a reply was sent: the edited line, or the next row, if the line (or the end of
      input) was handed to the caller or dropped. That row was blank if the rows below were. */
  ghost predicate Answered(s: Screen, r: Reply) {
    var t := Run(s, r.out);
    match r.action
    case None => Mirrors(t, r.ed)
    case Cancel => CleanBelow(s) ==> Mirrors(t, r.ed)
    case _ => CleanBelow(s) ==> Shows(t, "", 0)
  }

  /** No control sequence is pending. */
  ghost predicate Idle(s: Screen) { s.parse == Ground }

  // ---------- output fragments ----------

  lemma NewlineIdle(s: Screen)
    requires Idle(s)
    ensures Idle(Run(s, "\r\n")) && Run(s, "\r\n").col == 0
  {
    RunTwo(s, '\r', '\n');
  }

  lemma NewlineShows(s: Screen)
    requires Idle(s) && CleanBelow(s)
    ensures Shows(Run(s, "\r\n"), "", 0) && CleanBelow(Run(s, "\r\n"))
  {
    RunTwo(s, '\r', '\n');
  }

  /** Text without control sequences leaves the terminal idle wherever the cursor ends up. */
  ghost predicate Cooked(out: string) {
    forall i | 0 <= i < |out| :: Printable(out[i]) || out[i] in {'\r', '\n', BEL, BS}
  }

  lemma {:induction false} CookedIdle(s: Screen, out: string)
    requires Idle(s) && Cooked(out)
    ensures Idle(Run(s, out))
    decreases |out|
  {
    if out != "" {
      var t := Step(s, out[0]);
      assert Idle(t);
      CookedIdle(t, out[1..]);
    }
  }

  lemma {:induction false} CookedClean(s: Screen, out: string)
    requires Idle(s) && CleanBelow(s) && Cooked(out)
    ensures Idle(Run(s, out)) && CleanBelow(Run(s, out))
    decreases |out|
  {
    if out != "" {
      var t := Step(s, out[0]);
      assert Idle(t) && CleanBelow(t);
      CookedClean(t, out[1..]);
    }
  }

  lemma PromptShows(s: Screen, prompt: string)
    requires Shows(s, "", 0) && AllPrintable(prompt)
    ensures Shows(Run(s, prompt), prompt, |prompt|)
  {
    RunText(s, prompt);
  }

  lemma RunREDRAW(s: Screen)
    requires Idle(s)
    ensures Shows(Run(s, REDRAW), "", 0) && Run(s, REDRAW).below == s.below
  {
    assert REDRAW == ['\r'] + [ESC, '[', 'K'];
    RunConcat(s, ['\r'], [ESC, '[', 'K']);
    RunOne(s, '\r');
    RunThree(s.(col := 0), ESC, '[', 'K');
  }

  lemma RunCLEAR(s: Screen)
    requires Idle(s)
    ensures Idle(Run(s, CLEAR)) && CleanBelow(Run(s, CLEAR))
  {
    assert CLEAR == [ESC, '['] + (['2', 'J'] + [ESC, '[', 'H']);
    RunConcat(s, [ESC, '['], ['2', 'J'] + [ESC, '[', 'H']);
    RunTwo(s, ESC, '[');
    var csi := s.(parse := Csi(0));
    RunConcat(csi, ['2', 'J'], [ESC, '[', 'H']);
    RunTwo(csi, '2', 'J');
    var blank := s.(above := Blanked(s.above), row := "", below := Blanked(s.below));
    RunThree(blank, ESC, '[', 'H');
  }

  /** From anywhere on the row, a redraw shows the line with the cursor in place. */
  lemma RedrawMirrors(s: Screen, e: Editor)
    requires Idle(s) && Drawable(e)
    ensures Mirrors(Run(s, Redraw(e)), e) && Run(s, Redraw(e)).below == s.below
  {
    var line := e.prompt + e.Text();
    var back := if e.right == "" then "" else [ESC, '['] + Decimal(|e.right|) + "D";
    assert Redraw(e) == REDRAW + (line + back);
    RunConcat(s, REDRAW, line + back);
    RunREDRAW(s);
    var t := Run(s, REDRAW);
    RunConcat(t, line, back);
    RunText(t, line);
    if e.right != "" {
      RunCursorBack(Run(t, line), |e.right|);
    }
  }

  lemma RedrawnMirrors(s: Screen, e: Editor)
    requires Idle(s) && Drawable(e)
    ensures Answered(s, Redrawn(e))
  {
    RedrawMirrors(s, e);
  }

  lemma PrefixedRedrawMirrors(s: Screen, before: string, e: Editor)
    requires Idle(s) && Drawable(e) && Idle(Run(s, before))
    ensures Mirrors(Run(s, before + Redraw(e)), e) && Run(s, before + Redraw(e)).below == Run(s, before).below
  {
    RunConcat(s, before, Redraw(e));
    RedrawMirrors(Run(s, before), e);
  }

  // ---------- incremental replies ----------

  lemma InsertMirrors(s: Screen, e: Editor, c: char)
    requires Mirrors(s, e) && Drawable(e) && Printable(c)
    ensures Answered(s, Insert(e, c))
  {
    var d := e.Edit(e.left + [c], e.right);
    if e.right == "" {
      RunOne(s, c);
      assert d.prompt + d.Text() == e.prompt + e.Text() + [c];
    } else {
      RedrawMirrors(s, d);
    }
  }

  lemma BackspaceMirrors(s: Screen, e: Editor)
    requires Mirrors(s, e) && Drawable(e)
    ensures Answered(s, Backspace(e))
  {
    if e.left != "" {
      var d := e.Edit(e.left[..|e.left|-1], e.right);
      if e.right == "" {
        RunThree(s, BS, ' ', BS);
        assert e.prompt + e.Text() == d.prompt + d.Text() + [e.left[|e.left|-1]];
      } else {
        RedrawMirrors(s, d);
      }
    }
  }

  lemma {:induction false} CursorLeftMirrors(s: Screen, e: Editor)
    requires Mirrors(s, e)
    ensures Answered(s, CursorLeft(e))
  {
    RunThree(s, ESC, '[', 'D');
    assert CursorLeft(e).ed.Text() == e.Text();
  }

  lemma {:induction false} CursorRightMirrors(s: Screen, e: Editor)
    requires Mirrors(s, e)
    ensures Answered(s, CursorRight(e))
  {
    RunThree(s, ESC, '[', 'C');
    assert CursorRight(e).ed.Text() == e.Text();
  }

  lemma BellMirrors(s: Screen, e: Editor)
    requires Mirrors(s, e)
    ensures Answered(s, Bell(e))
  {
    RunOne(s, BEL);
  }

  /** Ctrl-C starts a new row, whatever the row showed. */
  lemma CancelMirrors(s: Screen, e: Editor)
    requires Idle(s) && CleanBelow(s) && AllPrintable(e.prompt)
    ensures Mirrors(Run(s, "^C\r\n" + e.prompt), Reset(e))
  {
    assert "^C\r\n" + e.prompt == "^C" + ("\r\n" + e.prompt);
    RunConcat(s, "^C", "\r\n" + e.prompt);
    CookedClean(s, "^C");
    RunConcat(Run(s, "^C"), "\r\n", e.prompt);
    NewlineShows(Run(s, "^C"));
    PromptShows(Run(Run(s, "^C"), "\r\n"), e.prompt);
    assert e.prompt + Reset(e).Text() == e.prompt;
  }

  lemma HistoryMirrors(s: Screen, e: Editor, hist: seq<string>)
    requires Mirrors(s, e) && Drawable(e) && DrawableAll(hist) && -1 <= e.histPos < |hist|
    ensures Answered(s, HistoryUp(e, hist)) && Answered(s, HistoryDown(e, hist))
    ensures Drawable(HistoryUp(e, hist).ed) && Drawable(HistoryDown(e, hist).ed)
  {
    BellMirrors(s, e);
    if e.histPos + 1 < |hist| {
      RedrawnMirrors(s, HistoryUp(e, hist).ed);
    }
    if e.histPos >= 0 {
      RedrawnMirrors(s, HistoryDown(e, hist).ed);
    }
  }

  // ---------- Tab ----------

  lemma {:induction false} TableCooked(cands: seq<string>, dirlen: nat, i: nat, col: nat)
    requires i <= |cands| && (forall k | 0 <= k < |cands| :: dirlen <= |cands[k]|) && DrawableAll(cands)
    ensures Cooked(Table(cands, dirlen, i, col))
    decreases |cands| - i
  {
    if i < |cands| {
      var shown := cands[i][dirlen..];
      var wrap := col + |shown| + 2 > 72 && col > 0;
      TableCooked(cands, dirlen, i + 1, (if wrap then 0 else col) + |shown| + 2);
    }
  }

  lemma {:induction false} CompleteDrawable(e: Editor, second: bool, ws: nat, isCmd: bool, cands: seq<string>,
      dirlen: nat)
    requires Drawable(e) && ws <= |e.left|
    requires DrawableAll(cands) && forall i | 0 <= i < |cands| :: dirlen <= |cands[i]|
    ensures Drawable(Complete(e, second, ws, isCmd, cands, dirlen).ed)
  {
  }

  lemma {:induction false} CompleteMirrors(s: Screen, e: Editor, second: bool, ws: nat, isCmd: bool,
      cands: seq<string>, dirlen: nat)
    requires Mirrors(s, e) && Drawable(e) && ws <= |e.left|
    requires DrawableAll(cands) && forall i | 0 <= i < |cands| :: dirlen <= |cands[i]|
    ensures var r := Complete(e, second, ws, isCmd, cands, dirlen); Answered(s, r) && Drawable(r.ed)
  {
    var r := Complete(e, second, ws, isCmd, cands, dirlen);
    CompleteDrawable(e, second, ws, isCmd, cands, dirlen);
    if r.out == [BEL] {
      BellMirrors(s, r.ed);
    } else if r.out == Redraw(r.ed) {
      RedrawnMirrors(s, r.ed);
    } else {
      TableMirrors(s, e, cands, dirlen);
    }
  }

  lemma TableMirrors(s: Screen, e: Editor, cands: seq<string>, dirlen: nat)
    requires Idle(s) && Drawable(e)
    requires DrawableAll(cands) && forall i | 0 <= i < |cands| :: dirlen <= |cands[i]|
    ensures Mirrors(Run(s, "\r\n" + Table(cands, dirlen, 0, 0) + "\r\n" + Redraw(e)), e)
  {
    var shown := "\r\n" + Table(cands, dirlen, 0, 0) + "\r\n";
    TableCooked(cands, dirlen, 0, 0);
    CookedIdle(s, shown);
    PrefixedRedrawMirrors(s, shown, e);
  }

  lemma TabMirrors(s: Screen, e: Editor, second: bool, listing: Listing)
    requires Mirrors(s, e) && Drawable(e) && WfListing(listing) && DrawableListing(listing)
    ensures Answered(s, Tab(e, second, listing)) && Drawable(Tab(e, second, listing).ed)
  {
    var ws := WordStart(e.left);
    BellMirrors(s, e);
    if listing.Files? {
      CommandsFit();
      var cmds := CommandMatches(COMMANDS, e.left[ws..], 0, MAX_CAND);
      forall i | 0 <= i < |cmds| ensures AllPrintable(cmds[i]) { assert CommandName(cmds[i]); }
      CompleteMirrors(s, e, second, ws, true, cmds, 0);
      CompleteMirrors(s, e, second, ws, false, listing.names, listing.dirlen);
    }
  }

  // ---------- every byte ----------

  lemma CsiKeyMirrors(s: Screen, e: Editor, hist: seq<string>, c: char)
    requires Mirrors(s, e) && Drawable(e) && DrawableAll(hist) && -1 <= e.histPos < |hist|
    ensures Answered(s, CsiKey(e, hist, c)) && Drawable(CsiKey(e, hist, c).ed)
  {
    if c == 'A' || c == 'B' {
      HistoryMirrors(s, e, hist);
    } else if c == 'C' || c == 'D' {
      CursorLeftMirrors(s, e);
      CursorRightMirrors(s, e);
    } else {
      CsiJumpMirrors(s, e, hist, c);
    }
  }

  lemma CsiJumpMirrors(s: Screen, e: Editor, hist: seq<string>, c: char)
    requires Mirrors(s, e) && Drawable(e) && -1 <= e.histPos < |hist| && !('A' <= c <= 'D')
    ensures Answered(s, CsiKey(e, hist, c)) && Drawable(CsiKey(e, hist, c).ed)
  {
    RedrawnMirrors(s, e.Home());
    RedrawnMirrors(s, e.End());
    DeleteMirrors(s, e);
  }

  lemma EditMirrors(s: Screen, e: Editor, l: string, r: string)
    requires Idle(s) && Drawable(e) && AllPrintable(l) && AllPrintable(r)
    ensures Answered(s, Redrawn(e.Edit(l, r))) && Drawable(e.Edit(l, r))
  {
    RedrawnMirrors(s, e.Edit(l, r));
  }

  lemma EraseWordMirrors(s: Screen, e: Editor)
    requires Mirrors(s, e) && Drawable(e)
    ensures Answered(s, EraseWord(e)) && Drawable(EraseWord(e).ed)
  {
    EditMirrors(s, e, e.left[..SkipWordBack(e.left, SkipBlanksBack(e.left, |e.left|))], e.right);
  }

  lemma DeleteMirrors(s: Screen, e: Editor)
    requires Mirrors(s, e) && Drawable(e)
    ensures Answered(s, DeleteAtCursor(e)) && Drawable(DeleteAtCursor(e).ed)
  {
    if e.right != "" { EditMirrors(s, e, e.left, e.right[1..]); }
  }

  /** Escape, Enter, and Ctrl-L, -C and -D. */
  predicate ActionKey(k: int) { k == 27 || k == 13 || k == 10 || k == 12 || k == 3 || k == 4 }

  lemma ActionKeyMirrors(s: Screen, e: Editor, wasCr: bool, c: char)
    requires Mirrors(s, e) && Drawable(e) && ActionKey(c as int)
    ensures Answered(s, Key(e, wasCr, c)) && Drawable(Key(e, wasCr, c).ed)
  {
    var k := c as int;
    if CleanBelow(s) { NewlineShows(s); }
    if k == 3 {
      if CleanBelow(s) { CancelMirrors(s, e); }
    } else if k == 12 {
      RunCLEAR(s);
      PrefixedRedrawMirrors(s, CLEAR, e);
    } else if k == 4 {
      DeleteMirrors(s, e);
    }
  }

  lemma MotionKeyMirrors(s: Screen, e: Editor, wasCr: bool, c: char)
    requires Mirrors(s, e) && Drawable(e) && c as int in {127, 8, 1, 5, 23}
    ensures Answered(s, Key(e, wasCr, c)) && Drawable(Key(e, wasCr, c).ed)
  {
    var k := c as int;
    if k == 127 || k == 8 {
      BackspaceMirrors(s, e);
    } else if k == 1 {
      RedrawnMirrors(s, e.Home());
    } else if k == 5 {
      RedrawnMirrors(s, e.End());
    } else {
      EraseWordMirrors(s, e);
    }
  }

  lemma TextKeyMirrors(s: Screen, e: Editor, wasCr: bool, c: char)
    requires Mirrors(s, e) && Drawable(e) && !ActionKey(c as int) && c as int !in {127, 8, 1, 5, 23}
    ensures Answered(s, Key(e, wasCr, c)) && Drawable(Key(e, wasCr, c).ed)
  {
    var k := c as int;
    if k == 21 {
      EditMirrors(s, e, "", e.right);
    } else if k == 11 {
      EditMirrors(s, e, e.left, "");
    } else if Printable(c) {
      InsertMirrors(s, e, c);
    }
  }

  lemma KeyMirrors(s: Screen, e: Editor, wasCr: bool, c: char)
    requires Mirrors(s, e) && Drawable(e)
    ensures Answered(s, Key(e, wasCr, c)) && Drawable(Key(e, wasCr, c).ed)
  {
    if ActionKey(c as int) {
      ActionKeyMirrors(s, e, wasCr, c);
    } else if c as int in {127, 8, 1, 5, 23} {
      MotionKeyMirrors(s, e, wasCr, c);
    } else {
      TextKeyMirrors(s, e, wasCr, c);
    }
  }

  lemma EscapedMirrors(s: Screen, e: Editor, hist: seq<string>, c: char)
    requires Mirrors(s, e) && Drawable(e) && DrawableAll(hist) && -1 <= e.histPos < |hist| && e.esc != Typing
    ensures Answered(s, Escaped(e, hist, c)) && Drawable(Escaped(e, hist, c).ed)
  {
    var typing := e.(esc := Typing);
    if e.esc == AfterSs3 {
      RedrawnMirrors(s, typing.Home());
      RedrawnMirrors(s, typing.End());
    } else if e.esc == InCsi && !('0' <= c <= '9') && c != ';' {
      CsiKeyMirrors(s, typing, hist, c);
    }
  }

  /** One byte: the reply mirrors the new line, and the new line is drawable again. */
  lemma FeedMirrors(s: Screen, e: Editor, hist: seq<string>, listing: Listing, c: char)
    requires Mirrors(s, e) && Drawable(e) && Wf(e, hist) && WfHistory(hist) && DrawableAll(hist)
    requires WfListing(listing) && DrawableListing(listing)
    ensures Answered(s, Feed(e, hist, listing, c)) && Drawable(Feed(e, hist, listing, c).ed)
  {
    var quiet := e.(lastWasCr := false, tabPending := false);
    if e.esc != Typing {
      EscapedMirrors(s, quiet, hist, c);
    } else if c as int == 9 {
      TabMirrors(s, quiet, e.tabPending, listing);
    } else {
      KeyMirrors(s, quiet, e.lastWasCr, c);
    }
  }

  // ---------- replies that need no mirror ----------

  /** The reply ends in a redraw of the line, after nothing but text or a cleared screen. */
  ghost predicate Redraws(r: Reply) {
    exists before :: (Cooked(before) || before == CLEAR) && r.out == before + Redraw(r.ed)
  }

  /** All a reply may be: text, one cursor step, or something that ends in a redraw. */
  ghost predicate Plain(r: Reply) {
    Cooked(r.out) || r.out == [ESC, '[', 'C'] || r.out == [ESC, '[', 'D'] || Redraws(r)
  }

  lemma RedrawnRedraws(e: Editor)
    ensures Redraws(Redrawn(e))
  {
    assert Cooked("") && "" + Redraw(e) == Redraw(e);
  }

  lemma CompletePlain(e: Editor, second: bool, ws: nat, isCmd: bool, cands: seq<string>, dirlen: nat)
    requires ws <= |e.left| && DrawableAll(cands) && forall i | 0 <= i < |cands| :: dirlen <= |cands[i]|
    ensures Plain(Complete(e, second, ws, isCmd, cands, dirlen))
  {
    var r := Complete(e, second, ws, isCmd, cands, dirlen);
    if r.out == Redraw(r.ed) {
      RedrawnRedraws(r.ed);
    } else if r.out != [BEL] {
      TableCooked(cands, dirlen, 0, 0);
      assert Cooked("\r\n" + Table(cands, dirlen, 0, 0) + "\r\n");
    }
  }

  lemma TabPlain(e: Editor, second: bool, listing: Listing)
    requires WfListing(listing) && DrawableListing(listing)
    ensures Plain(Tab(e, second, listing))
  {
    if listing.Files? {
      var ws := WordStart(e.left);
      CommandsFit();
      var cmds := CommandMatches(COMMANDS, e.left[ws..], 0, MAX_CAND);
      forall i | 0 <= i < |cmds| ensures AllPrintable(cmds[i]) { assert CommandName(cmds[i]); }
      CompletePlain(e, second, ws, true, cmds, 0);
      CompletePlain(e, second, ws, false, listing.names, listing.dirlen);
    }
  }

  lemma EditPlain(e: Editor, k: int)
    requires EditKey(k)
    ensures Plain(EditWith(e, k))
  {
    var r := EditWith(e, k);
    if r.out == Redraw(r.ed) { RedrawnRedraws(r.ed); }
  }

  lemma ControlPlain(e: Editor, k: int)
    requires ControlKey(k) && AllPrintable(e.prompt)
    ensures Plain(ControlWith(e, k))
  {
    var r := ControlWith(e, k);
    if k == 4 && r.out == Redraw(r.ed) { RedrawnRedraws(r.ed); }
  }

  lemma InsertPlain(e: Editor, c: char)
    requires Printable(c)
    ensures Plain(Insert(e, c))
  {
    if e.right != "" { RedrawnRedraws(Insert(e, c).ed); }
  }

  lemma KeyPlain(e: Editor, wasCr: bool, c: char)
    requires AllPrintable(e.prompt)
    ensures Plain(Key(e, wasCr, c))
  {
    var k := c as int;
    if EditKey(k) {
      EditPlain(e, k);
    } else if ControlKey(k) {
      ControlPlain(e, k);
    } else if Printable(c) {
      InsertPlain(e, c);
    }
  }

  lemma {:induction false} EscapedPlain(e: Editor, hist: seq<string>, c: char)
    requires -1 <= e.histPos < |hist| && e.esc != Typing
    ensures Plain(Escaped(e, hist, c))
  {
    var r := Escaped(e, hist, c);
    if r.out == Redraw(r.ed) { RedrawnRedraws(r.ed); }
  }

  lemma FeedPlain(e: Editor, hist: seq<string>, listing: Listing, c: char)
    requires -1 <= e.histPos < |hist| && AllPrintable(e.prompt) && WfListing(listing) && DrawableListing(listing)
    ensures Plain(Feed(e, hist, listing, c))
  {
    var quiet := e.(lastWasCr := false, tabPending := false);
    if e.esc != Typing {
      EscapedPlain(quiet, hist, c);
    } else if c as int == 9 {
      TabPlain(quiet, e.tabPending, listing);
    } else {
      KeyPlain(quiet, e.lastWasCr, c);
    }
  }

  /** A reply that redraws makes any idle terminal mirror the line. */
  lemma RedrawRestores(s: Screen, r: Reply)
    requires Idle(s) && Drawable(r.ed) && Redraws(r)
    ensures Mirrors(Run(s, r.out), r.ed)
  {
    var before :| (Cooked(before) || before == CLEAR) && r.out == before + Redraw(r.ed);
    if before == CLEAR { RunCLEAR(s); } else { CookedIdle(s, before); }
    PrefixedRedrawMirrors(s, before, r.ed);
  }

  lemma PlainIdle(s: Screen, r: Reply)
    requires Idle(s) && Drawable(r.ed) && Plain(r)
    ensures Idle(Run(s, r.out))
  {
    if Redraws(r) {
      RedrawRestores(s, r);
    } else if Cooked(r.out) {
      CookedIdle(s, r.out);
    } else {
      RunThree(s, ESC, '[', r.out[2]);
    }
  }

  lemma PlainClean(s: Screen, r: Reply)
    requires Idle(s) && CleanBelow(s) && Drawable(r.ed) && Plain(r)
    ensures CleanBelow(Run(s, r.out))
  {
    if Redraws(r) {
      var before :| (Cooked(before) || before == CLEAR) && r.out == before + Redraw(r.ed);
      if before == CLEAR { RunCLEAR(s); } else { CookedClean(s, before); }
      PrefixedRedrawMirrors(s, before, r.ed);
    } else if Cooked(r.out) {
      CookedClean(s, r.out);
    } else {
      RunThree(s, ESC, '[', r.out[2]);
    }
  }
}
