/** Whole runs of the line editor: any bytes, any history added meanwhile, any command output. */
module LineSession {
  import opened CText
  import opened Terminal
  import opened LineEdit
  import opened LineMirror

  /** The editor with its shared history and the terminal it talks to. */
  datatype Session = Session(ed: Editor, hist: seq<string>, screen: Screen)

  /** A byte from the terminal (with what Tab would find, and what the caller prints if it completes a
      line), or a line some editor adds to the history. */
  datatype Event = Byte(c: char, listing: Listing, output: string) | Remember(line: string)

  /** After a line or end of input the caller prints its output, resets the editor and prints the
      prompt. */
  function After(st: Session, ev: Event): Session
    requires -1 <= st.ed.histPos < |st.hist| && (ev.Byte? ==> WfListing(ev.listing))
  {
    match ev
    case Remember(line) => st.(hist := HistoryAdd(st.hist, line))
    case Byte(c, listing, output) =>
      var r := Feed(st.ed, st.hist, listing, c);
      var screen := Run(st.screen, r.out);
      if r.action in {Line, Eof} then
        st.(ed := Reset(r.ed), screen := Run(Run(screen, output), r.ed.prompt))
      else st.(ed := r.ed, screen := screen)
  }

  /** The editor and its history are well formed and printable, and no control sequence is pending. */
  ghost predicate Steady(st: Session) {
    && Wf(st.ed, st.hist) && WfHistory(st.hist)
    && Drawable(st.ed) && DrawableAll(st.hist)
    && Idle(st.screen)
  }

  ghost predicate Mirrored(st: Session) { Steady(st) && Mirrors(st.screen, st.ed) }

  /** Output that leaves no control sequence pending: any text, and any complete control sequences. */
  ghost predicate Settling(output: string) { forall s | Idle(s) :: Idle(Run(s, output)) }

  /** Names and remembered lines are printable, and a command leaves no control sequence pending. */
  ghost predicate Plausible(ev: Event) {
    match ev
    case Remember(line) => AllPrintable(line)
    case Byte(_, listing, output) => WfListing(listing) && DrawableListing(listing) && Settling(output)
  }

  ghost predicate AllPlausible(events: seq<Event>) { forall i | 0 <= i < |events| :: Plausible(events[i]) }

  lemma CookedSettles(output: string)
    requires Cooked(output)
    ensures Settling(output)
  {
    forall s | Idle(s) ensures Idle(Run(s, output)) { CookedIdle(s, output); }
  }

  function Answer(st: Session, ev: Event): Reply
    requires -1 <= st.ed.histPos < |st.hist| && ev.Byte? && WfListing(ev.listing)
  {
    Feed(st.ed, st.hist, ev.listing, ev.c)
  }

  /** The byte completed a line or ended the input, so that output and a new prompt follow. */
  predicate Finishes(r: Reply) { r.action in {Line, Eof} }

  /** The prompt is printed anew, by the caller or, after Ctrl-C, by the editor. */
  predicate Prompts(r: Reply) { Finishes(r) || r.action == Cancel }

  /** The screen the new prompt is printed on. */
  ghost function PromptScreen(st: Session, ev: Event): Screen
    requires -1 <= st.ed.histPos < |st.hist| && ev.Byte? && WfListing(ev.listing)
  {
    if Finishes(Answer(st, ev)) then Run(Run(st.screen, Answer(st, ev).out), ev.output)
    else Run(st.screen, "^C\r\n")
  }

  /** The cursor stands at the left of a row that is blank where the prompt will not cover it. */
  ghost predicate Fresh(s: Screen, prompt: string) {
    s.col == 0 && forall i: nat | i >= |prompt| :: Cell(s.row, i) == ' '
  }

  lemma FreshShows(s: Screen, prompt: string)
    requires Idle(s) && AllPrintable(prompt)
    ensures Idle(Run(s, prompt)) && (Shows(Run(s, prompt), prompt, |prompt|) <==> Fresh(s, prompt))
  {
    RunText(s, prompt);
    var t := Run(s, prompt);
    if Shows(t, prompt, |prompt|) {
      forall i: nat | i >= |prompt| ensures Cell(s.row, i) == ' ' { assert Cell(t.row, i) == Cell(prompt, i); }
    }
  }

  /** Whatever the row shows, the editor stays drawable: that is no matter of the screen. */
  lemma FeedDrawable(st: Session, ev: Event)
    requires Steady(st) && ev.Byte? && Plausible(ev)
    ensures Drawable(Answer(st, ev).ed)
  {
    var e := st.ed;
    var drawn := Screen([], e.prompt + e.Text(), [], |e.prompt| + |e.left|, Ground);
    FeedMirrors(drawn, e, st.hist, ev.listing, ev.c);
  }

  /** The prompt stays, a finished line is answered by a new row, and Ctrl-C by a new row with a prompt. */
  ghost predicate Answers(e: Editor, r: Reply) {
    && r.ed.prompt == e.prompt
    && (Finishes(r) ==> r.out == "\r\n")
    && (r.action == Cancel ==> r == Reply(Reset(e), "^C\r\n" + e.prompt, Cancel))
  }

  lemma {:induction false} EscapedAnswers(e: Editor, hist: seq<string>, c: char)
    requires -1 <= e.histPos < |hist| && e.esc != Typing
    ensures Answers(e, Escaped(e, hist, c))
  {
  }

  lemma {:induction false} CompleteAnswers(e: Editor, second: bool, ws: nat, isCmd: bool, cands: seq<string>,
      dirlen: nat)
    requires ws <= |e.left| && forall i | 0 <= i < |cands| :: dirlen <= |cands[i]|
    ensures Answers(e, Complete(e, second, ws, isCmd, cands, dirlen))
  {
  }

  lemma {:induction false} TabAnswers(e: Editor, second: bool, listing: Listing)
    requires WfListing(listing)
    ensures Answers(e, Tab(e, second, listing))
  {
    if listing.Files? {
      var ws := WordStart(e.left);
      CompleteAnswers(e, second, ws, true, CommandMatches(COMMANDS, e.left[ws..], 0, MAX_CAND), 0);
      CompleteAnswers(e, second, ws, false, listing.names, listing.dirlen);
    }
  }

  lemma {:induction false} KeyAnswers(e: Editor, wasCr: bool, c: char)
    ensures Answers(e, Key(e, wasCr, c))
  {
    var k := c as int;
    if EditKey(k) { assert EditWith(e, k).ed.prompt == e.prompt && EditWith(e, k).action == None; }
  }

  lemma {:induction false} FeedAnswers(e: Editor, hist: seq<string>, listing: Listing, c: char)
    requires -1 <= e.histPos < |hist| && WfListing(listing)
    ensures Answers(e.(lastWasCr := false, tabPending := false), Feed(e, hist, listing, c))
  {
    var quiet := e.(lastWasCr := false, tabPending := false);
    if e.esc != Typing {
      EscapedAnswers(quiet, hist, c);
    } else if c as int == 9 {
      TabAnswers(quiet, e.tabPending, listing);
    } else {
      KeyAnswers(quiet, e.lastWasCr, c);
    }
  }

  /** What a byte does to the session, up to the output that follows a finished line. */
  lemma ByteKeepsSteady(st: Session, ev: Event)
    requires Steady(st) && ev.Byte? && Plausible(ev)
    ensures var r := Answer(st, ev);
      && Wf(r.ed, st.hist) && Drawable(r.ed) && r.ed.prompt == st.ed.prompt
      && Idle(Run(st.screen, r.out)) && Idle(Run(Run(st.screen, r.out), ev.output))
  {
    var r := Answer(st, ev);
    FeedDrawable(st, ev);
    FeedKeepsWf(st.ed, st.hist, ev.listing, ev.c);
    FeedAnswers(st.ed, st.hist, ev.listing, ev.c);
    FeedPlain(st.ed, st.hist, ev.listing, ev.c);
    PlainIdle(st.screen, r);
  }

  /** A finished line: after output and prompt the screen mirrors the empty line if and only if the output left the
      cursor at the left of a row that is blank beyond the prompt. */
  lemma FinishedMirrorsIff(st: Session, ev: Event)
    requires Steady(st) && ev.Byte? && Plausible(ev) && Finishes(Answer(st, ev))
    ensures Steady(After(st, ev))
    ensures Mirrored(After(st, ev)) <==> Fresh(PromptScreen(st, ev), st.ed.prompt)
  {
    var r := Answer(st, ev);
    ByteKeepsSteady(st, ev);
    FreshShows(Run(Run(st.screen, r.out), ev.output), r.ed.prompt);
    assert r.ed.prompt + Reset(r.ed).Text() == r.ed.prompt;
  }

  lemma RememberKeepsSteady(st: Session, line: string)
    requires Steady(st) && AllPrintable(line)
    ensures Steady(st.(hist := HistoryAdd(st.hist, line)))
  {
    assert NulFree(line);
  }

  lemma AfterKeepsSteady(st: Session, ev: Event)
    requires Steady(st) && Plausible(ev)
    ensures Steady(After(st, ev))
  {
    if ev.Remember? {
      RememberKeepsSteady(st, ev.line);
    } else {
      ByteKeepsSteady(st, ev);
      if Finishes(Answer(st, ev)) { FinishedMirrorsIff(st, ev); }
    }
  }

  /** An event after which the screen mirrors the line whatever it showed before: a redraw, or a new prompt on a
      fresh row. */
  ghost predicate Restores(st: Session, ev: Event)
    requires Steady(st) && Plausible(ev)
  {
    ev.Byte? &&
    var r := Answer(st, ev);
    if Prompts(r) then Fresh(PromptScreen(st, ev), st.ed.prompt) else Redraws(r)
  }

  /** After Ctrl-C the screen mirrors the empty line if and only if the next row was blank beyond the prompt. */
  lemma CancelMirrorsIff(st: Session, ev: Event)
    requires Steady(st) && ev.Byte? && Plausible(ev) && Answer(st, ev).action == Cancel
    ensures Mirrored(After(st, ev)) <==> Fresh(PromptScreen(st, ev), st.ed.prompt)
  {
    var e := st.ed;
    ByteKeepsSteady(st, ev);
    FeedAnswers(e, st.hist, ev.listing, ev.c);
    RunConcat(st.screen, "^C\r\n", e.prompt);
    CookedIdle(st.screen, "^C\r\n");
    FreshShows(Run(st.screen, "^C\r\n"), e.prompt);
    assert e.prompt + Reset(e).Text() == e.prompt;
  }

  lemma RestoresMirror(st: Session, ev: Event)
    requires Steady(st) && Plausible(ev) && Restores(st, ev)
    ensures Mirrored(After(st, ev))
  {
    var r := Answer(st, ev);
    ByteKeepsSteady(st, ev);
    if Finishes(r) {
      FinishedMirrorsIff(st, ev);
    } else if r.action == Cancel {
      CancelMirrorsIff(st, ev);
    } else {
      RedrawRestores(st.screen, r);
    }
  }

  /** A single event: a mirrored session stays mirrored, except exactly when a new prompt is not on a fresh row; and
      an event that restores the mirror does so from any state. */
  lemma AfterKeepsMirrored(st: Session, ev: Event)
    requires Steady(st) && Plausible(ev)
    ensures Steady(After(st, ev))
    ensures Restores(st, ev) ==> Mirrored(After(st, ev))
    ensures Mirrored(st) ==>
              (Mirrored(After(st, ev)) <==> (ev.Byte? && Prompts(Answer(st, ev)) ==> Restores(st, ev)))
  {
    AfterKeepsSteady(st, ev);
    if Restores(st, ev) {
      RestoresMirror(st, ev);
    } else if ev.Byte? && Finishes(Answer(st, ev)) {
      FinishedMirrorsIff(st, ev);
    } else if ev.Byte? && Prompts(Answer(st, ev)) {
      CancelMirrorsIff(st, ev);
    } else if Mirrored(st) && ev.Byte? {
      FeedMirrors(st.screen, st.ed, st.hist, ev.listing, ev.c);
    }
  }

  ghost function AfterAll(st: Session, events: seq<Event>): (r: Session)
    requires Steady(st) && AllPlausible(events)
    ensures Steady(r)
    decreases |events|
  {
    if events == [] then st
    else
      var before := AfterAll(st, events[..|events|-1]);
      AfterKeepsSteady(before, events[|events|-1]);
      After(before, events[|events|-1])
  }

  /** The row is in order: it was at the start or some event has restored it, and no prompt since is elsewhere than
      on a fresh row. */
  ghost predicate InOrder(st: Session, events: seq<Event>)
    requires Steady(st) && AllPlausible(events)
    decreases |events|
  {
    if events == [] then Mirrored(st)
    else
      var init, ev := events[..|events|-1], events[|events|-1];
      var before := AfterAll(st, init);
      Restores(before, ev) || (InOrder(st, init) && (ev.Byte? ==> !Prompts(Answer(before, ev))))
  }

  /** Over every run the line fits its buffer, history positions are in range and no control sequence is pending;
      and as long as the row is in order the screen mirrors the line. */
  lemma {:induction false} RunsMirror(st: Session, events: seq<Event>)
    requires Steady(st) && AllPlausible(events)
    ensures Steady(AfterAll(st, events))
    ensures InOrder(st, events) ==> Mirrored(AfterAll(st, events))
    decreases |events|
  {
    if events != [] {
      var init, ev := events[..|events|-1], events[|events|-1];
      RunsMirror(st, init);
      AfterKeepsMirrored(AfterAll(st, init), ev);
    }
  }

  /** Output that is nothing, or text whose last row is ended. */
  ghost predicate EndsRow(output: string) {
    output == "" || exists body :: Cooked(body) && output == body + "\r\n"
  }

  lemma EndsRowFresh(s: Screen, output: string, prompt: string)
    requires Shows(s, "", 0) && CleanBelow(s) && EndsRow(output)
    ensures Fresh(Run(s, output), prompt) && CleanBelow(Run(s, output))
  {
    if output != "" {
      var body :| Cooked(body) && output == body + "\r\n";
      RunConcat(s, body, "\r\n");
      CookedClean(s, body);
      NewlineShows(Run(s, body));
    }
    var t := Run(s, output);
    forall i: nat | i >= |prompt| ensures Cell(t.row, i) == ' ' { assert Cell(t.row, i) == Cell("", i); }
  }

  /** A new prompt above blank rows is on a fresh row, if the output before it ends its last row. */
  lemma EndedLineRestores(st: Session, ev: Event)
    requires Steady(st) && ev.Byte? && Plausible(ev) && Prompts(Answer(st, ev)) && EndsRow(ev.output)
    requires CleanBelow(st.screen)
    ensures Restores(st, ev) && CleanBelow(PromptScreen(st, ev))
  {
    FeedAnswers(st.ed, st.hist, ev.listing, ev.c);
    if Finishes(Answer(st, ev)) {
      NewlineShows(st.screen);
      EndsRowFresh(Run(st.screen, "\r\n"), ev.output, st.ed.prompt);
    } else {
      assert "^C\r\n" == "^C" + "\r\n";
      RunConcat(st.screen, "^C", "\r\n");
      CookedClean(st.screen, "^C");
      NewlineShows(Run(st.screen, "^C"));
      EndsRowFresh(Run(st.screen, "^C\r\n"), "", st.ed.prompt);
    }
  }

  lemma PromptKeepsClean(s: Screen, prompt: string)
    requires Idle(s) && AllPrintable(prompt)
    ensures Run(s, prompt).below == s.below
  {
    RunText(s, prompt);
  }

  /** No reply leaves anything below the cursor. */
  lemma CleanAfter(st: Session, ev: Event)
    requires Steady(st) && ev.Byte? && Plausible(ev) && EndsRow(ev.output) && CleanBelow(st.screen)
    ensures CleanBelow(After(st, ev).screen)
  {
    var r := Answer(st, ev);
    ByteKeepsSteady(st, ev);
    FeedPlain(st.ed, st.hist, ev.listing, ev.c);
    if Finishes(r) {
      EndedLineRestores(st, ev);
      PromptKeepsClean(PromptScreen(st, ev), r.ed.prompt);
    } else {
      PlainClean(st.screen, r);
    }
  }

  /** If every command ends the last row of its output, a session once mirrored above blank rows always is. */
  lemma {:induction false} EndedRowsMirror(st: Session, events: seq<Event>)
    requires Mirrored(st) && CleanBelow(st.screen) && AllPlausible(events)
    requires forall i | 0 <= i < |events| && events[i].Byte? :: EndsRow(events[i].output)
    ensures InOrder(st, events) && Mirrored(AfterAll(st, events)) && CleanBelow(AfterAll(st, events).screen)
    decreases |events|
  {
    RunsMirror(st, events);
    if events != [] {
      var init, ev := events[..|events|-1], events[|events|-1];
      EndedRowsMirror(st, init);
      var before := AfterAll(st, init);
      if ev.Byte? {
        CleanAfter(before, ev);
        if Prompts(Answer(before, ev)) { EndedLineRestores(before, ev); }
      }
    }
  }

  const ENTER_X: Event := Byte('\r', NoMemory, "x")

  const HOME: Event := Byte(1 as char, NoMemory, "")

  /** Ctrl-A redraws. */
  lemma HomeRestores(st: Session)
    requires Steady(st) && st.ed.esc == Typing
    ensures Plausible(HOME) && Mirrored(After(st, HOME))
  {
    CookedSettles("");
    assert Answer(st, HOME) == Redrawn(st.ed.(lastWasCr := false, tabPending := false).Home());
    RedrawnRedraws(Answer(st, HOME).ed);
    RestoresMirror(st, HOME);
  }

  /** Enter, and output that leaves the cursor in column 1. */
  lemma EnterShifts(st: Session)
    requires Steady(st) && st.ed.esc == Typing
    ensures Plausible(ENTER_X) && Steady(After(st, ENTER_X)) && !Mirrored(After(st, ENTER_X))
    ensures After(st, ENTER_X).ed.esc == Typing
  {
    CookedSettles("x");
    assert Answer(st, ENTER_X).out == "\r\n" && Finishes(Answer(st, ENTER_X));
    NewlineIdle(st.screen);
    RunOne(Run(st.screen, "\r\n"), 'x');
    FinishedMirrorsIff(st, ENTER_X);
  }

  /** Output that does not end its row: after Enter and the output "x" the prompt stands in column 1 and the screen
      does not mirror the line; after Ctrl-A it does again. */
  lemma UnendedOutputShifts(st: Session)
    requires Steady(st) && st.ed.esc == Typing
    ensures AllPlausible([ENTER_X, HOME])
    ensures !Mirrored(AfterAll(st, [ENTER_X])) && Mirrored(AfterAll(st, [ENTER_X, HOME]))
  {
    EnterShifts(st);
    HomeRestores(After(st, ENTER_X));
    assert [ENTER_X, HOME][..1] == [ENTER_X] && [ENTER_X][..0] == [];
    assert AfterAll(st, []) == st;
  }

  /** A freshly printed prompt starts a mirrored session. */
  lemma FreshSessionMirrored(prompt: string, hist: seq<string>, s: Screen)
    requires AllPrintable(prompt) && WfHistory(hist) && DrawableAll(hist) && Shows(s, "", 0)
    ensures var e := Editor(prompt, "", "", "", Typing, 0, -1, false, false);
      Mirrored(Session(e, hist, Run(s, prompt)))
  {
    PromptShows(s, prompt);
    assert prompt + ("" + "") == prompt;
  }

  /** The incremental reply leaves the row and the cursor exactly as redrawing the whole line would. */
  lemma ReplyAgreesWithRedraw(st: Session, listing: Listing, c: char)
    requires Mirrored(st) && WfListing(listing) && DrawableListing(listing)
    requires Feed(st.ed, st.hist, listing, c).action == None
    ensures var r := Feed(st.ed, st.hist, listing, c);
      var quick, full := Run(st.screen, r.out), Run(st.screen, Redraw(r.ed));
      SameCells(quick.row, full.row) && quick.col == full.col
  {
    FeedMirrors(st.screen, st.ed, st.hist, listing, c);
    RedrawMirrors(st.screen, Feed(st.ed, st.hist, listing, c).ed);
  }
}
