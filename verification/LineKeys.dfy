/** What every key does to the text of the line and the cursor in it: t is the text before, c the cursor's place. */
module LineKeys {
  import opened CText
  import opened LineEdit
  import opened LineHistory

  /** The line is t, with the cursor before its c-th character. */
  ghost predicate Line(e: Editor, t: string, c: int) { 0 <= c <= |t| && e.left == t[..c] && e.right == t[c..] }

  /** The last word before c begins at b and ends at m: behind it are blanks, in it are none. */
  ghost predicate LastWord(t: string, c: int, b: int, m: int) {
    && 0 <= b <= m <= c <= |t|
    && (forall i | m <= i < c :: t[i] == ' ') && (m > 0 ==> t[m-1] != ' ')
    && (forall i | b <= i < m :: t[i] != ' ') && (b > 0 ==> t[b-1] == ' ')
  }

  /** Ctrl-A and -E move to the ends of the line; Ctrl-U erases what is before the cursor, Ctrl-K what is behind it,
      Backspace the character before it. */
  lemma {:induction false} EditingKeyMeans(e: Editor, hist: seq<string>, listing: Listing, x: char)
    requires Wf(e, hist) && WfListing(listing) && e.esc == Typing && x as int in {1, 5, 8, 11, 21, 127}
    ensures var t, c, k := e.left + e.right, |e.left|, x as int;
      var d := Feed(e, hist, listing, x).ed;
      && (k == 1 ==> Line(d, t, 0))
      && (k == 5 ==> Line(d, t, |t|))
      && (k == 21 ==> Line(d, t[c..], 0))
      && (k == 11 ==> Line(d, t[..c], c))
      && (k == 8 || k == 127 ==> if c > 0 then Line(d, t[..c-1] + t[c..], c - 1) else Line(d, t, c))
  {
    var quiet := e.(lastWasCr := false, tabPending := false);
    assert Feed(e, hist, listing, x) == EditWith(quiet, x as int);
    EditKeyMeans(quiet, x as int);
  }

  /** Ctrl-D deletes the character at the cursor, Ctrl-C drops the line; Enter, Ctrl-L and Escape leave it alone. */
  lemma {:induction false} ControlKeyMeans(e: Editor, hist: seq<string>, listing: Listing, x: char)
    requires Wf(e, hist) && WfListing(listing) && e.esc == Typing && x as int in {3, 4, 10, 12, 13, 27}
    ensures var t, c, k := e.left + e.right, |e.left|, x as int;
      var d := Feed(e, hist, listing, x).ed;
      && (k == 4 ==> if c < |t| then Line(d, t[..c] + t[c+1..], c) else Line(d, t, c))
      && (k == 3 ==> Line(d, "", 0))
      && (k in {10, 12, 13, 27} ==> Line(d, t, c))
  {
    var t, c := e.left + e.right, |e.left|;
    assert t[..c] == e.left && t[c..] == e.right;
    if x as int == 4 { DeleteMeans(e.(lastWasCr := false, tabPending := false)); }
  }

  /** Everything else but Tab is inserted before the cursor if it is printable and there is room, and dropped if not. */
  lemma {:induction false} InsertMeans(e: Editor, hist: seq<string>, listing: Listing, x: char)
    requires Wf(e, hist) && WfListing(listing) && e.esc == Typing
    requires x as int !in {1, 3, 4, 5, 8, 9, 10, 11, 12, 13, 21, 23, 27, 127}
    ensures var t, c, d := e.left + e.right, |e.left|, Feed(e, hist, listing, x).ed;
      if x as int >= 32 && |t| < LE_MAX - 1 then Line(d, t[..c] + [x] + t[c..], c + 1) else Line(d, t, c)
  {
    var t, c := e.left + e.right, |e.left|;
    assert t[..c] == e.left && t[c..] == e.right;
  }

  lemma {:induction false} EditKeyMeans(e: Editor, k: int)
    requires EditKey(k)
    ensures var t, c, d := e.left + e.right, |e.left|, EditWith(e, k).ed;
      && (k == 1 ==> Line(d, t, 0))
      && (k == 5 ==> Line(d, t, |t|))
      && (k == 21 ==> Line(d, t[c..], 0))
      && (k == 11 ==> Line(d, t[..c], c))
      && (k == 8 || k == 127 ==> if c > 0 then Line(d, t[..c-1] + t[c..], c - 1) else Line(d, t, c))
  {
    var t, c := e.left + e.right, |e.left|;
    assert t[..c] == e.left && t[c..] == e.right;
    Erased(e.left, e.right);
  }

  lemma {:induction false} DeleteMeans(e: Editor)
    ensures var t, c, d := e.left + e.right, |e.left|, DeleteAtCursor(e).ed;
      if c < |t| then Line(d, t[..c] + t[c+1..], c) else Line(d, t, c)
  {
    var t, c := e.left + e.right, |e.left|;
    assert t[..c] == e.left && t[c..] == e.right;
    Erased(e.left, e.right);
  }

  lemma {:induction false} Erased(l: string, r: string)
    ensures l != "" ==> (l + r)[..|l|-1] == l[..|l|-1]
    ensures r != "" ==> (l + r)[|l|+1..] == r[1..]
  {
  }

  /** Ctrl-W removes the last word before the cursor and the blanks behind it. */
  lemma {:induction false} EraseWordMeans(e: Editor, hist: seq<string>, listing: Listing)
    requires Wf(e, hist) && WfListing(listing) && e.esc == Typing
    ensures var t, c := e.left + e.right, |e.left|;
      var r := Feed(e, hist, listing, 23 as char);
      exists b, m :: LastWord(t, c, b, m) && Line(r.ed, t[..b] + t[c..], b)
  {
    var t, c := e.left + e.right, |e.left|;
    assert t[..c] == e.left && t[c..] == e.right;
    var m := SkipBlanksBack(e.left, c);
    var b := SkipWordBack(e.left, m);
    assert forall i | 0 <= i < c :: t[i] == e.left[i];
    assert LastWord(t, c, b, m);
    assert t[..b] == e.left[..b];
    if b == c { assert e.left[..b] == e.left; }
  }

  /** A key that changes the text leaves the history; Enter and Ctrl-C leave it in any case, and no other key does. */
  lemma {:induction false} EditLeavesHistory(e: Editor, hist: seq<string>, listing: Listing, x: char)
    requires Wf(e, hist) && WfListing(listing) && e.esc == Typing && x as int != 9
    ensures var r := Feed(e, hist, listing, x);
      && (r.ed.left + r.ed.right != e.left + e.right || x as int == 3 || r.action == Action.Line ==> r.ed.histPos == -1)
      && (r.ed.histPos != e.histPos ==> r.ed.histPos == -1)
      && r.ed.saved == e.saved
  {
    Erased(e.left, e.right);
  }

  /** When the caller is told what: a line at Enter, but not at the line feed of a pair; the end of input at Ctrl-D on
      an empty line; a dropped line at Ctrl-C. */
  lemma {:induction false} ActionMeans(e: Editor, hist: seq<string>, listing: Listing, x: char)
    requires Wf(e, hist) && WfListing(listing)
    ensures var r := Feed(e, hist, listing, x);
      && (r.action == Action.Line <==> e.esc == Typing && (x as int == 13 || (x as int == 10 && !e.lastWasCr)))
      && (r.action == Eof <==> e.esc == Typing && x as int == 4 && e.left + e.right == "")
      && (r.action == Cancel <==> e.esc == Typing && x as int == 3)
      && (r.ed.lastWasCr <==> e.esc == Typing && x as int == 13)
  {
    var quiet := e.(lastWasCr := false, tabPending := false);
    if e.esc != Typing {
      EscapedQuiet(quiet, hist, x);
    } else if x as int == 9 {
      TabQuiet(quiet, e.tabPending, listing);
    }
  }

  lemma {:induction false} EscapedQuiet(e: Editor, hist: seq<string>, x: char)
    requires -1 <= e.histPos < |hist| && e.esc != Typing
    ensures var r := Escaped(e, hist, x);
      r.action == Action.None && r.ed.lastWasCr == e.lastWasCr
  {
  }

  lemma {:induction false} CompleteQuiet(e: Editor, second: bool, ws: nat, isCmd: bool, cands: seq<string>, dirlen: nat)
    requires ws <= |e.left| && forall i | 0 <= i < |cands| :: dirlen <= |cands[i]|
    ensures var r := Complete(e, second, ws, isCmd, cands, dirlen);
      r.action == Action.None && r.ed.lastWasCr == e.lastWasCr && r.ed.esc == e.esc
  {
  }

  lemma {:induction false} TabQuiet(e: Editor, second: bool, listing: Listing)
    requires WfListing(listing)
    ensures var r := Tab(e, second, listing);
      r.action == Action.None && r.ed.lastWasCr == e.lastWasCr && r.ed.esc == e.esc
  {
    if listing.Files? {
      var ws := WordStart(e.left);
      CompleteQuiet(e, second, ws, true, CommandMatches(COMMANDS, e.left[ws..], 0, MAX_CAND), 0);
      CompleteQuiet(e, second, ws, false, listing.names, listing.dirlen);
    }
  }

  // ---------- escape sequences ----------

  /** How the bytes of a sequence are read; a byte that is no part of one ends it. */
  lemma {:induction false} EscapeMeans(e: Editor, hist: seq<string>, listing: Listing, x: char)
    requires Wf(e, hist) && WfListing(listing)
    ensures var d := Feed(e, hist, listing, x).ed;
      match e.esc
      case Typing => if x as int == 27 then d.esc == AfterEsc else d.esc == Typing
      case AfterEsc =>
        && (d.left, d.right) == (e.left, e.right)
        && if x == '[' then d.esc == InCsi && d.arg == 0 else d.esc == if x == 'O' then AfterSs3 else Typing
      case InCsi =>
        if '0' <= x <= '9' || x == ';' then
          && d.esc == InCsi && (d.left, d.right) == (e.left, e.right)
          && d.arg == if x == ';' then 0 else e.arg * 10 + (x as nat - 48)
        else d.esc == Typing
      case AfterSs3 => d.esc == Typing
  {
    if e.esc == Typing && x as int == 9 {
      TabQuiet(e.(lastWasCr := false, tabPending := false), e.tabPending, listing);
    }
  }

  /** What the last byte of a sequence does: arrows, Home, End and Delete, in all their spellings. */
  lemma {:induction false} FinalMeans(e: Editor, hist: seq<string>, listing: Listing, x: char)
    requires Wf(e, hist) && WfListing(listing) && e.esc in {InCsi, AfterSs3}
    requires e.esc == InCsi ==> !('0' <= x <= '9') && x !in {';', 'A', 'B'}
    ensures var t, c, d := e.left + e.right, |e.left|, Feed(e, hist, listing, x).ed;
      if e.esc == InCsi && x == 'C' then Line(d, t, if c < |t| then c + 1 else c)
      else if e.esc == InCsi && x == 'D' then Line(d, t, if c > 0 then c - 1 else c)
      else if x == 'H' || (e.esc == InCsi && x == '~' && e.arg in {1, 7}) then Line(d, t, 0)
      else if x == 'F' || (e.esc == InCsi && x == '~' && e.arg in {4, 8}) then Line(d, t, |t|)
      else if e.esc == InCsi && x == '~' && e.arg == 3 && c < |t| then Line(d, t[..c] + t[c+1..], c)
      else Line(d, t, c)
  {
    var t, c := e.left + e.right, |e.left|;
    assert t[..c] == e.left && t[c..] == e.right;
    Erased(e.left, e.right);
  }
}
