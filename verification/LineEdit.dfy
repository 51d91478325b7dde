/** What the command-line editor means, as functions on a zipper: the text left of the cursor and the
    text from the cursor on. `Feed` gives, for one byte, the next editor, the bytes sent back to the
    terminal and the action reported to the caller. */
module LineEdit {
  import opened CText
  import opened Terminal

  const LE_MAX: nat := 160
  const LE_HIST: nat := 20
  const WORD_MAX: nat := 96
  const CAND_MAX: nat := 56
  const MAX_CAND: nat := 32

  const REDRAW: string := ['\r', ESC, '[', 'K']
  const CLEAR: string := [ESC, '[', '2', 'J', ESC, '[', 'H']

  datatype Action = None | Line | Eof | Cancel

  datatype EscState = Typing | AfterEsc | InCsi | AfterSs3

  datatype Editor = Editor(prompt: string, left: string, right: string, saved: string,
                           esc: EscState, arg: nat, histPos: int, lastWasCr: bool, tabPending: bool)
  {
    function Text(): string { left + right }

    function Home(): Editor { this.(left := "", right := left + right) }

    function End(): Editor { this.(left := left + right, right := "") }

    /** Editing leaves the history. */
    function Edit(l: string, r: string): Editor { this.(left := l, right := r, histPos := -1) }

    function Load(line: string): Editor { this.(left := Clip(line, LE_MAX), right := "") }
  }

  datatype Reply = Reply(ed: Editor, out: string, action: Action)

  /** Names the completion of a file word would offer, in order, and the length of their directory
      part; or no memory for the list. */
  datatype Listing = NoMemory | Files(names: seq<string>, dirlen: nat)

  const COMMANDS_A_E := [
    "alias", "at", "battery", "brightness", "cat", "cp", "cron", "curl", "date", "df", "du", "echo", "exit"
  ]
  const COMMANDS_F_L := [
    "free", "ftp", "ftppass", "grep", "head", "help", "hostname", "htop", "ifconfig", "imu", "info", "ls"
  ]
  const COMMANDS_M_S := [
    "mkdir", "mv", "neofetch", "nslookup", "ps", "reboot", "rm", "scrprobe", "scrshot", "set", "sh", "sleep"
  ]
  const COMMANDS_T_W := [
    "tail", "tar", "touch", "unalias", "uptime", "volume", "watch", "wc", "wget", "wifi", "wifi-off", "wifi-on"
  ]

  const COMMANDS: seq<string> := COMMANDS_A_E + COMMANDS_F_L + COMMANDS_M_S + COMMANDS_T_W

  // ---------- invariants ----------

  /** What every reachable editor satisfies, whatever bytes were fed. */
  ghost predicate Wf(e: Editor, hist: seq<string>) {
    && |e.left| + |e.right| < LE_MAX && NulFree(e.left) && NulFree(e.right)
    && |e.saved| < LE_MAX && NulFree(e.saved)
    && -1 <= e.histPos < |hist|
  }

  ghost predicate WfHistory(hist: seq<string>) {
    |hist| <= LE_HIST && forall i | 0 <= i < |hist| :: |hist[i]| < LE_MAX && NulFree(hist[i])
  }

  ghost predicate WfListing(l: Listing) {
    l.Files? ==>
      && |l.names| <= MAX_CAND
      && forall i | 0 <= i < |l.names| :: l.dirlen <= |l.names[i]| < CAND_MAX && NulFree(l.names[i])
  }

  // ---------- drawing ----------

  function Redraw(e: Editor): string {
    REDRAW + e.prompt + e.Text() + (if e.right == "" then "" else [ESC, '['] + Decimal(|e.right|) + "D")
  }

  function Redrawn(e: Editor): Reply { Reply(e, Redraw(e), None) }

  function Silent(e: Editor): Reply { Reply(e, "", None) }

  function Bell(e: Editor): Reply { Reply(e, [BEL], None) }

  // ---------- history ----------

  function HistoryAdd(hist: seq<string>, line: string): seq<string> {
    if line == "" || "ftppass" <= line || (hist != [] && hist[0] == line) then hist
    else [Clip(line, LE_MAX)] + if |hist| < LE_HIST then hist else hist[..LE_HIST - 1]
  }

  function HistoryUp(e: Editor, hist: seq<string>): Reply
    requires -1 <= e.histPos
  {
    if e.histPos + 1 >= |hist| then Bell(e)
    else
      var s := if e.histPos < 0 then e.(saved := e.Text()) else e;
      Redrawn(s.(histPos := e.histPos + 1).Load(hist[e.histPos + 1]))
  }

  function HistoryDown(e: Editor, hist: seq<string>): Reply
    requires e.histPos < |hist|
  {
    if e.histPos < 0 then Bell(e)
    else
      Redrawn(e.(histPos := e.histPos - 1).Load(if e.histPos == 0 then e.saved else hist[e.histPos - 1]))
  }

  // ---------- completion ----------

  predicate StopsWord(c: char) { c == ' ' || c == '|' || c == '>' }

  /** Start of the word that ends at the cursor. */
  function WordStart(left: string): (ws: nat)
    ensures ws <= |left| && (forall i | ws <= i < |left| :: !StopsWord(left[i]))
    ensures ws == 0 || StopsWord(left[ws-1])
  {
    if left == "" || StopsWord(left[|left|-1]) then |left| else WordStart(left[..|left|-1])
  }

  function SkipBlanksBack(s: string, n: nat): (p: nat)
    requires n <= |s|
    ensures p <= n && (forall i | p <= i < n :: s[i] == ' ') && (p == 0 || s[p-1] != ' ')
  {
    if n > 0 && s[n-1] == ' ' then SkipBlanksBack(s, n - 1) else n
  }

  function SkipWordBack(s: string, n: nat): (p: nat)
    requires n <= |s|
    ensures p <= n && (forall i | p <= i < n :: s[i] != ' ') && (p == 0 || s[p-1] == ' ')
  {
    if n > 0 && s[n-1] != ' ' then SkipWordBack(s, n - 1) else n
  }

  /** A command is expected at the start of the line and right after a '|'. */
  predicate CommandPosition(left: string, ws: nat)
    requires ws <= |left|
  {
    var p := SkipBlanksBack(left, ws);
    && (p == 0 || left[p-1] == '|')
    && !(ws > 0 && left[ws-1] != ' ' && left[ws-1] != '|')
  }

  /** Commands from the i-th on that start with the word, at most `room` of them. */
  function CommandMatches(commands: seq<string>, word: string, i: nat, room: nat): (r: seq<string>)
    requires i <= |commands|
    decreases |commands| - i
    ensures |r| <= room && forall k | 0 <= k < |r| :: word <= r[k] && r[k] in commands
  {
    if i == |commands| || room == 0 then []
    else if word <= commands[i] then [commands[i]] + CommandMatches(commands, word, i + 1, room - 1)
    else CommandMatches(commands, word, i + 1, room)
  }

  /** How far a[..n] and b agree, given that they agree before i. */
  function CommonLen(a: string, b: string, i: nat, n: nat): (k: nat)
    requires i <= n <= |a|
    decreases n - i
    ensures i <= k <= n && (i <= |b| ==> k <= |b| && forall x | i <= x < k :: a[x] == b[x])
    ensures k < n && k < |b| ==> a[k] != b[k]
  {
    if i < n && i < |b| && a[i] == b[i] then CommonLen(a, b, i + 1, n) else i
  }

  /** Length of the common prefix of the first n candidates. */
  function CommonPrefix(cands: seq<string>, n: nat): (cp: nat)
    requires 1 <= n <= |cands|
    ensures cp <= |cands[0]|
  {
    if n == 1 then |cands[0]| else CommonLen(cands[0], cands[n-1], 0, CommonPrefix(cands, n - 1))
  }

  function StripSlashes(w: string): string
    decreases |w|
  {
    if w != "" && w[0] == '/' then StripSlashes(w[1..]) else w
  }

  /** Replaces the word from ws to the cursor. A line that would be full up stays as it is, but the
      text before the cursor has already been cut to the buffer size when that is decided. */
  function ReplaceWord(e: Editor, ws: nat, text: string, addSpace: bool): Editor
    requires ws <= |e.left|
  {
    var l := Clip(e.left[..ws] + text + if addSpace then " " else "", LE_MAX);
    if |l| + |e.right| >= LE_MAX then e else e.(left := l)
  }

  /** The candidate table in columns of at most 72, from the i-th on. */
  function Table(cands: seq<string>, dirlen: nat, i: nat, col: nat): string
    requires i <= |cands| && forall k | 0 <= k < |cands| :: dirlen <= |cands[k]|
    decreases |cands| - i
  {
    if i == |cands| then ""
    else
      var shown := cands[i][dirlen..];
      var wrap := col + |shown| + 2 > 72 && col > 0;
      (if wrap then "\r\n" else "") + shown + "  " +
      Table(cands, dirlen, i + 1, (if wrap then 0 else col) + |shown| + 2)
  }

  /** What Tab does with the candidates for the word that starts at ws. */
  function Complete(e: Editor, second: bool, ws: nat, isCmd: bool, cands: seq<string>, dirlen: nat): Reply
    requires ws <= |e.left| && forall i | 0 <= i < |cands| :: dirlen <= |cands[i]|
  {
    if cands == [] then Bell(e)
    else if |cands| == 1 then
      var c := cands[0];
      Redrawn(ReplaceWord(e, ws, c, !(c != "" && c[|c|-1] == '/')))
    else
      var word := e.left[ws..];
      var cp := CommonPrefix(cands, |cands|);
      if cp > |if isCmd then word else StripSlashes(word)| then
        Redrawn(ReplaceWord(e, ws, cands[0][..cp], false).(tabPending := true))
      else if second then Reply(e, "\r\n" + Table(cands, dirlen, 0, 0) + "\r\n" + Redraw(e), None)
      else Bell(e.(tabPending := true))
  }

  function Tab(e: Editor, second: bool, listing: Listing): Reply
    requires WfListing(listing)
  {
    var ws := WordStart(e.left);
    if |e.left| - ws >= WORD_MAX then Bell(e)
    else if listing.NoMemory? then Silent(e)
    else if CommandPosition(e.left, ws) then
      Complete(e, second, ws, true, CommandMatches(COMMANDS, e.left[ws..], 0, MAX_CAND), 0)
    else Complete(e, second, ws, false, listing.names, listing.dirlen)
  }

  // ---------- editing ----------

  /** Printable bytes go in before the cursor; at the end of the line the byte itself is the echo. */
  function Insert(e: Editor, c: char): Reply {
    var d := e.Edit(e.left + [c], e.right);
    if e.right == "" then Reply(d, [c], None) else Redrawn(d)
  }

  function Backspace(e: Editor): Reply {
    if e.left == "" then Silent(e)
    else
      var d := e.Edit(e.left[..|e.left|-1], e.right);
      if e.right == "" then Reply(d, [BS, ' ', BS], None) else Redrawn(d)
  }

  function DeleteAtCursor(e: Editor): Reply {
    if e.right == "" then Silent(e) else Redrawn(e.Edit(e.left, e.right[1..]))
  }

  /** Erases back over blanks and then over the word before them. */
  function EraseWord(e: Editor): Reply {
    var i := SkipWordBack(e.left, SkipBlanksBack(e.left, |e.left|));
    if i == |e.left| then Silent(e) else Redrawn(e.Edit(e.left[..i], e.right))
  }

  function EraseLeft(e: Editor): Reply { if e.left == "" then Silent(e) else Redrawn(e.Edit("", e.right)) }

  function EraseRight(e: Editor): Reply { if e.right == "" then Silent(e) else Redrawn(e.Edit(e.left, "")) }

  function CursorRight(e: Editor): Reply {
    if e.right == "" then Silent(e)
    else Reply(e.(left := e.left + [e.right[0]], right := e.right[1..]), [ESC, '[', 'C'], None)
  }

  function CursorLeft(e: Editor): Reply {
    if e.left == "" then Silent(e)
    else
      var n := |e.left| - 1;
      Reply(e.(left := e.left[..n], right := [e.left[n]] + e.right), [ESC, '[', 'D'], None)
  }

  // ---------- one byte ----------

  function CsiKey(e: Editor, hist: seq<string>, final: char): Reply
    requires -1 <= e.histPos < |hist|
  {
    match final
    case 'A' => HistoryUp(e, hist)
    case 'B' => HistoryDown(e, hist)
    case 'C' => CursorRight(e)
    case 'D' => CursorLeft(e)
    case 'H' => Redrawn(e.Home())
    case 'F' => Redrawn(e.End())
    case '~' =>
      if e.arg == 3 then DeleteAtCursor(e)
      else if e.arg == 1 || e.arg == 7 then Redrawn(e.Home())
      else if e.arg == 4 || e.arg == 8 then Redrawn(e.End())
      else Silent(e)
    case _ => Silent(e)
  }

  function Reset(e: Editor): Editor {
    e.(left := "", right := "", histPos := -1, esc := Typing, tabPending := false)
  }

  function Enter(e: Editor, wasCr: bool, k: int): Reply {
    if k == 10 && wasCr then Silent(e) else Reply(e.(lastWasCr := k == 13, histPos := -1), "\r\n", Line)
  }

  predicate EditKey(k: int) { k in {127, 8, 1, 5, 21, 11, 23} }

  /** Backspace, Ctrl-A, -E, -U, -K and -W. */
  function EditWith(e: Editor, k: int): Reply
    requires EditKey(k)
  {
    if k == 127 || k == 8 then Backspace(e)
    else if k == 1 then Redrawn(e.Home())
    else if k == 5 then Redrawn(e.End())
    else if k == 21 then EraseLeft(e)
    else if k == 11 then EraseRight(e)
    else EraseWord(e)
  }

  predicate ControlKey(k: int) { k in {12, 3, 4} }

  /** Ctrl-L, -C and -D. */
  function ControlWith(e: Editor, k: int): Reply
    requires ControlKey(k)
  {
    if k == 12 then Reply(e, CLEAR + Redraw(e), None)
    else if k == 3 then Reply(Reset(e), "^C\r\n" + e.prompt, Cancel)
    else if e.Text() == "" then Reply(e, "\r\n", Eof)
    else DeleteAtCursor(e)
  }

  /** Any byte but Tab, outside a control sequence. */
  function Key(e: Editor, wasCr: bool, c: char): Reply {
    var k := c as int;
    if k == 27 then Silent(e.(esc := AfterEsc))
    else if k == 13 || k == 10 then Enter(e, wasCr, k)
    else if EditKey(k) then EditWith(e, k)
    else if ControlKey(k) then ControlWith(e, k)
    else if Printable(c) && |e.Text()| < LE_MAX - 1 then Insert(e, c)
    else Silent(e)
  }

  /** A byte inside a control sequence. */
  function Escaped(e: Editor, hist: seq<string>, c: char): Reply
    requires -1 <= e.histPos < |hist| && e.esc != Typing
  {
    match e.esc
    case AfterEsc =>
      if c == '[' then Silent(e.(esc := InCsi, arg := 0))
      else Silent(e.(esc := if c == 'O' then AfterSs3 else Typing))
    case InCsi =>
      if '0' <= c <= '9' then Silent(e.(arg := e.arg * 10 + (c - '0') as nat))
      else if c == ';' then Silent(e.(arg := 0))
      else CsiKey(e.(esc := Typing), hist, c)
    case AfterSs3 =>
      var e := e.(esc := Typing);
      if c == 'H' then Redrawn(e.Home()) else if c == 'F' then Redrawn(e.End()) else Silent(e)
  }

  /** A byte outside control sequences. */
  function Typed(e: Editor, wasCr: bool, wasTab: bool, listing: Listing, c: char): Reply
    requires WfListing(listing)
  {
    if c as int == 9 then Tab(e, wasTab, listing) else Key(e, wasCr, c)
  }

  function Feed(e: Editor, hist: seq<string>, listing: Listing, c: char): Reply
    requires -1 <= e.histPos < |hist| && WfListing(listing)
  {
    var quiet := e.(lastWasCr := false, tabPending := false);
    if e.esc != Typing then Escaped(quiet, hist, c)
    else Typed(quiet, e.lastWasCr, e.tabPending, listing, c)
  }

  // ---------- reachable editors ----------

  /** Command names fit a candidate slot, are printable and never look like a directory. */
  ghost predicate Fits(names: seq<string>) {
    forall i | 0 <= i < |names| :: CommandName(names[i])
  }

  ghost predicate CommandName(s: string) {
    0 < |s| < CAND_MAX && AllPrintable(s) && s[|s|-1] != '/'
  }

  lemma FitsRow1() ensures Fits(COMMANDS_A_E) {}
  lemma FitsRow2() ensures Fits(COMMANDS_F_L) {}
  lemma FitsRow3() ensures Fits(COMMANDS_M_S) {}
  lemma FitsRow4() ensures Fits(COMMANDS_T_W) {}

  lemma CommandsFit()
    ensures Fits(COMMANDS)
  {
    FitsRow1();
    FitsRow2();
    FitsRow3();
    FitsRow4();
  }

  lemma ReplaceWordKeepsWf(e: Editor, hist: seq<string>, ws: nat, text: string, addSpace: bool)
    requires Wf(e, hist) && ws <= |e.left| && NulFree(text)
    ensures Wf(ReplaceWord(e, ws, text, addSpace), hist)
  {
  }

  lemma CompleteKeepsWf(e: Editor, hist: seq<string>, second: bool, ws: nat, isCmd: bool, cands: seq<string>,
      dirlen: nat)
    requires Wf(e, hist) && ws <= |e.left|
    requires forall i | 0 <= i < |cands| :: dirlen <= |cands[i]| && NulFree(cands[i])
    ensures Wf(Complete(e, second, ws, isCmd, cands, dirlen).ed, hist)
  {
    if |cands| == 1 {
      var c := cands[0];
      ReplaceWordKeepsWf(e, hist, ws, c, !(c != "" && c[|c|-1] == '/'));
    } else if |cands| > 1 {
      ReplaceWordKeepsWf(e, hist, ws, cands[0][..CommonPrefix(cands, |cands|)], false);
    }
  }

  lemma TabKeepsWf(e: Editor, hist: seq<string>, second: bool, listing: Listing)
    requires Wf(e, hist) && WfListing(listing)
    ensures Wf(Tab(e, second, listing).ed, hist)
  {
    var ws := WordStart(e.left);
    if listing.Files? {
      CommandsFit();
      var cmds := CommandMatches(COMMANDS, e.left[ws..], 0, MAX_CAND);
      forall i | 0 <= i < |cmds| ensures NulFree(cmds[i]) { assert CommandName(cmds[i]); }
      CompleteKeepsWf(e, hist, second, ws, true, cmds, 0);
      CompleteKeepsWf(e, hist, second, ws, false, listing.names, listing.dirlen);
    }
  }

  lemma HistoryKeepsWf(e: Editor, hist: seq<string>)
    requires Wf(e, hist) && WfHistory(hist)
    ensures Wf(HistoryUp(e, hist).ed, hist) && Wf(HistoryDown(e, hist).ed, hist)
  {
  }

  lemma MovesKeepWf(e: Editor, hist: seq<string>)
    requires Wf(e, hist)
    ensures Wf(e.Home(), hist) && Wf(e.End(), hist)
    ensures Wf(CursorRight(e).ed, hist) && Wf(CursorLeft(e).ed, hist)
  {
  }

  lemma ErasesKeepWf(e: Editor, hist: seq<string>)
    requires Wf(e, hist)
    ensures Wf(Backspace(e).ed, hist) && Wf(DeleteAtCursor(e).ed, hist) && Wf(EraseWord(e).ed, hist)
    ensures Wf(EraseLeft(e).ed, hist) && Wf(EraseRight(e).ed, hist)
  {
  }

  lemma InsertKeepsWf(e: Editor, hist: seq<string>, c: char)
    requires Wf(e, hist) && Printable(c) && |e.Text()| < LE_MAX - 1
    ensures Wf(Insert(e, c).ed, hist)
  {
  }

  lemma CsiKeyKeepsWf(e: Editor, hist: seq<string>, c: char)
    requires Wf(e, hist) && WfHistory(hist)
    ensures Wf(CsiKey(e, hist, c).ed, hist)
  {
    if c == 'A' || c == 'B' {
      HistoryKeepsWf(e, hist);
    } else if c == '~' && e.arg == 3 {
      ErasesKeepWf(e, hist);
    } else {
      MovesKeepWf(e, hist);
    }
  }

  lemma EditWithKeepsWf(e: Editor, hist: seq<string>, k: int)
    requires Wf(e, hist) && EditKey(k)
    ensures Wf(EditWith(e, k).ed, hist)
  {
    MovesKeepWf(e, hist);
    ErasesKeepWf(e, hist);
  }

  lemma ControlWithKeepsWf(e: Editor, hist: seq<string>, k: int)
    requires Wf(e, hist) && ControlKey(k)
    ensures Wf(ControlWith(e, k).ed, hist)
  {
    ErasesKeepWf(e, hist);
  }

  lemma KeyKeepsWf(e: Editor, hist: seq<string>, wasCr: bool, c: char)
    requires Wf(e, hist)
    ensures Wf(Key(e, wasCr, c).ed, hist)
  {
    var k := c as int;
    if EditKey(k) {
      EditWithKeepsWf(e, hist, k);
    } else if ControlKey(k) {
      ControlWithKeepsWf(e, hist, k);
    } else if Printable(c) && |e.Text()| < LE_MAX - 1 {
      InsertKeepsWf(e, hist, c);
    }
  }

  lemma EscapedKeepsWf(e: Editor, hist: seq<string>, c: char)
    requires Wf(e, hist) && WfHistory(hist) && e.esc != Typing
    ensures Wf(Escaped(e, hist, c).ed, hist)
  {
    if e.esc == InCsi && !('0' <= c <= '9') && c != ';' {
      CsiKeyKeepsWf(e.(esc := Typing), hist, c);
    }
  }

  /** Every byte keeps the line inside its buffer, NUL-free, and the history position inside the history. */
  lemma FeedKeepsWf(e: Editor, hist: seq<string>, listing: Listing, c: char)
    requires Wf(e, hist) && WfHistory(hist) && WfListing(listing)
    ensures Wf(Feed(e, hist, listing, c).ed, hist)
  {
    var quiet := e.(lastWasCr := false, tabPending := false);
    if e.esc != Typing {
      EscapedKeepsWf(quiet, hist, c);
    } else if c as int == 9 {
      TabKeepsWf(quiet, hist, e.tabPending, listing);
    } else {
      KeyKeepsWf(quiet, hist, e.lastWasCr, c);
    }
  }
}
