/** The line editor as the firmware runs it: fixed character buffers edited in place, a history of 20
    slots shifted in place, and replies appended to a bounded output. Every method is proved
    against the functions of LineEdit. */
module LineEditor {
  import opened CText
  import opened Terminal
  import opened LineEdit

  /** memmove inside one buffer. */
  method MemMove(a: array<char>, dst: nat, src: nat, n: nat)
    requires dst + n <= a.Length && src + n <= a.Length
    modifies a
    ensures a[dst..dst+n] == old(a[src..src+n])
    ensures a[..dst] == old(a[..dst]) && a[dst+n..] == old(a[dst+n..])
  {
    forall i | 0 <= i < n { a[dst+i] := a[src+i]; }
  }

  /** snprintf(a, sizeof a, "%s", s). */
  method Store(a: array<char>, s: string)
    requires a.Length > 0
    modifies a
    ensures var t := Clip(s, a.Length); a[..|t|] == t && a[|t|] == NUL
  {
    var t := Clip(s, a.Length);
    forall i | 0 <= i < |t| { a[i] := t[i]; }
    a[|t|] := NUL;
  }

  // ---------- output buffer ----------

  /** Text in a buffer of `cap` bytes; one byte is kept for the NUL and the rest is cut off. */
  class Obuf {
    const cap: nat
    var text: string
    ghost var sent: string   // everything appended, had there been room

    ghost predicate Valid()
      reads this
    {
      text == Clip(sent, cap)
    }

    constructor (cap: nat)
      ensures Valid() && this.cap == cap && sent == ""
    {
      this.cap, text, sent := cap, "", "";
    }

    method PutN(s: string)
      requires Valid()
      modifies this
      ensures Valid() && sent == old(sent) + s
    {
      ClipAppend(sent, s, cap);
      sent := sent + s;
      if cap == 0 { return; }
      var n := |s|;
      if |text| + n + 1 > cap { n := if cap > |text| + 1 then cap - |text| - 1 else 0; }
      text := text + s[..n];
    }
  }

  // ---------- history ----------

  class History {
    var slots: array<string>
    var count: nat

    ghost predicate Valid()
      reads this, slots
    {
      slots.Length == LE_HIST && count <= LE_HIST && WfHistory(Lines())
    }

    ghost function Lines(): seq<string>
      reads this, slots
    {
      if count <= slots.Length then slots[..count] else []
    }

    method Add(line: string)
      requires Valid() && NulFree(line)
      modifies this, slots
      ensures Valid() && slots == old(slots) && Lines() == HistoryAdd(old(Lines()), line)
    {
      if line == "" || "ftppass" <= line { return; }
      if count > 0 && slots[0] == line { return; }
      var n := if count < LE_HIST then count else LE_HIST - 1;
      forall i | 0 <= i < n { slots[i+1] := slots[i]; }
      slots[0] := Clip(line, LE_MAX);
      if count < LE_HIST { count := count + 1; }
      assert Lines() == [Clip(line, LE_MAX)] + old(slots[..n]);
    }
  }

  // ---------- completion ----------

  method CollectCommands(commands: seq<string>, word: string) returns (cands: seq<string>)
    ensures cands == CommandMatches(commands, word, 0, MAX_CAND)
  {
    cands := [];
    var i := 0;
    while i < |commands| && |cands| < MAX_CAND
      invariant i <= |commands| && |cands| <= MAX_CAND
      invariant cands + CommandMatches(commands, word, i, MAX_CAND - |cands|)
                == CommandMatches(commands, word, 0, MAX_CAND)
    {
      ghost var rest := CommandMatches(commands, word, i, MAX_CAND - |cands|);
      ghost var found := cands;
      if word <= commands[i] {
        cands := cands + [commands[i]];
        assert rest == [commands[i]] + CommandMatches(commands, word, i + 1, MAX_CAND - |cands|);
      }
      i := i + 1;
      assert cands + CommandMatches(commands, word, i, MAX_CAND - |cands|) == found + rest;
    }
  }

  method MeasureCommonLen(a: string, b: string, n: nat) returns (k: nat)
    requires n <= |a|
    ensures k == CommonLen(a, b, 0, n)
  {
    k := 0;
    while k < n && k < |b| && b[k] == a[k]
      invariant k <= n && CommonLen(a, b, 0, n) == CommonLen(a, b, k, n)
    {
      k := k + 1;
    }
  }

  method MeasureCommonPrefix(cands: seq<string>) returns (cp: nat)
    requires |cands| > 1
    ensures cp == CommonPrefix(cands, |cands|)
  {
    cp := |cands[0]|;
    for i := 1 to |cands|
      invariant cp == CommonPrefix(cands, i)
    {
      cp := MeasureCommonLen(cands[0], cands[i], cp);
    }
  }

  method PutTable(cands: seq<string>, dirlen: nat, o: Obuf)
    requires o.Valid() && forall i | 0 <= i < |cands| :: dirlen <= |cands[i]|
    modifies o
    ensures o.Valid() && o.sent == old(o.sent) + Table(cands, dirlen, 0, 0)
  {
    var col: nat := 0;
    for i := 0 to |cands|
      invariant o.Valid()
      invariant o.sent + Table(cands, dirlen, i, col) == old(o.sent) + Table(cands, dirlen, 0, 0)
    {
      ghost var sent, col0 := o.sent, col;
      var shown := cands[i][dirlen..];
      var wrap := col + |shown| + 2 > 72 && col > 0;
      if wrap { o.PutN("\r\n"); col := 0; }
      o.PutN(shown);
      o.PutN("  ");
      col := col + |shown| + 2;
      TableRow(cands, dirlen, i, col0, sent);
    }
  }

  lemma JoinRow(sent: string, wrap: string, shown: string, gap: string, rest: string)
    ensures sent + (wrap + shown + gap + rest) == sent + wrap + shown + gap + rest
  {
  }

  lemma {:induction false} TableRow(cands: seq<string>, dirlen: nat, i: nat, col: nat, sent: string)
    requires i < |cands| && forall i | 0 <= i < |cands| :: dirlen <= |cands[i]|
    ensures var shown := cands[i][dirlen..];
      var wrap := col + |shown| + 2 > 72 && col > 0;
      var row := if wrap then sent + "\r\n" + shown + "  " else sent + shown + "  ";
      sent + Table(cands, dirlen, i, col) ==
      row + Table(cands, dirlen, i + 1, (if wrap then 0 else col) + |shown| + 2)
  {
    var shown := cands[i][dirlen..];
    var wrap := col + |shown| + 2 > 72 && col > 0;
    JoinRow(sent, if wrap then "\r\n" else "", shown, "  ",
            Table(cands, dirlen, i + 1, (if wrap then 0 else col) + |shown| + 2));
    assert sent + "" == sent;
  }

  lemma JoinSent(sent: string, a: string, b: string, c: string, d: string)
    ensures sent + a + b + c + d == sent + (a + b + c + d)
  {
  }

  /** Clears the row and prints prompt and text, then moves the cursor left by `back`. */
  method PutLine(prompt: string, text: string, back: nat, o: Obuf)
    requires o.Valid()
    modifies o
    ensures o.Valid()
    ensures o.sent == old(o.sent) +
            (REDRAW + prompt + text + if back == 0 then "" else [ESC, '['] + Decimal(back) + "D")
  {
    o.PutN(REDRAW);
    o.PutN(prompt);
    o.PutN(text);
    assert o.sent == old(o.sent) + (REDRAW + prompt + text);
    if back > 0 {
      o.PutN([ESC, '['] + Decimal(back) + "D");
    }
  }

  // ---------- editor ----------

  lemma MovedWithNul(a: seq<char>, from: nat, k: nat, r: string)
    requires from <= k < |a| && a[from..k+1] == r + [NUL]
    ensures a[from..k] == r && a[k] == NUL
  {
    assert a[from..k] == a[from..k+1][..k-from] && a[k] == a[from..k+1][k-from];
  }

  lemma {:induction false} WordStartBack(left: string, n: nat)
    requires 0 < n <= |left| && !StopsWord(left[n-1])
    ensures WordStart(left[..n]) == WordStart(left[..n-1])
  {
    assert left[..n][..n-1] == left[..n-1];
  }

  lemma WholeLine(b: string, left: string, right: string)
    requires var n := |left| + |right|;
      n < |b| && left == b[..|left|] && right == b[|left|..n] && b[n] == NUL && NulFree(left) && NulFree(right)
    ensures b[..|left| + |right|] == left + right && NulFree(left + right)
  {
  }

  method CopyAll(dst: array<char>, src: array<char>)
    requires dst != src && dst.Length == src.Length
    modifies dst
    ensures dst[..] == src[..]
  {
    forall i | 0 <= i < dst.Length { dst[i] := src[i]; }
  }

  /** What is left and right of a range around the cursor. */
  lemma ErasedParts(b: string, left: string, right: string, from: nat, to: nat)
    requires var n := |left| + |right|;
      from <= |left| <= to <= n < |b| && left == b[..|left|] && right == b[|left|..n] && b[n] == NUL
    requires NulFree(left) && NulFree(right)
    ensures var n := |left| + |right|;
      NulFree(b[..from]) && NulFree(b[to..n]) && b[to..n + 1] == b[to..n] + [NUL]
  {
    var n := |left| + |right|;
    assert b[..from] == left[..from];
    assert b[to..n] == right[to - |left|..];
  }

  class LineEditor {
    const buf: array<char>
    const saved: array<char>
    var len: nat
    var cur: nat
    var escState: EscState
    var csiArg: nat
    var histPos: int
    var lastWasCr: bool
    var tabPending: bool
    const prompt: string
    ghost var ed: Editor   // the editor these fields stand for

    ghost predicate Valid()
      reads this, buf, saved
    {
      && buf.Length == LE_MAX && saved.Length == LE_MAX && buf != saved
      && cur == |ed.left| && len == cur + |ed.right| && len < LE_MAX && buf[len] == NUL
      && ed.left == buf[..cur] && ed.right == buf[cur..len] && NulFree(ed.left) && NulFree(ed.right)
      && |ed.saved| < LE_MAX && saved[..|ed.saved|] == ed.saved && saved[|ed.saved|] == NUL && NulFree(ed.saved)
      && ed.prompt == prompt && ed.esc == escState && ed.arg == csiArg && ed.histPos == histPos
      && ed.lastWasCr == lastWasCr && ed.tabPending == tabPending
    }

    constructor (prompt: string)
      ensures Valid() && fresh(buf) && fresh(saved)
      ensures ed == Editor(prompt, "", "", "", Typing, 0, -1, false, false)
    {
      buf, saved := new char[LE_MAX](_ => NUL), new char[LE_MAX](_ => NUL);
      len, cur, escState, csiArg, histPos := 0, 0, Typing, 0, -1;
      lastWasCr, tabPending, this.prompt := false, false, prompt;
      ed := Editor(prompt, "", "", "", Typing, 0, -1, false, false);
    }

    method Reset()
      requires Valid()
      modifies this, buf
      ensures Valid() && ed == LineEdit.Reset(old(ed))
    {
      len, cur := 0, 0;
      buf[0] := NUL;
      histPos, escState, tabPending := -1, Typing, false;
      ed := LineEdit.Reset(ed);
    }

    method Redraw(o: Obuf)
      requires Valid() && o.Valid()
      modifies o
      ensures Valid() && o.Valid() && o.sent == old(o.sent) + LineEdit.Redraw(ed)
    {
      assert ed.Text() == buf[..len];
      PutLine(prompt, buf[..len], len - cur, o);
    }

    /** Removes buf[from..to), which touches or contains the cursor. */
    method EraseRange(from: nat, to: nat)
      requires Valid() && from <= cur <= to <= len
      modifies this, buf
      ensures Valid() && ed == old(ed).(left := old(buf[..from]), right := old(buf[to..len]))
    {
      ghost var l, r := buf[..from], buf[to..len];
      ErasedParts(buf[..], ed.left, ed.right, from, to);
      MemMove(buf, from, to, len - to + 1);
      MovedWithNul(buf[..], from, from + (len - to), r);
      ed := ed.(left := l, right := r);
      len := len - (to - from);
      cur := from;
    }

    method LoadLine(s: string)
      requires Valid() && NulFree(s)
      modifies this, buf
      ensures Valid() && ed == old(ed).Load(s)
    {
      Store(buf, s);
      len := |Clip(s, LE_MAX)|;
      cur := len;
      ed := ed.Load(s);
    }

    method ReplaceWord(ws: nat, text: string, addSpace: bool)
      requires Valid() && ws <= cur && NulFree(text)
      modifies this, buf
      ensures Valid() && ed == LineEdit.ReplaceWord(old(ed), ws, text, addSpace)
    {
      var tail := buf[cur..len];
      var head := buf[..ws];
      assert head == ed.left[..ws];
      var out := Clip(head + text + if addSpace then " " else "", LE_MAX);
      if |out| + |tail| >= LE_MAX { return; }
      Store(buf, out + tail);
      len := |out + tail|;
      cur := |out|;
      assert buf[..len] == out + tail;
      assert buf[..cur] == out && buf[cur..len] == tail;
      ed := ed.(left := out);
    }

    // ---------- history ----------

    method SaveLine()
      requires Valid()
      modifies this`ed, saved
      ensures Valid() && ed == old(ed).(saved := old(ed).Text())
    {
      WholeLine(buf[..], ed.left, ed.right);
      CopyAll(saved, buf);
      assert saved[..len] == saved[..][..len] && saved[len] == saved[..][len];
      ed := ed.(saved := ed.Text());
    }

    method HistoryUp(hist: seq<string>, o: Obuf)
      requires Valid() && o.Valid() && WfHistory(hist) && -1 <= histPos < |hist|
      modifies this, buf, saved, o
      ensures Valid() && o.Valid()
      ensures var r := LineEdit.HistoryUp(old(ed), hist); ed == r.ed && o.sent == old(o.sent) + r.out
    {
      if histPos + 1 >= |hist| { o.PutN([BEL]); return; }
      if histPos < 0 { SaveLine(); }
      ShowLine(histPos + 1, hist[histPos + 1], o);
    }

    method HistoryDown(hist: seq<string>, o: Obuf)
      requires Valid() && o.Valid() && WfHistory(hist) && -1 <= histPos < |hist|
      modifies this, buf, o
      ensures Valid() && o.Valid()
      ensures var r := LineEdit.HistoryDown(old(ed), hist); ed == r.ed && o.sent == old(o.sent) + r.out
    {
      if histPos < 0 { o.PutN([BEL]); return; }
      CStrUnique(saved[..], |ed.saved|);
      var line := if histPos == 0 then CStr(saved[..]) else hist[histPos - 1];
      ShowLine(histPos - 1, line, o);
    }

    method ShowLine(pos: int, line: string, o: Obuf)
      requires Valid() && o.Valid() && NulFree(line)
      modifies this, buf, o
      ensures Valid() && o.Valid()
      ensures ed == old(ed).(histPos := pos).Load(line) && o.sent == old(o.sent) + LineEdit.Redraw(ed)
    {
      SetHistPos(pos);
      LoadLine(line);
      Redraw(o);
    }

    method SetHistPos(p: int)
      requires Valid()
      modifies this`histPos, this`ed
      ensures Valid() && histPos == p && ed == old(ed).(histPos := p)
    {
      histPos := p;
      ed := ed.(histPos := p);
    }

    // ---------- completion ----------

    method FindWordStart() returns (ws: nat)
      requires Valid()
      ensures ws == WordStart(ed.left)
    {
      ws := cur;
      assert ed.left[..ws] == ed.left;
      while ws > 0 && !StopsWord(buf[ws-1])
        invariant ws <= cur && WordStart(ed.left) == WordStart(ed.left[..ws])
      {
        WordStartBack(ed.left, ws);
        ws := ws - 1;
      }
    }

    method AtCommand(ws: nat) returns (isCmd: bool)
      requires Valid() && ws <= cur
      ensures isCmd == CommandPosition(ed.left, ws)
    {
      var p: nat := ws;
      while p > 0 && buf[p-1] == ' '
        invariant p <= ws && SkipBlanksBack(ed.left, ws) == SkipBlanksBack(ed.left, p)
      {
        p := p - 1;
      }
      isCmd := p == 0 || buf[p-1] == '|';
      if ws > 0 && buf[ws-1] != ' ' && buf[ws-1] != '|' { isCmd := false; }
    }

    method MarkTab()
      requires Valid()
      modifies this`tabPending, this`ed
      ensures Valid() && ed == old(ed).(tabPending := true)
    {
      tabPending := true;
      ed := ed.(tabPending := true);
    }

    method Offer(o: Obuf, second: bool, ws: nat, isCmd: bool, cands: seq<string>, dirlen: nat)
      requires Valid() && o.Valid() && ws <= cur
      requires forall i | 0 <= i < |cands| :: dirlen <= |cands[i]| && NulFree(cands[i])
      modifies this, buf, o
      ensures Valid() && o.Valid()
      ensures var r := Complete(old(ed), second, ws, isCmd, cands, dirlen);
        ed == r.ed && o.sent == old(o.sent) + r.out
    {
      if |cands| == 0 {
        o.PutN([BEL]);
      } else if |cands| == 1 {
        var c := cands[0];
        var isDir := c != "" && c[|c|-1] == '/';
        PutWord(ws, c, !isDir, o);
      } else {
        OfferSeveral(o, second, ws, isCmd, cands, dirlen);
      }
    }

    method OfferSeveral(o: Obuf, second: bool, ws: nat, isCmd: bool, cands: seq<string>, dirlen: nat)
      requires Valid() && o.Valid() && ws <= cur && |cands| > 1
      requires forall i | 0 <= i < |cands| :: dirlen <= |cands[i]| && NulFree(cands[i])
      modifies this, buf, o
      ensures Valid() && o.Valid()
      ensures var r := Complete(old(ed), second, ws, isCmd, cands, dirlen);
        ed == r.ed && o.sent == old(o.sent) + r.out
    {
      var cp := MeasureCommonPrefix(cands);
      var w := buf[ws..cur];
      assert w == ed.left[ws..];
      if !isCmd { w := StripSlashes(w); }
      if cp > |w| {
        PutWord(ws, cands[0][..cp], false, o);
        MarkTab();
      } else if second {
        ListCandidates(cands, dirlen, o);
      } else {
        o.PutN([BEL]);
        MarkTab();
      }
    }

    method PutWord(ws: nat, text: string, addSpace: bool, o: Obuf)
      requires Valid() && o.Valid() && ws <= cur && NulFree(text)
      modifies this, buf, o
      ensures Valid() && o.Valid()
      ensures ed == LineEdit.ReplaceWord(old(ed), ws, text, addSpace) && o.sent == old(o.sent) + LineEdit.Redraw(ed)
    {
      ReplaceWord(ws, text, addSpace);
      Redraw(o);
    }

    method ListCandidates(cands: seq<string>, dirlen: nat, o: Obuf)
      requires Valid() && o.Valid()
      requires forall i | 0 <= i < |cands| :: dirlen <= |cands[i]|
      modifies o
      ensures Valid() && o.Valid()
      ensures o.sent == old(o.sent) + ("\r\n" + Table(cands, dirlen, 0, 0) + "\r\n" + LineEdit.Redraw(ed))
    {
      o.PutN("\r\n");
      PutTable(cands, dirlen, o);
      o.PutN("\r\n");
      Redraw(o);
      JoinSent(old(o.sent), "\r\n", Table(cands, dirlen, 0, 0), "\r\n", LineEdit.Redraw(ed));
    }

    /** `listing` is what the directory of the word holds, sorted. */
    method DoTab(o: Obuf, second: bool, listing: Listing)
      requires Valid() && o.Valid() && WfListing(listing)
      modifies this, buf, o
      ensures Valid() && o.Valid()
      ensures var r := Tab(old(ed), second, listing); ed == r.ed && o.sent == old(o.sent) + r.out
    {
      var ws := FindWordStart();
      if cur - ws >= WORD_MAX { o.PutN([BEL]); return; }
      if listing.NoMemory? { return; }
      var word := buf[ws..cur];
      assert word == ed.left[ws..];
      var isCmd := AtCommand(ws);
      if isCmd {
        var cands := CollectCommands(COMMANDS, word);
        CommandsFit();
        forall i | 0 <= i < |cands| ensures NulFree(cands[i]) { assert CommandName(cands[i]); }
        Offer(o, second, ws, true, cands, 0);
      } else {
        Offer(o, second, ws, false, listing.names, listing.dirlen);
      }
    }

    // ---------- keys ----------

    method GoHome(o: Obuf)
      requires Valid() && o.Valid()
      modifies this, o
      ensures Valid() && o.Valid()
      ensures ed == old(ed).Home() && o.sent == old(o.sent) + LineEdit.Redraw(ed)
    {
      assert ed.left + ed.right == buf[..len];
      cur := 0;
      ed := ed.Home();
      Redraw(o);
    }

    method GoEnd(o: Obuf)
      requires Valid() && o.Valid()
      modifies this, o
      ensures Valid() && o.Valid()
      ensures ed == old(ed).End() && o.sent == old(o.sent) + LineEdit.Redraw(ed)
    {
      assert ed.left + ed.right == buf[..len];
      cur := len;
      ed := ed.End();
      Redraw(o);
    }

    method MoveRight(o: Obuf)
      requires Valid() && o.Valid()
      modifies this, o
      ensures Valid() && o.Valid()
      ensures var r := CursorRight(old(ed)); ed == r.ed && o.sent == old(o.sent) + r.out
    {
      if cur < len {
        ed := CursorRight(ed).ed;
        cur := cur + 1;
        o.PutN([ESC, '[', 'C']);
      }
    }

    method MoveLeft(o: Obuf)
      requires Valid() && o.Valid()
      modifies this, o
      ensures Valid() && o.Valid()
      ensures var r := CursorLeft(old(ed)); ed == r.ed && o.sent == old(o.sent) + r.out
    {
      if cur > 0 {
        ed := CursorLeft(ed).ed;
        cur := cur - 1;
        o.PutN([ESC, '[', 'D']);
      }
    }

    method LeaveHistoryAndErase(from: nat, to: nat)
      requires Valid() && from <= cur <= to <= len
      modifies this, buf
      ensures Valid() && ed == old(ed).Edit(old(buf[..from]), old(buf[to..len]))
    {
      SetHistPos(-1);
      EraseRange(from, to);
    }

    /** Erases around the cursor, leaves the history and redraws. */
    method EraseAndRedraw(from: nat, to: nat, o: Obuf)
      requires Valid() && o.Valid() && from <= cur <= to <= len
      modifies this, buf, o
      ensures Valid() && o.Valid()
      ensures ed == old(ed).Edit(old(buf[..from]), old(buf[to..len]))
      ensures o.sent == old(o.sent) + LineEdit.Redraw(ed)
    {
      LeaveHistoryAndErase(from, to);
      Redraw(o);
    }

    method PressBackspace(o: Obuf)
      requires Valid() && o.Valid()
      modifies this, buf, o
      ensures Valid() && o.Valid()
      ensures var r := Backspace(old(ed)); ed == r.ed && o.sent == old(o.sent) + r.out
    {
      if cur > 0 {
        assert buf[..cur-1] == ed.left[..cur-1];
        if cur == len {
          LeaveHistoryAndErase(cur - 1, cur);
          o.PutN([BS, ' ', BS]);
        } else {
          EraseAndRedraw(cur - 1, cur, o);
        }
      }
    }

    method DeleteChar(o: Obuf)
      requires Valid() && o.Valid()
      modifies this, buf, o
      ensures Valid() && o.Valid()
      ensures var r := DeleteAtCursor(old(ed)); ed == r.ed && o.sent == old(o.sent) + r.out
    {
      if cur < len {
        assert buf[cur+1..len] == ed.right[1..];
        EraseAndRedraw(cur, cur + 1, o);
      }
    }

    method FindWordBack() returns (i: nat)
      requires Valid()
      ensures i == SkipWordBack(ed.left, SkipBlanksBack(ed.left, cur))
    {
      i := cur;
      while i > 0 && buf[i-1] == ' '
        invariant i <= cur && SkipBlanksBack(ed.left, cur) == SkipBlanksBack(ed.left, i)
      {
        i := i - 1;
      }
      ghost var n := i;
      while i > 0 && buf[i-1] != ' '
        invariant i <= n && SkipWordBack(ed.left, n) == SkipWordBack(ed.left, i)
      {
        i := i - 1;
      }
    }

    method EraseWordBack(o: Obuf)
      requires Valid() && o.Valid()
      modifies this, buf, o
      ensures Valid() && o.Valid()
      ensures var r := EraseWord(old(ed)); ed == r.ed && o.sent == old(o.sent) + r.out
    {
      var i := FindWordBack();
      assert buf[..i] == ed.left[..i];
      if i < cur { EraseAndRedraw(i, cur, o); }
    }

    method MakeRoom()
      requires Valid() && len < LE_MAX - 1
      modifies buf
      ensures buf[..cur] == ed.left && buf[cur+1..len+1] == ed.right && buf[len+1] == NUL
    {
      assert buf[cur..len+1] == ed.right + [NUL];
      MemMove(buf, cur + 1, cur, len - cur + 1);
      MovedWithNul(buf[..], cur + 1, len + 1, ed.right);
    }

    method InsertChar(c: char, o: Obuf)
      requires Valid() && o.Valid() && c != NUL && len < LE_MAX - 1
      modifies this, buf, o
      ensures Valid() && o.Valid()
      ensures var r := Insert(old(ed), c); ed == r.ed && o.sent == old(o.sent) + r.out
    {
      SetHistPos(-1);
      PutChar(c);
      if cur == len { o.PutN([c]); } else { Redraw(o); }
    }

    method PutChar(c: char)
      requires Valid() && c != NUL && len < LE_MAX - 1
      modifies this, buf
      ensures Valid() && ed == old(ed).(left := old(ed).left + [c])
    {
      MakeRoom();
      buf[cur] := c;
      len := len + 1;
      cur := cur + 1;
      assert buf[..cur] == ed.left + [c];
      ed := ed.(left := ed.left + [c]);
    }

    method PressCsi(hist: seq<string>, final: char, o: Obuf)
      requires Valid() && o.Valid() && WfHistory(hist) && -1 <= histPos < |hist|
      modifies this, buf, saved, o
      ensures Valid() && o.Valid()
      ensures var r := CsiKey(old(ed), hist, final); ed == r.ed && o.sent == old(o.sent) + r.out
    {
      match final
      case 'A' => HistoryUp(hist, o);
      case 'B' => HistoryDown(hist, o);
      case 'C' => MoveRight(o);
      case 'D' => MoveLeft(o);
      case 'H' => GoHome(o);
      case 'F' => GoEnd(o);
      case '~' =>
        if csiArg == 3 { DeleteChar(o); }
        else if csiArg == 1 || csiArg == 7 { GoHome(o); }
        else if csiArg == 4 || csiArg == 8 { GoEnd(o); }
      case _ =>
    }

    /** Ctrl-U, -K, -W, Delete-like keys, Home and End. */
    method PressEdit(k: int, o: Obuf)
      requires Valid() && o.Valid() && EditKey(k)
      modifies this, buf, o
      ensures Valid() && o.Valid()
      ensures var r := EditWith(old(ed), k); ed == r.ed && o.sent == old(o.sent) + r.out && r.action == None
    {
      if k == 127 || k == 8 { PressBackspace(o); }
      else if k == 1 { GoHome(o); }
      else if k == 5 { GoEnd(o); }
      else if k == 21 { EraseToStart(o); }
      else if k == 11 { EraseToEnd(o); }
      else { EraseWordBack(o); }
    }

    method EraseToStart(o: Obuf)
      requires Valid() && o.Valid()
      modifies this, buf, o
      ensures Valid() && o.Valid()
      ensures var r := EraseLeft(old(ed)); ed == r.ed && o.sent == old(o.sent) + r.out
    {
      if cur > 0 { EraseAndRedraw(0, cur, o); }
    }

    method EraseToEnd(o: Obuf)
      requires Valid() && o.Valid()
      modifies this, buf, o
      ensures Valid() && o.Valid()
      ensures var r := EraseRight(old(ed)); ed == r.ed && o.sent == old(o.sent) + r.out
    {
      if cur < len { EraseAndRedraw(cur, len, o); }
    }

    method PressEnter(k: int, wasCr: bool, o: Obuf) returns (action: Action)
      requires Valid() && o.Valid() && k in {13, 10}
      modifies this, o
      ensures Valid() && o.Valid()
      ensures var r := Enter(old(ed), wasCr, k); ed == r.ed && o.sent == old(o.sent) + r.out && action == r.action
    {
      if k == 10 && wasCr { return None; }
      lastWasCr, histPos := k == 13, -1;
      ed := ed.(lastWasCr := k == 13, histPos := -1);
      o.PutN("\r\n");
      action := Line;
    }

    method PressCancel(o: Obuf)
      requires Valid() && o.Valid()
      modifies this, buf, o
      ensures Valid() && o.Valid()
      ensures ed == LineEdit.Reset(old(ed)) && o.sent == old(o.sent) + ("^C\r\n" + prompt)
    {
      o.PutN("^C\r\n");
      Reset();
      o.PutN(prompt);
    }

    method PressControl(k: int, o: Obuf) returns (action: Action)
      requires Valid() && o.Valid() && ControlKey(k)
      modifies this, buf, o
      ensures Valid() && o.Valid()
      ensures var r := ControlWith(old(ed), k); ed == r.ed && o.sent == old(o.sent) + r.out && action == r.action
    {
      action := None;
      if k == 12 {
        o.PutN(CLEAR);
        Redraw(o);
      } else if k == 3 {
        PressCancel(o);
        action := Cancel;
      } else {
        if len > 0 { DeleteChar(o); return; }
        o.PutN("\r\n");
        action := Eof;
      }
    }

    method PressKey(c: char, wasCr: bool, o: Obuf) returns (action: Action)
      requires Valid() && o.Valid() && c as int != 9
      modifies this, buf, o
      ensures Valid() && o.Valid()
      ensures var r := Key(old(ed), wasCr, c); ed == r.ed && o.sent == old(o.sent) + r.out && action == r.action
    {
      action := None;
      var k := c as int;
      if k == 27 {
        SetEsc(AfterEsc, csiArg);
      } else if k == 13 || k == 10 {
        action := PressEnter(k, wasCr, o);
      } else if EditKey(k) {
        PressEdit(k, o);
      } else if ControlKey(k) {
        action := PressControl(k, o);
      } else if k >= 32 && len < LE_MAX - 1 {
        InsertChar(c, o);
      }
    }

    method SetEsc(state: EscState, arg: nat)
      requires Valid()
      modifies this`escState, this`csiArg, this`ed
      ensures Valid() && ed == old(ed).(esc := state, arg := arg)
    {
      escState, csiArg := state, arg;
      ed := ed.(esc := state, arg := arg);
    }

    /** Feeds one byte; the reply is clipped to a buffer of out_size bytes. */
    method Feed(h: History, listing: Listing, c: char, outSize: nat) returns (action: Action, out: string)
      requires Valid() && h.Valid() && WfListing(listing) && -1 <= histPos < h.count
      modifies this, buf, saved
      ensures Valid()
      ensures var r := LineEdit.Feed(old(ed), old(h.Lines()), listing, c);
        ed == r.ed && action == r.action && out == Clip(r.out, outSize)
    {
      var o := new Obuf(outSize);
      action := FeedInto(h.slots[..h.count], listing, c, o);
      out := o.text;
    }

    method FeedInto(hist: seq<string>, listing: Listing, c: char, o: Obuf) returns (action: Action)
      requires Valid() && o.Valid() && o.sent == "" && WfListing(listing)
      requires WfHistory(hist) && -1 <= histPos < |hist|
      modifies this, buf, saved, o
      ensures Valid()
      ensures var r := LineEdit.Feed(old(ed), hist, listing, c);
        ed == r.ed && action == r.action && o.text == Clip(r.out, o.cap)
    {
      action := Dispatch(hist, listing, c, o);
      assert "" + LineEdit.Feed(old(ed), hist, listing, c).out == LineEdit.Feed(old(ed), hist, listing, c).out;
    }

    method ForgetLastKey()
      requires Valid()
      modifies this`lastWasCr, this`tabPending, this`ed
      ensures Valid() && ed == old(ed).(lastWasCr := false, tabPending := false)
    {
      lastWasCr, tabPending := false, false;
      ed := ed.(lastWasCr := false, tabPending := false);
    }

    method Dispatch(hist: seq<string>, listing: Listing, c: char, o: Obuf) returns (action: Action)
      requires Valid() && o.Valid() && WfListing(listing)
      requires WfHistory(hist) && -1 <= histPos < |hist|
      modifies this, buf, saved, o
      ensures Valid() && o.Valid()
      ensures var r := LineEdit.Feed(old(ed), hist, listing, c);
        ed == r.ed && o.sent == old(o.sent) + r.out && action == r.action
    {
      var wasCr, wasTab := lastWasCr, tabPending;
      ForgetLastKey();
      if escState != Typing {
        FeedEscape(hist, c, o);
        action := None;
      } else {
        action := FeedTyping(wasCr, wasTab, listing, c, o);
      }
    }

    method FeedTyping(wasCr: bool, wasTab: bool, listing: Listing, c: char, o: Obuf) returns (action: Action)
      requires Valid() && o.Valid() && WfListing(listing) && escState == Typing
      modifies this, buf, o
      ensures Valid() && o.Valid()
      ensures var r := Typed(old(ed), wasCr, wasTab, listing, c);
        ed == r.ed && o.sent == old(o.sent) + r.out && action == r.action
    {
      action := None;
      if c as int == 9 { DoTab(o, wasTab, listing); } else { action := PressKey(c, wasCr, o); }
    }

    /** A byte inside a control sequence. */
    method FeedEscape(hist: seq<string>, c: char, o: Obuf)
      requires Valid() && o.Valid() && escState != Typing
      requires WfHistory(hist) && -1 <= histPos < |hist|
      modifies this, buf, saved, o
      ensures Valid() && o.Valid()
      ensures var r := Escaped(old(ed), hist, c); ed == r.ed && o.sent == old(o.sent) + r.out && r.action == None
    {
      if escState == AfterEsc {
        SetEsc(if c == '[' then InCsi else if c == 'O' then AfterSs3 else Typing, if c == '[' then 0 else csiArg);
      } else if escState == AfterSs3 {
        SetEsc(Typing, csiArg);
        if c == 'H' { GoHome(o); } else if c == 'F' { GoEnd(o); }
      } else {
        FeedCsi(hist, c, o);
      }
    }

    method FeedCsi(hist: seq<string>, c: char, o: Obuf)
      requires Valid() && o.Valid() && escState == InCsi
      requires WfHistory(hist) && -1 <= histPos < |hist|
      modifies this, buf, saved, o
      ensures Valid() && o.Valid()
      ensures var r := Escaped(old(ed), hist, c); ed == r.ed && o.sent == old(o.sent) + r.out && r.action == None
    {
      if '0' <= c <= '9' {
        SetEsc(InCsi, csiArg * 10 + (c - '0') as nat);
      } else if c == ';' {
        SetEsc(InCsi, 0);
      } else {
        SetEsc(Typing, csiArg);
        PressCsi(hist, c, o);
      }
    }
  }
}
