/** What Tab does to the line: it only ever extends the word, by as much as all candidates share. */
module LineComplete {
  import opened CText
  import opened LineEdit

  /** The common prefix really is common to the first n candidates, and no longer one is. */
  lemma {:induction false} CommonPrefixIsLongest(cands: seq<string>, n: nat)
    requires 1 <= n <= |cands|
    ensures var cp := CommonPrefix(cands, n);
      && (forall i | 0 <= i < n :: cands[0][..cp] <= cands[i])
      && (cp < |cands[0]| ==> exists i | 0 <= i < n :: !(cands[0][..cp+1] <= cands[i]))
  {
    if n > 1 {
      CommonPrefixIsLongest(cands, n - 1);
      var before := CommonPrefix(cands, n - 1);
      var cp := CommonPrefix(cands, n);
      assert forall i | 0 <= i < n - 1 :: cands[0][..cp] <= cands[0][..before] <= cands[i];
      if cp < before {
        assert cp == |cands[n-1]| || cands[0][..cp+1][cp] != cands[n-1][cp];
        assert !(cands[0][..cp+1] <= cands[n-1]);
      }
    }
  }

  // ---------- what is offered ----------

  /** All the commands that start with the word. */
  function AllMatches(commands: seq<string>, word: string): (r: seq<string>)
    ensures |r| <= |commands|
  {
    if commands == [] then []
    else if word <= commands[0] then [commands[0]] + AllMatches(commands[1..], word)
    else AllMatches(commands[1..], word)
  }

  lemma {:induction false} AllMatchesAre(commands: seq<string>, word: string, c: string)
    ensures c in AllMatches(commands, word) <==> c in commands && word <= c
  {
    if commands != [] { AllMatchesAre(commands[1..], word, c); }
  }

  lemma {:induction false} AllMatchesAppend(a: seq<string>, b: seq<string>, word: string)
    ensures AllMatches(a + b, word) == AllMatches(a, word) + AllMatches(b, word)
  {
    if a == [] {
      assert a + b == b;
    } else {
      assert (a + b)[1..] == a[1..] + b;
      AllMatchesAppend(a[1..], b, word);
    }
  }

  function First<T>(s: seq<T>, n: nat): seq<T> { s[..if |s| < n then |s| else n] }

  lemma FirstOfCons<T>(c: T, s: seq<T>, n: nat)
    requires n > 0
    ensures First([c] + s, n) == [c] + First(s, n - 1)
  {
  }

  lemma {:induction false} MatchesFrom(commands: seq<string>, word: string, i: nat)
    requires i < |commands|
    ensures AllMatches(commands[i..], word) ==
            if word <= commands[i] then [commands[i]] + AllMatches(commands[i+1..], word)
            else AllMatches(commands[i+1..], word)
  {
    assert commands[i..][1..] == commands[i+1..] && commands[i..][0] == commands[i];
  }

  /** The first `room` of them are offered. */
  lemma {:induction false} OffersFirst(commands: seq<string>, word: string, i: nat, room: nat)
    requires i <= |commands|
    ensures CommandMatches(commands, word, i, room) == First(AllMatches(commands[i..], word), room)
    decreases |commands| - i
  {
    if i < |commands| && room > 0 {
      MatchesFrom(commands, word, i);
      if word <= commands[i] {
        FirstOfCons(commands[i], AllMatches(commands[i+1..], word), room);
        OffersFirst(commands, word, i + 1, room - 1);
      } else {
        OffersFirst(commands, word, i + 1, room);
      }
    }
  }

  /** What Tab offers are the first 32 of the matching commands; these are all of them if and only if at most 32
      match, and then a command is offered if and only if it starts with the word. */
  lemma OffersAllIff(word: string)
    ensures var offered, all := CommandMatches(COMMANDS, word, 0, MAX_CAND), AllMatches(COMMANDS, word);
      && offered == First(all, MAX_CAND)
      && (offered == all <==> |all| <= MAX_CAND)
      && (offered == all ==> forall c :: c in offered <==> c in COMMANDS && word <= c)
  {
    assert COMMANDS[0..] == COMMANDS;
    OffersFirst(COMMANDS, word, 0, MAX_CAND);
    forall c ensures c in AllMatches(COMMANDS, word) <==> c in COMMANDS && word <= c {
      AllMatchesAre(COMMANDS, word, c);
    }
  }

  ghost predicate FirstLetters(commands: seq<string>, lo: char, hi: char) {
    forall i | 0 <= i < |commands| :: commands[i] != "" && lo <= commands[i][0] <= hi
  }

  lemma RowAE() ensures FirstLetters(COMMANDS_A_E, 'a', 'e') {}
  lemma RowFL() ensures FirstLetters(COMMANDS_F_L, 'f', 'l') {}
  lemma RowMS() ensures FirstLetters(COMMANDS_M_S, 'm', 's') {}
  lemma RowTW() ensures FirstLetters(COMMANDS_T_W, 't', 'w') {}

  /** No command of a row matches a word with another first letter. */
  lemma {:induction false} RowMatches(row: seq<string>, lo: char, hi: char, word: string)
    requires FirstLetters(row, lo, hi) && word != "" && !(lo <= word[0] <= hi)
    ensures AllMatches(row, word) == []
  {
    if row != [] { RowMatches(row[1..], lo, hi, word); }
  }

  /** The last command has no place among the first 32. */
  lemma LastIsNotOffered()
    ensures "wifi-on" in COMMANDS && "wifi-on" !in First(COMMANDS, MAX_CAND)
  {
    RowAE();
    RowFL();
    RowMS();
    assert COMMANDS[48] == COMMANDS_T_W[11];
    var ab := COMMANDS_A_E + COMMANDS_F_L;
    assert First(COMMANDS, MAX_CAND) == ab + COMMANDS_M_S[..7];
    forall i | 0 <= i < MAX_CAND ensures First(COMMANDS, MAX_CAND)[i][0] <= 's' {
      assert First(COMMANDS, MAX_CAND)[i] ==
             if i < 13 then COMMANDS_A_E[i] else if i < 25 then COMMANDS_F_L[i - 13] else COMMANDS_M_S[i - 25];
    }
  }

  lemma {:induction false} EmptyMatchesAll(commands: seq<string>)
    ensures AllMatches(commands, "") == commands
  {
    if commands != [] { EmptyMatchesAll(commands[1..]); }
  }

  /** And that fails for the empty word alone: of the 49 commands it offers 32. */
  lemma OffersAllUnlessEmpty(word: string)
    ensures (forall c | c in COMMANDS && word <= c :: c in CommandMatches(COMMANDS, word, 0, MAX_CAND)) <==> word != ""
    ensures word == "" ==> |AllMatches(COMMANDS, word)| == 49 && |CommandMatches(COMMANDS, word, 0, MAX_CAND)| == 32
  {
    OffersAllIff(word);
    var ab, abc := COMMANDS_A_E + COMMANDS_F_L, COMMANDS_A_E + COMMANDS_F_L + COMMANDS_M_S;
    AllMatchesAppend(COMMANDS_A_E, COMMANDS_F_L, word);
    AllMatchesAppend(ab, COMMANDS_M_S, word);
    AllMatchesAppend(abc, COMMANDS_T_W, word);
    if word == "" {
      EmptyMatchesAll(COMMANDS);
      LastIsNotOffered();
      assert "" <= "wifi-on";
    } else {
      RowAE();
      RowFL();
      RowMS();
      RowTW();
      if word[0] > 'e' { RowMatches(COMMANDS_A_E, 'a', 'e', word); }
      if word[0] > 'l' { RowMatches(COMMANDS_F_L, 'f', 'l', word); }
      if word[0] < 'm' { RowMatches(COMMANDS_M_S, 'm', 's', word); }
      if word[0] < 't' { RowMatches(COMMANDS_T_W, 't', 'w', word); }
    }
  }

  /** A directory entry: its name, whether it is a directory and whether it is hidden from the shell. */
  datatype Entry = Entry(name: string, dir: bool, blocked: bool)

  predicate Listable(e: Entry, dirpart: string, prefix: string) {
    && e.name != "." && e.name != ".." && e.name != ""
    && !(e.name[0] == '.' && !(prefix != "" && prefix[0] == '.'))
    && ' ' !in e.name && prefix <= e.name && !e.blocked
    && |dirpart| + |e.name| + 2 < CAND_MAX
  }

  /** What is collected from a directory, at most `room` names. */
  function FileMatches(entries: seq<Entry>, dirpart: string, prefix: string, room: nat): (r: seq<string>)
    ensures |r| <= room
    ensures forall i | 0 <= i < |r| :: |dirpart| <= |r[i]| < CAND_MAX && dirpart + prefix <= r[i]
  {
    if entries == [] || room == 0 then []
    else
      var e := entries[0];
      if Listable(e, dirpart, prefix) then
        [dirpart + e.name + if e.dir then "/" else ""] + FileMatches(entries[1..], dirpart, prefix, room - 1)
      else FileMatches(entries[1..], dirpart, prefix, room)
  }

  /** Where the last part of a path begins. */
  function LastPart(w: string): (i: nat)
    ensures i <= |w| && '/' !in w[i..] && (i > 0 ==> w[i-1] == '/')
  {
    if w == "" || w[|w|-1] == '/' then |w| else LastPart(w[..|w|-1])
  }

  predicate Climbs(dir: string) { exists i | 0 <= i < |dir| - 1 :: dir[i] == '.' && dir[i+1] == '.' }

  /** The names a directory offers for a word; none behind a path that climbs. */
  function Found(entries: seq<Entry>, word: string): (r: seq<string>)
    ensures |r| <= MAX_CAND
  {
    var w := StripSlashes(word);
    var i := LastPart(w);
    if Climbs(w[..i]) then [] else FileMatches(entries, w[..i], w[i..], MAX_CAND)
  }

  /** What Tab is given for a file word: the names found, in whatever order sorting puts them. */
  ghost predicate ListingOf(listing: Listing, entries: seq<Entry>, word: string) {
    && listing.Files? && listing.dirlen == LastPart(StripSlashes(word))
    && multiset(listing.names) == multiset(Found(entries, word))
  }

  /** The names a file word offers start with the word without its leading slashes. */
  lemma FilesStartWithWord(entries: seq<Entry>, word: string)
    ensures forall n | n in Found(entries, word) :: StripSlashes(word) <= n
  {
    var w := StripSlashes(word);
    var i := LastPart(w);
    assert w[..i] + w[i..] == w;
  }

  lemma {:induction false} FileMatchesNulFree(entries: seq<Entry>, dirpart: string, prefix: string, room: nat)
    requires NulFree(dirpart) && forall i | 0 <= i < |entries| :: NulFree(entries[i].name)
    ensures forall n | n in FileMatches(entries, dirpart, prefix, room) :: NulFree(n)
  {
    if entries != [] && room > 0 {
      var left := if Listable(entries[0], dirpart, prefix) then room - 1 else room;
      FileMatchesNulFree(entries[1..], dirpart, prefix, left);
      assert NulFree(entries[0].name);
    }
  }

  lemma {:induction false} StripSlashesNulFree(word: string)
    requires NulFree(word)
    ensures NulFree(StripSlashes(word))
  {
    if word != "" && word[0] == '/' { StripSlashesNulFree(word[1..]); }
  }

  /** What is found fits the candidate slots and starts with the word. */
  lemma ListingIsWf(listing: Listing, entries: seq<Entry>, word: string)
    requires ListingOf(listing, entries, word)
    requires NulFree(word) && forall i | 0 <= i < |entries| :: NulFree(entries[i].name)
    ensures WfListing(listing) && forall i | 0 <= i < |listing.names| :: StripSlashes(word) <= listing.names[i]
  {
    var found := Found(entries, word);
    var w := StripSlashes(word);
    StripSlashesNulFree(word);
    FileMatchesNulFree(entries, w[..LastPart(w)], w[LastPart(w)..], MAX_CAND);
    FilesStartWithWord(entries, word);
    assert |multiset(listing.names)| == |multiset(found)|;
    forall i | 0 <= i < |listing.names| ensures listing.names[i] in found {
      assert listing.names[i] in multiset(listing.names);
    }
  }

  // ---------- what it does to the line ----------

  predicate IsDir(c: string) { c != "" && c[|c|-1] == '/' }

  /** What comes in place of the word: the only candidate, or as much as all share. */
  function Replacement(cands: seq<string>): string
    requires cands != []
  {
    if |cands| == 1 then cands[0] + if IsDir(cands[0]) then "" else " "
    else cands[0][..CommonPrefix(cands, |cands|)]
  }

  /** w is what completion makes of a word: the only candidate, with a blank if that is a finished name, or as
      much as all share. */
  ghost predicate Completed(w: string, cands: seq<string>)
    requires cands != []
  {
    if |cands| == 1 then w == cands[0] + if IsDir(cands[0]) then "" else " "
    else
      && (forall i | 0 <= i < |cands| :: w <= cands[i])
      && (|w| < |cands[0]| ==> exists i | 0 <= i < |cands| :: !(cands[0][..|w|+1] <= cands[i]))
  }

  lemma ReplacementCompletes(cands: seq<string>, word: string)
    requires cands != [] && forall i | 0 <= i < |cands| :: word <= cands[i]
    ensures Completed(Replacement(cands), cands) && word <= Replacement(cands)
  {
    CommonPrefixIsLongest(cands, |cands|);
    assert word <= cands[0];
  }

  /** The word at ws was extended in place: the rest of the line is kept, `word`, which is what counts of what
      was typed, is kept, and completion goes exactly as far as it can. A word already as long as that stays. */
  ghost predicate Extended(e: Editor, ws: nat, word: string, cands: seq<string>, d: Editor)
    requires ws <= |e.left| && cands != []
  {
    && d.right == e.right && ws <= |d.left| && d.left[..ws] == e.left[..ws]
    && if |cands| > 1 && Completed(word, cands) then d.left == e.left
       else word <= d.left[ws..] && Completed(d.left[ws..], cands)
  }

  lemma OneExtends(e: Editor, second: bool, ws: nat, isCmd: bool, cands: seq<string>, dirlen: nat, word: string)
    requires ws <= |e.left| && |cands| == 1 && dirlen <= |cands[0]| && word <= cands[0]
    requires ws + |Replacement(cands)| + |e.right| < LE_MAX
    ensures Extended(e, ws, word, cands, Complete(e, second, ws, isCmd, cands, dirlen).ed)
  {
    var r := Replacement(cands);
    assert e.left[..ws] + cands[0] + (if IsDir(cands[0]) then "" else " ") == e.left[..ws] + r;
    assert (e.left[..ws] + r)[ws..] == r && (e.left[..ws] + r)[..ws] == e.left[..ws];
  }

  /** Two texts that are as long as completion goes have the same length. */
  lemma CompletedLength(w: string, cands: seq<string>)
    requires |cands| > 1 && forall i | 0 <= i < |cands| :: w <= cands[i]
    ensures Completed(w, cands) <==> |w| == CommonPrefix(cands, |cands|)
  {
    var cp := CommonPrefix(cands, |cands|);
    CommonPrefixIsLongest(cands, |cands|);
    assert w == cands[0][..|w|];
    if |w| < cp { assert forall i | 0 <= i < |cands| :: cands[0][..|w|+1] <= cands[0][..cp] <= cands[i]; }
    if |w| > cp { assert false; }
  }

  lemma SeveralExtend(e: Editor, second: bool, ws: nat, isCmd: bool, cands: seq<string>, dirlen: nat, word: string)
    requires ws <= |e.left| && |cands| > 1 && forall i | 0 <= i < |cands| :: dirlen <= |cands[i]| && word <= cands[i]
    requires word == if isCmd then e.left[ws..] else StripSlashes(e.left[ws..])
    requires ws + |Replacement(cands)| + |e.right| < LE_MAX
    ensures Extended(e, ws, word, cands, Complete(e, second, ws, isCmd, cands, dirlen).ed)
  {
    var r := Replacement(cands);
    CompletedLength(word, cands);
    ReplacementCompletes(cands, word);
    var d := Complete(e, second, ws, isCmd, cands, dirlen).ed;
    if |r| > |word| {
      assert d.left == e.left[..ws] + r by { assert e.left[..ws] + r + "" == e.left[..ws] + r; }
      Placed(e.left[..ws], r);
    } else {
      assert d.left == e.left && d.right == e.right;
    }
  }

  lemma Placed(head: string, r: string)
    ensures (head + r)[|head|..] == r && (head + r)[..|head|] == head
  {
  }

  /** Completion keeps the rest of the line and what was typed of the word, and goes exactly as far as the
      candidates agree, whenever the completed line fits. */
  lemma CompleteExtends(e: Editor, second: bool, ws: nat, isCmd: bool, cands: seq<string>, dirlen: nat)
    requires ws <= |e.left| && cands != [] && ws + |Replacement(cands)| + |e.right| < LE_MAX
    requires var word := if isCmd then e.left[ws..] else StripSlashes(e.left[ws..]);
      forall i | 0 <= i < |cands| :: dirlen <= |cands[i]| && word <= cands[i]
    ensures var word := if isCmd then e.left[ws..] else StripSlashes(e.left[ws..]);
      Extended(e, ws, word, cands, Complete(e, second, ws, isCmd, cands, dirlen).ed)
  {
    var word := if isCmd then e.left[ws..] else StripSlashes(e.left[ws..]);
    if |cands| == 1 {
      OneExtends(e, second, ws, isCmd, cands, dirlen, word);
    } else {
      SeveralExtend(e, second, ws, isCmd, cands, dirlen, word);
    }
  }

  /** Completing a command, if the completed line fits. */
  lemma TabExtendsCommand(e: Editor, second: bool, listing: Listing)
    requires WfListing(listing) && listing.Files?
    requires CommandPosition(e.left, WordStart(e.left))
    requires var cands := CommandMatches(COMMANDS, e.left[WordStart(e.left)..], 0, MAX_CAND);
      cands != [] && WordStart(e.left) + |Replacement(cands)| + |e.right| < LE_MAX
    ensures var ws := WordStart(e.left);
      Extended(e, ws, e.left[ws..], CommandMatches(COMMANDS, e.left[ws..], 0, MAX_CAND), Tab(e, second, listing).ed)
  {
    var ws := WordStart(e.left);
    var cands := CommandMatches(COMMANDS, e.left[ws..], 0, MAX_CAND);
    CommandsFit();
    assert e.left[ws..] <= cands[0] && CommandName(cands[0]);
    CompleteExtends(e, second, ws, true, cands, 0);
  }

  /** Completing a file name from what is found in its directory, if the completed line fits: leading slashes are
      dropped and the rest of the word is kept, or the word stays as it is. */
  lemma TabExtendsFile(e: Editor, second: bool, entries: seq<Entry>, listing: Listing)
    requires ListingOf(listing, entries, e.left[WordStart(e.left)..]) && listing.names != []
    requires NulFree(e.left) && forall i | 0 <= i < |entries| :: NulFree(entries[i].name)
    requires |e.left| - WordStart(e.left) < WORD_MAX && !CommandPosition(e.left, WordStart(e.left))
    requires WordStart(e.left) + |Replacement(listing.names)| + |e.right| < LE_MAX
    ensures var ws := WordStart(e.left);
      && WfListing(listing)
      && Extended(e, ws, StripSlashes(e.left[ws..]), listing.names, Tab(e, second, listing).ed)
  {
    ListingIsWf(listing, entries, e.left[WordStart(e.left)..]);
    CompleteExtends(e, second, WordStart(e.left), false, listing.names, listing.dirlen);
  }

  /** A replacement is made in full or not at all, except at the end of a line it overfills: there the
      word is cut to the 159 bytes the buffer holds. */
  lemma ReplaceWordCuts(e: Editor, ws: nat, text: string, addSpace: bool)
    requires ws <= |e.left| && |e.left| + |e.right| < LE_MAX
    ensures var whole := e.left[..ws] + text + if addSpace then " " else "";
      var d := ReplaceWord(e, ws, text, addSpace);
      (d == e || d == e.(left := whole)) <==>
      !(e.right == "" && |whole| >= LE_MAX && e.left != whole[..LE_MAX - 1])
  {
    var whole := e.left[..ws] + text + if addSpace then " " else "";
    if e.right == "" && |whole| >= LE_MAX && e.left != whole[..LE_MAX - 1] {
      var d := ReplaceWord(e, ws, text, addSpace);
      assert d.left == whole[..LE_MAX - 1];
    } else if e.right == "" && |whole| >= LE_MAX {
      assert ReplaceWord(e, ws, text, addSpace) == e;
    }
  }

  /** Such a line: 150 characters, a blank and the beginning of a file name, where Tab finds one longer name. */
  lemma TabCutsName()
    ensures var head := seq(150, _ => 'x') + " ";
      var e, l := Editor("", head + "n", "", "", Typing, 0, -1, false, false), Files(["notes-8.2.md"], 0);
      && Wf(e, []) && WfListing(l)
      && Tab(e, false, l).ed.left == head + "notes-8."
  {
    var head := seq(150, _ => 'x') + " ";
    var e, l := Editor("", head + "n", "", "", Typing, 0, -1, false, false), Files(["notes-8.2.md"], 0);
    var ws := WordStart(e.left);
    assert e.left[150] == ' ' && e.left[151] == 'n';
    assert ws == 151;
    var p := SkipBlanksBack(e.left, ws);
    assert e.left[149] == 'x';
    assert p == 150;
    assert e.left[..ws] == head;
    assert Clip(head + "notes-8.2.md" + " ", LE_MAX) == head + "notes-8.";
  }
}
