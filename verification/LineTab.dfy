/** What Tab completes: which word, as a command or as a file name, and to what. */
module LineTab {
  import opened CText
  import opened LineEdit
  import opened LineComplete

  // ---------- the word ----------

  predicate IsWord(w: string) { forall c | c in w :: c !in " |>" }

  /** A word begins behind the last blank, bar or angle bracket. */
  lemma {:induction false} WordMeans(head: string, word: string)
    requires IsWord(word) && (head != "" ==> head[|head|-1] in " |>")
    ensures WordStart(head + word) == |head|
    decreases |word|
  {
    if word == "" {
      assert head + word == head;
    } else {
      var init := word[..|word|-1];
      assert (head + word)[..|head + word| - 1] == head + init;
      assert (head + word)[|head + word| - 1] == word[|word|-1] && word[|word|-1] in word;
      forall c | c in init ensures c !in " |>" { assert c in word; }
      WordMeans(head, init);
    }
  }

  lemma {:induction false} BlanksBack(x: string, n: nat, word: string)
    requires x != "" ==> x[|x|-1] != ' '
    ensures SkipBlanksBack(x + seq(n, _ => ' ') + word, |x| + n) == |x|
    decreases n
  {
    var s: string := x + seq(n, _ => ' ') + word;
    if n > 0 {
      var less: string := seq(n - 1, _ => ' ');
      assert s == x + less + (" " + word);
      assert s[|x| + n - 1] == ' ';
      BlanksBack(x, n - 1, " " + word);
    } else if x != "" {
      assert s[|x|-1] == x[|x|-1];
    }
  }

  /** A word is a command if nothing but blanks is before it on the line, or behind a bar. */
  lemma {:induction false} CommandMeans(x: string, n: nat, word: string)
    requires x != "" ==> x[|x|-1] != ' '
    ensures var head := x + seq(n, _ => ' ');
      CommandPosition(head + word, |head|) <==> x == "" || x[|x|-1] == '|'
  {
    BlanksBack(x, n, word);
    var left := x + seq(n, _ => ' ') + word;
    if x != "" { assert left[|x|-1] == x[|x|-1]; }
    if n > 0 { assert left[|x| + n - 1] == ' '; }
  }

  /** Words from 96 characters on are only beeped at. */
  lemma {:induction false} LongWordsBeep(e: Editor, second: bool, listing: Listing, head: string, word: string)
    requires WfListing(listing) && e.left == head + word && IsWord(word) && |word| >= 96
    requires head != "" ==> head[|head|-1] in " |>"
    ensures Tab(e, second, listing) == Reply(e, [7 as char], None)
  {
    WordMeans(head, word);
  }

  // ---------- files ----------

  /** The directory shows this name to whoever looks for names with that beginning. */
  predicate Shown(e: Entry, dir: string, prefix: string) {
    && e.name !in {"", ".", ".."} && (e.name[0] == '.' ==> prefix != "" && prefix[0] == '.')
    && ' ' !in e.name && prefix <= e.name && !e.blocked && |dir| + |e.name| < 54
  }

  function Path(e: Entry, dir: string): string { dir + e.name + if e.dir then "/" else "" }

  /** Everything shown is found while there is room, and nothing else. */
  lemma {:induction false} FileMatchesAre(entries: seq<Entry>, dir: string, prefix: string, room: nat, n: string)
    ensures var r := FileMatches(entries, dir, prefix, room);
      && (n in r ==> exists i :: 0 <= i < |entries| && Shown(entries[i], dir, prefix) && n == Path(entries[i], dir))
      && (|r| < room ==> forall i | 0 <= i < |entries| && Shown(entries[i], dir, prefix) :: Path(entries[i], dir) in r)
  {
    if entries != [] && room > 0 {
      var e, rest := entries[0], entries[1..];
      assert Listable(e, dir, prefix) <==> Shown(e, dir, prefix);
      var left := if Shown(e, dir, prefix) then room - 1 else room;
      FileMatchesAre(rest, dir, prefix, left, n);
      var more := FileMatches(rest, dir, prefix, left);
      if n in more {
        var i :| 0 <= i < |rest| && Shown(rest[i], dir, prefix) && n == Path(rest[i], dir);
        assert entries[i + 1] == rest[i];
      }
      forall i | 0 <= i < |entries| && Shown(entries[i], dir, prefix) && |more| < left
        ensures Path(entries[i], dir) in FileMatches(entries, dir, prefix, room)
      {
        if i > 0 { assert entries[i] == rest[i - 1]; }
      }
    }
  }

  lemma {:induction false} StripOf(slashes: string, w: string)
    requires (forall c | c in slashes :: c == '/') && (w == "" || w[0] != '/')
    ensures StripSlashes(slashes + w) == w
    decreases |slashes|
  {
    if slashes == "" {
      assert slashes + w == w;
    } else {
      assert slashes[0] in slashes && (slashes + w)[1..] == slashes[1..] + w;
      forall c | c in slashes[1..] ensures c == '/' { assert c in slashes; }
      StripOf(slashes[1..], w);
    }
  }

  lemma {:induction false} LastPartOf(dir: string, prefix: string)
    requires (dir == "" || dir[|dir|-1] == '/') && '/' !in prefix
    ensures LastPart(dir + prefix) == |dir|
    decreases |prefix|
  {
    if prefix == "" {
      assert dir + prefix == dir;
    } else {
      assert (dir + prefix)[..|dir + prefix| - 1] == dir + prefix[..|prefix|-1];
      assert (dir + prefix)[|dir + prefix| - 1] == prefix[|prefix|-1] && prefix[|prefix|-1] in prefix;
      LastPartOf(dir, prefix[..|prefix|-1]);
    }
  }

  ghost predicate HasDots(dir: string) { exists a, b :: dir == a + ".." + b }

  /** A file word: slashes that are dropped, a directory, the beginning of a name. Below 32 names all that are shown
      are found; none behind two dots. */
  lemma {:induction false} FoundMeans(entries: seq<Entry>, slashes: string, dir: string, prefix: string, n: string)
    requires forall c | c in slashes :: c == '/'
    requires (dir == "" || (dir[0] != '/' && dir[|dir|-1] == '/')) && '/' !in prefix
    ensures var r := Found(entries, slashes + (dir + prefix));
      && (HasDots(dir) ==> r == [])
      && (n in r ==> exists i :: 0 <= i < |entries| && Shown(entries[i], dir, prefix) && n == Path(entries[i], dir))
      && (!HasDots(dir) && |r| < 32 ==>
            forall i | 0 <= i < |entries| && Shown(entries[i], dir, prefix) :: Path(entries[i], dir) in r)
  {
    var w := dir + prefix;
    if w != "" && dir == "" { assert w[0] in prefix; }
    StripOf(slashes, w);
    LastPartOf(dir, prefix);
    assert w[..|dir|] == dir && w[|dir|..] == prefix;
    DotsClimb(dir);
    FileMatchesAre(entries, dir, prefix, 32, n);
  }

  lemma DotsClimb(dir: string)
    ensures Climbs(dir) <==> HasDots(dir)
  {
    if i: nat :| i < |dir| - 1 && dir[i] == '.' && dir[i + 1] == '.' { assert dir == dir[..i] + ".." + dir[i + 2..]; }
    if a, b :| dir == a + ".." + b { assert dir[|a|] == '.' && dir[|a| + 1] == '.'; }
  }
}
