/** The service settings file: what its text means as a map, and what setting a key does to it. */
module SvcConfig {
  import opened CScan
  import opened CText
  import opened Options

  const SVC_MAX: nat := 1024

  // ---------- text ----------

  /** Length of the first line, without its newline. */
  function LineLen(s: string): nat { Until(s, '\n') }

  /** A carriage return at the end of a line is dropped. */
  function Chomp(line: string): string {
    if line != "" && line[|line|-1] == '\r' then line[..|line|-1] else line
  }

  function AfterLine(s: string): (r: string)
    ensures s != "" ==> |r| < |s|
  {
    var n := LineLen(s);
    if n < |s| then s[n + 1..] else ""
  }

  function Lines(s: string): seq<string>
    decreases |s|
  {
    if s == "" then [] else [Chomp(s[..LineLen(s)])] + Lines(AfterLine(s))
  }

  predicate HasKey(line: string, key: string) { key + "=" <= line }

  /** The value of the first line for the key. */
  function Lookup(lines: seq<string>, key: string): Option<string> {
    if lines == [] then None
    else if HasKey(lines[0], key) then Some(lines[0][|key| + 1..])
    else Lookup(lines[1..], key)
  }

  /** Appends a line if the buffer still has room for it. */
  function Append(out: string, line: string): string {
    if |out| + |line| + 1 < SVC_MAX then out + line + "\n" else out
  }

  /** Copies the lines that are not empty and not for the key. */
  function CopyLines(out: string, lines: seq<string>, key: string): string
    decreases |lines|
  {
    if lines == [] then out
    else CopyLines(if lines[0] == "" || HasKey(lines[0], key) then out else Append(out, lines[0]), lines[1..], key)
  }

  predicate KeyOk(key: string) { key != "" && '=' !in key && '\n' !in key }

  predicate ValueOk(val: string) { '\n' !in val && '\r' !in val }

  /** The text the file gets. */
  function Rewritten(file: string, key: string, val: string): string {
    var kept := CopyLines("", Lines(file), key);
    if val == "" then kept else Append(kept, key + "=" + val)
  }

  /** How writing the new file went; when the last rename fails the old file is already gone. */
  datatype Io = Done | NotWritten | NotRenamed

  function Set(file: string, key: string, val: string, io: Io): string {
    if !KeyOk(key) || !ValueOk(val) || io == NotWritten then file
    else if io == NotRenamed then ""
    else Rewritten(file, key, val)
  }

  /** Whether the key has a value, and the value cut to the caller's buffer. */
  function Get(file: string, key: string, outSize: nat): (bool, string)
    requires outSize > 0
  {
    match Lookup(Lines(file), key)
    case None => (false, "")
    case Some(v) => (Clip(v, outSize) != "", Clip(v, outSize))
  }

  // ---------- meaning ----------

  /** Settings in the order they were last set. */
  datatype Pair = Pair(key: string, val: string)

  function LineOf(p: Pair): string { p.key + "=" + p.val }

  function Text(m: seq<Pair>): string {
    if m == [] then "" else Text(m[..|m|-1]) + LineOf(m[|m|-1]) + "\n"
  }

  ghost predicate Wf(m: seq<Pair>) {
    && |Text(m)| < SVC_MAX
    && (forall i | 0 <= i < |m| :: PairOk(m[i]))
    && (forall i, j | 0 <= i < j < |m| :: m[i].key != m[j].key)
  }

  ghost predicate PairOk(p: Pair) {
    KeyOk(p.key) && ValueOk(p.val) && p.val != "" && NulFree(p.key) && NulFree(p.val)
  }

  function ValueOf(m: seq<Pair>, key: string): Option<string> {
    if m == [] then None
    else if m[|m|-1].key == key then Some(m[|m|-1].val)
    else ValueOf(m[..|m|-1], key)
  }

  function Without(m: seq<Pair>, key: string): (r: seq<Pair>)
    ensures |r| <= |m|
  {
    if m == [] then []
    else
      var init, last := Without(m[..|m|-1], key), m[|m|-1];
      if last.key == key then init else init + [last]
  }

  /** Whether the line of a pair still fits after the text. */
  predicate Room(text: string, key: string, val: string) { |text| + |key| + 1 + |val| + 1 < SVC_MAX }

  /** A new value is placed last if the file then still fits its buffer; the old value goes in any case. */
  function SetPair(m: seq<Pair>, key: string, val: string): seq<Pair> {
    var rest := Without(m, key);
    if val != "" && Room(Text(rest), key, val) then rest + [Pair(key, val)] else rest
  }

  // ---------- lines of a canonical text ----------

  lemma LinesCons(line: string, rest: string)
    requires '\n' !in line
    ensures Lines(line + "\n" + rest) == [Chomp(line)] + Lines(rest)
  {
    UntilConcat(line, '\n', rest);
    assert line + "\n" + rest == line + ['\n'] + rest;
  }

  lemma PairLine(p: Pair)
    requires PairOk(p)
    ensures '\n' !in LineOf(p) && Chomp(LineOf(p)) == LineOf(p) && LineOf(p) != ""
  {
    assert LineOf(p)[|LineOf(p)|-1] == p.val[|p.val|-1];
  }

  function LinesOf(m: seq<Pair>): seq<string> {
    if m == [] then [] else LinesOf(m[..|m|-1]) + [LineOf(m[|m|-1])]
  }

  lemma Assoc<T>(a: seq<T>, b: seq<T>, c: seq<T>)
    ensures (a + b) + c == a + (b + c)
  {
  }

  lemma {:induction false} LinesOfText(m: seq<Pair>, rest: string)
    requires forall i | 0 <= i < |m| :: PairOk(m[i])
    ensures Lines(Text(m) + rest) == LinesOf(m) + Lines(rest)
  {
    if m == [] {
      assert Text(m) + rest == rest;
    } else {
      var init, last := m[..|m|-1], m[|m|-1];
      var line := LineOf(last);
      LinesOfText(init, line + "\n" + rest);
      PairLine(last);
      LinesOfLast(Text(init), LinesOf(init), line, rest);
    }
  }

  lemma LinesOfLast(text: string, lines: seq<string>, line: string, rest: string)
    requires Lines(text + (line + "\n" + rest)) == lines + Lines(line + "\n" + rest)
    requires '\n' !in line && Chomp(line) == line
    ensures Lines(text + line + "\n" + rest) == lines + [line] + Lines(rest)
  {
    LinesCons(line, rest);
    Assoc(lines, [line], Lines(rest));
    Assoc(text, line, "\n");
    Assoc(text, line + "\n", rest);
  }

  lemma HasKeyMeans(p: Pair, key: string)
    requires PairOk(p) && KeyOk(key)
    ensures HasKey(LineOf(p), key) <==> p.key == key
    ensures p.key == key ==> LineOf(p)[|key| + 1..] == p.val
  {
    var line := LineOf(p);
    assert p.key == line[..|p.key|] && line == (p.key + "=") + p.val;
    forall i | 0 <= i < |p.key| ensures line[i] != '=' { assert line[i] == p.key[i]; }
    if HasKey(line, key) {
      forall i | 0 <= i < |key| ensures line[i] != '=' { assert line[i] == (key + "=")[i] == key[i]; }
      assert line[|key|] == (key + "=")[|key|] == '=';
      assert key == (key + "=")[..|key|] == line[..|key|];
      assert line[|p.key|] == '=';
      assert |key| == |p.key|;
    }
    if p.key == key { assert line[..|key| + 1] == key + "="; }
  }

  // ---------- reading ----------

  lemma {:induction false} LookupPrefix(a: seq<string>, line: string, key: string)
    ensures Lookup(a + [line], key) ==
            if Lookup(a, key).Some? then Lookup(a, key)
            else if HasKey(line, key) then Some(line[|key| + 1..]) else None
  {
    if a == [] {
      assert a + [line] == [line];
      assert Lookup([line][1..], key) == None;
    } else {
      assert (a + [line])[1..] == a[1..] + [line];
      LookupPrefix(a[1..], line, key);
    }
  }

  lemma {:induction false} LookupMeans(m: seq<Pair>, key: string)
    requires KeyOk(key) && (forall i | 0 <= i < |m| :: PairOk(m[i]))
    requires forall i, j | 0 <= i < j < |m| :: m[i].key != m[j].key
    ensures Lookup(LinesOf(m), key) == ValueOf(m, key)
    ensures ValueOf(m, key).Some? <==> exists i | 0 <= i < |m| :: m[i].key == key
  {
    if m != [] {
      var init, last := m[..|m|-1], m[|m|-1];
      LookupMeans(init, key);
      assert LinesOf(m) == LinesOf(init) + [LineOf(last)];
      LookupPrefix(LinesOf(init), LineOf(last), key);
      HasKeyMeans(last, key);
      if ValueOf(init, key).Some? {
        var i :| 0 <= i < |init| && init[i].key == key;
        assert m[i].key == key;
      }
      if last.key == key { assert m[|m|-1].key == key; }
    }
  }

  /** Reading a key of a canonical file gives the map's value, cut to the caller's buffer. */
  lemma GetMeans(m: seq<Pair>, key: string, outSize: nat)
    requires Wf(m) && KeyOk(key) && outSize > 0
    ensures Get(Text(m), key, outSize) ==
            match ValueOf(m, key) case None => (false, "") case Some(v) => (outSize > 1, Clip(v, outSize))
  {
    LinesOfText(m, "");
    assert Text(m) + "" == Text(m) && LinesOf(m) + Lines("") == LinesOf(m);
    LookupMeans(m, key);
    ValueNonEmpty(m, key);
  }

  lemma {:induction false} ValueNonEmpty(m: seq<Pair>, key: string)
    requires forall i | 0 <= i < |m| :: PairOk(m[i])
    ensures ValueOf(m, key).Some? ==> ValueOf(m, key).value != ""
  {
    if m != [] && m[|m|-1].key != key { ValueNonEmpty(m[..|m|-1], key); }
  }

  // ---------- writing ----------

  lemma {:induction false} CopyConcat(out: string, a: seq<string>, line: string, key: string)
    ensures CopyLines(out, a + [line], key) ==
            var c := CopyLines(out, a, key);
            if line == "" || HasKey(line, key) then c else Append(c, line)
    decreases |a|
  {
    if a == [] {
      assert a + [line] == [line];
      assert [line][1..] == [];
    } else {
      assert (a + [line])[1..] == a[1..] + [line];
      CopyConcat(if a[0] == "" || HasKey(a[0], key) then out else Append(out, a[0]), a[1..], line, key);
    }
  }

  lemma {:induction false} CopyMeans(m: seq<Pair>, key: string)
    requires KeyOk(key) && (forall i | 0 <= i < |m| :: PairOk(m[i])) && |Text(m)| < SVC_MAX
    ensures CopyLines("", LinesOf(m), key) == Text(Without(m, key))
    ensures |Text(Without(m, key))| <= |Text(m)|
  {
    if m != [] {
      var init, last := m[..|m|-1], m[|m|-1];
      CopyMeans(init, key);
      assert LinesOf(m) == LinesOf(init) + [LineOf(last)];
      CopyConcat("", LinesOf(init), LineOf(last), key);
      HasKeyMeans(last, key);
      PairLine(last);
      var w := Without(init, key);
      assert (w + [last])[..|w|] == w;
    }
  }

  lemma {:induction false} WithoutKeeps(m: seq<Pair>, key: string, other: string)
    requires forall i | 0 <= i < |m| :: PairOk(m[i])
    requires forall i, j | 0 <= i < j < |m| :: m[i].key != m[j].key
    ensures var w := Without(m, key);
      && (forall i | 0 <= i < |w| :: PairOk(w[i]) && w[i].key != key && w[i] in m)
      && (forall i, j | 0 <= i < j < |w| :: w[i].key != w[j].key)
      && ValueOf(w, other) == if other == key then None else ValueOf(m, other)
  {
    if m != [] {
      var init, last := m[..|m|-1], m[|m|-1];
      WithoutKeeps(init, key, other);
      var w := Without(init, key);
      assert forall i | 0 <= i < |w| :: w[i] in m;
      if last.key != key {
        forall i | 0 <= i < |w| ensures w[i].key != last.key {
          assert w[i] in init;
        }
        assert (w + [last])[..|w|] == w;
      }
    }
  }

  lemma SetPairWf(m: seq<Pair>, key: string, val: string)
    requires Wf(m) && KeyOk(key) && ValueOk(val) && NulFree(key) && NulFree(val)
    ensures Wf(SetPair(m, key, val))
  {
    CopyMeans(m, key);
    WithoutKeeps(m, key, key);
    AddWf(Without(m, key), Pair(key, val));
  }

  lemma AddWf(w: seq<Pair>, p: Pair)
    requires Wf(w) && (p.val != "" ==> PairOk(p)) && forall i | 0 <= i < |w| :: w[i].key != p.key
    ensures p.val != "" && |Text(w)| + |LineOf(p)| + 1 < SVC_MAX ==> Wf(w + [p])
  {
    assert (w + [p])[..|w|] == w;
  }

  /** Setting a key of a canonical file gives the canonical file of the changed map. */
  lemma RewrittenMeans(m: seq<Pair>, key: string, val: string)
    requires Wf(m) && KeyOk(key) && ValueOk(val)
    ensures Rewritten(Text(m), key, val) == Text(SetPair(m, key, val))
  {
    LinesOfText(m, "");
    assert Text(m) + "" == Text(m) && LinesOf(m) + Lines("") == LinesOf(m);
    CopyMeans(m, key);
    var w := Without(m, key);
    assert (w + [Pair(key, val)])[..|w|] == w;
    assert LineOf(Pair(key, val)) == key + "=" + val;
  }

  // ---------- whole runs ----------

  datatype Call = Call(key: string, val: string, io: Io)

  ghost predicate Textual(c: Call) { NulFree(c.key) && NulFree(c.val) }

  function RunFile(calls: seq<Call>): string {
    if calls == [] then ""
    else
      var c := calls[|calls|-1];
      Set(RunFile(calls[..|calls|-1]), c.key, c.val, c.io)
  }

  function RunMap(calls: seq<Call>): seq<Pair> {
    if calls == [] then []
    else
      var before, c := RunMap(calls[..|calls|-1]), calls[|calls|-1];
      if !KeyOk(c.key) || !ValueOk(c.val) || c.io == NotWritten then before
      else if c.io == NotRenamed then []
      else SetPair(before, c.key, c.val)
  }

  /** Every file reached from no file is the canonical text of a map with unique keys, and setting and reading
      are the map's operations. */
  lemma {:induction false} FileIsMap(calls: seq<Call>)
    requires forall i | 0 <= i < |calls| :: Textual(calls[i])
    ensures Wf(RunMap(calls)) && RunFile(calls) == Text(RunMap(calls))
  {
    if calls != [] {
      var earlier, c := calls[..|calls|-1], calls[|calls|-1];
      FileIsMap(earlier);
      assert Textual(c);
      if KeyOk(c.key) && ValueOk(c.val) {
        SetPairWf(RunMap(earlier), c.key, c.val);
        RewrittenMeans(RunMap(earlier), c.key, c.val);
      }
    }
  }

  lemma RunThen(calls: seq<Call>, key: string, val: string)
    requires KeyOk(key) && ValueOk(val)
    ensures RunFile(calls + [Call(key, val, Done)]) == Rewritten(RunFile(calls), key, val)
  {
    assert (calls + [Call(key, val, Done)])[..|calls|] == calls;
  }

  /** What the changed map holds. */
  lemma SetPairMeans(m: seq<Pair>, key: string, val: string, other: string)
    requires Wf(m) && KeyOk(key) && ValueOk(val) && NulFree(key) && NulFree(val)
    ensures ValueOf(SetPair(m, key, val), other) ==
            if other != key then ValueOf(m, other)
            else if val != "" && Room(Text(Without(m, key)), key, val) then Some(val) else None
  {
    WithoutKeeps(m, key, other);
    var w := Without(m, key);
    assert (w + [Pair(key, val)])[..|w|] == w;
  }

  /** After a set that went through: the key has the new value exactly if the file still fits (or no value if
      it does not, or if the value was empty), and every other key is as before. */
  lemma GetAfterSet(calls: seq<Call>, key: string, val: string, other: string, outSize: nat)
    requires (forall i | 0 <= i < |calls| :: Textual(calls[i])) && NulFree(key) && NulFree(val)
    requires KeyOk(key) && ValueOk(val) && KeyOk(other) && outSize > |val|
    ensures var before := RunFile(calls);
      var after := RunFile(calls + [Call(key, val, Done)]);
      var rest := Rewritten(before, key, "");
      && Get(after, key, outSize) ==
         (if val != "" && Room(rest, key, val) then (true, val) else (false, ""))
      && (other != key ==> Get(after, other, outSize) == Get(before, other, outSize))
  {
    var m := RunMap(calls);
    FileIsMap(calls);
    RunThen(calls, key, val);
    GetOwnAfterSet(m, key, val, outSize);
    if other != key { GetOtherAfterSet(m, key, val, other, outSize); }
  }

  lemma FirstSet(key: string, val: string, outSize: nat)
    requires NulFree(key) && NulFree(val) && KeyOk(key) && ValueOk(val) && val != "" && outSize > |val|
    requires |key| + |val| + 2 < SVC_MAX
    ensures Get(RunFile([Call(key, val, Done)]), key, outSize) == (true, val)
  {
    GetAfterSet([], key, val, key, outSize);
    assert [] + [Call(key, val, Done)] == [Call(key, val, Done)];
    assert Lines("") == [];
  }

  /** Such a set: a value of 1021 characters for a key of one does not fit an otherwise empty file, and the old
      value is gone too. */
  lemma OldValueLost(c: char, outSize: nat)
    requires c != NUL && c != '\n' && c != '\r' && outSize > 1021
    ensures var one, two := Call("a", "1", Done), Call("a", seq(1021, _ => c), Done);
      Get(RunFile([one]), "a", outSize) == (true, "1") && Get(RunFile([one, two]), "a", outSize) == (false, "")
  {
    var one, val := Call("a", "1", Done), seq(1021, _ => c);
    FirstSet("a", "1", outSize);
    GetAfterSet([one], "a", val, "a", outSize);
    assert [one] + [Call("a", val, Done)] == [one, Call("a", val, Done)];
  }

  /** However a set goes, another key reads as before if and only if it read as nothing or the file was not lost:
      the rename failed, after the old file was gone. */
  lemma {:induction false} OtherKeysStay(calls: seq<Call>, key: string, val: string, io: Io, other: string,
      outSize: nat)
    requires (forall i | 0 <= i < |calls| :: Textual(calls[i])) && NulFree(key) && NulFree(val)
    requires KeyOk(other) && other != key && outSize > 0
    ensures var before, after := RunFile(calls), RunFile(calls + [Call(key, val, io)]);
      Get(after, other, outSize) == Get(before, other, outSize) <==>
      !(KeyOk(key) && ValueOk(val) && io == NotRenamed && Get(before, other, outSize) != (false, ""))
  {
    var m := RunMap(calls);
    FileIsMap(calls);
    assert (calls + [Call(key, val, io)])[..|calls|] == calls;
    if KeyOk(key) && ValueOk(val) {
      if io == Done { GetOtherAfterSet(m, key, val, other, outSize); }
      if io == NotRenamed { NothingInEmptyFile(other, outSize); }
    }
  }

  lemma NothingInEmptyFile(key: string, outSize: nat)
    requires outSize > 0
    ensures Get("", key, outSize) == (false, "")
  {
    assert Lines("") == [];
  }

  /** Such a set: one value stands in the file, and renaming fails while another is set. */
  lemma OtherValueLost()
    ensures var one, two := Call("a", "1", Done), Call("b", "2", NotRenamed);
      Get(RunFile([one]), "a", 2) == (true, "1") && Get(RunFile([one, two]), "a", 2) == (false, "")
  {
    var one, two := Call("a", "1", Done), Call("b", "2", NotRenamed);
    FirstSet("a", "1", 2);
    assert [one, two][..1] == [one];
    NothingInEmptyFile("a", 2);
  }

  lemma GetOwnAfterSet(m: seq<Pair>, key: string, val: string, outSize: nat)
    requires Wf(m) && NulFree(key) && NulFree(val) && KeyOk(key) && ValueOk(val) && outSize > |val|
    ensures Get(Rewritten(Text(m), key, val), key, outSize) ==
            if val != "" && Room(Rewritten(Text(m), key, ""), key, val) then (true, val) else (false, "")
  {
    RewrittenMeans(m, key, val);
    RewrittenMeans(m, key, "");
    SetPairWf(m, key, val);
    SetPairMeans(m, key, val, key);
    var n := SetPair(m, key, val);
    GetMeans(n, key, outSize);
    var rest := Rewritten(Text(m), key, "");
    assert rest == Text(Without(m, key));
    if val != "" && Room(rest, key, val) {
      assert ValueOf(n, key) == Some(val);
      assert Clip(val, outSize) == val;
    } else {
      assert ValueOf(n, key) == None;
    }
  }

  lemma GetOtherAfterSet(m: seq<Pair>, key: string, val: string, other: string, outSize: nat)
    requires Wf(m) && NulFree(key) && NulFree(val) && KeyOk(key) && ValueOk(val)
    requires KeyOk(other) && other != key && outSize > 0
    ensures Get(Rewritten(Text(m), key, val), other, outSize) == Get(Text(m), other, outSize)
  {
    RewrittenMeans(m, key, val);
    SetPairWf(m, key, val);
    SetPairMeans(m, key, val, other);
    GetMeans(SetPair(m, key, val), other, outSize);
    GetMeans(m, other, outSize);
  }
}
