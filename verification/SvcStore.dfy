/** The settings store as written: a buffer cut into lines in place, and an output buffer with a running length. */
module SvcStore {
  import opened CBuffer
  import opened CScan
  import opened CText
  import opened Options
  import opened SvcConfig

  /** What a read of the file leaves in its buffer, up to the terminator. */
  function Loaded(file: string): string {
    CStr(if |file| <= SVC_MAX then file else file[..SVC_MAX])
  }

  lemma LoadedText(m: seq<Pair>)
    requires Wf(m)
    ensures Loaded(Text(m)) == Text(m)
  {
    TextNulFree(m);
    CStrOfText(Text(m));
  }

  lemma {:induction false} TextNulFree(m: seq<Pair>)
    requires forall i | 0 <= i < |m| :: PairOk(m[i])
    ensures NulFree(Text(m))
  {
    if m != [] { TextNulFree(m[..|m|-1]); }
  }

  /** A file that only this code wrote is read back whole, so SetStr and GetStr are Set and Get on it. */
  lemma ReachedFilesFit(calls: seq<Call>)
    requires forall i | 0 <= i < |calls| :: Textual(calls[i])
    ensures Loaded(RunFile(calls)) == RunFile(calls)
  {
    FileIsMap(calls);
    LoadedText(RunMap(calls));
  }

  /** `strchr(line, '\n')`. */
  method FindNewline(a: array<char>, p: nat, ghost s: string) returns (n: nat)
    requires Holds(a, p, s)
    ensures n == LineLen(s)
  {
    n := Find(a, p, '\n', s);
    UntilIs(s, '\n', n);
  }

  function FirstLine(s: string): string { Chomp(s[..LineLen(s)]) }

  lemma LinesStep(s: string, key: string)
    ensures s == "" ==> Lookup(Lines(s), key) == None
    ensures s != "" ==>
      && (HasKey(FirstLine(s), key) ==> Lookup(Lines(s), key) == Some(FirstLine(s)[|key| + 1..]))
      && (!HasKey(FirstLine(s), key) ==> Lookup(Lines(s), key) == Lookup(Lines(AfterLine(s)), key))
  {
    if s != "" { assert Lines(s)[1..] == Lines(AfterLine(s)); }
  }

  function Kept(out: string, line: string, key: string): string {
    if line == "" || HasKey(line, key) then out else Append(out, line)
  }

  lemma CopyStep(out: string, s: string, key: string)
    ensures s == "" ==> CopyLines(out, Lines(s), key) == out
    ensures s != "" ==>
      CopyLines(out, Lines(s), key) == CopyLines(Kept(out, FirstLine(s), key), Lines(AfterLine(s)), key)
  {
    if s != "" { assert Lines(s)[1..] == Lines(AfterLine(s)); }
  }

  /** A buffer being cut into lines; `pos` is negative after the last one. */
  class Cutter {
    const buf: array<char>
    var pos: int
    ghost var rest: string

    ghost predicate Valid()
      reads this, buf
    {
      if pos < 0 then rest == "" else Holds(buf, pos, rest)
    }

    /** Reads the file into a cleared buffer of one character more than is ever read. */
    constructor (file: string)
      ensures Valid() && fresh(buf) && rest == Loaded(file)
    {
      var r := if |file| <= SVC_MAX then file else file[..SVC_MAX];
      buf := new char[SVC_MAX + 1](i => if 0 <= i < |r| then r[i] else NUL);
      pos := 0;
      rest := CStr(r);
      new;
      assert forall k | 0 <= k < |rest| :: rest[k] in rest;
    }

    /** Cuts the next line off in place and returns where it starts, or a negative number. */
    method NextLine() returns (line: int)
      requires Valid()
      modifies this, buf
      ensures Valid() && (line < 0 <==> old(rest) == "")
      ensures line >= 0 ==> Holds(buf, line, FirstLine(old(rest))) && rest == AfterLine(old(rest))
      ensures line < 0 ==> rest == ""
    {
      if pos < 0 { return -1; }
      assert rest == "" || rest[0] == buf[pos + 0];
      if buf[pos] == NUL { return -1; }
      line := pos;
      ghost var text := rest;
      var nl := FindNewline(buf, pos, rest);
      ghost var cut := rest[..nl];
      if buf[pos + nl] == '\n' {
        buf[pos + nl] := NUL;
        pos := pos + nl + 1;
        rest := rest[nl + 1..];
      } else {
        pos := -1;
        rest := "";
      }
      Strip(line, cut);
    }

    /** Drops a carriage return at the end of the line just cut. */
    method Strip(line: nat, ghost cut: string)
      requires Valid() && Holds(buf, line, cut) && (pos < 0 || line + |cut| < pos)
      modifies buf
      ensures Valid() && Holds(buf, line, Chomp(cut))
    {
      var n := StrLen(buf, line, cut);
      if n > 0 && buf[line + n - 1] == '\r' {
        buf[line + n - 1] := NUL;
      }
    }

    /** `strncmp(line, key, klen) == 0 && line[klen] == '='`. */
    method LineHasKey(line: nat, key: string, ghost text: string) returns (has: bool)
      requires Holds(buf, line, text) && NulFree(key)
      ensures has == HasKey(text, key)
    {
      var k := 0;
      while k < |key| && buf[line + k] == key[k]
        invariant k <= |key| && k <= |text| && text[..k] == key[..k]
      {
        assert key[k] in key;
        assert text[..k + 1] == text[..k] + [text[k]];
        assert key[..k + 1] == key[..k] + [key[k]];
        k := k + 1;
      }
      has := k == |key| && buf[line + k] == '=';
      HasKeyAt(text, key, k);
    }
  }

  lemma HasKeyAt(text: string, key: string, k: nat)
    requires k <= |key| && k <= |text| && text[..k] == key[..k]
    requires k < |key| ==> k == |text| || text[k] != key[k]
    ensures HasKey(text, key) <==> k == |key| && k < |text| && text[k] == '='
  {
    if HasKey(text, key) {
      assert forall i | 0 <= i < |key| :: text[i] == (key + "=")[i];
      assert text[|key|] == (key + "=")[|key|];
    }
  }

  /** The output buffer of a rewrite. */
  class Output {
    const outb: array<char>
    var used: nat
    ghost var text: string

    ghost predicate Valid()
      reads this, outb
    {
      used < SVC_MAX && outb.Length == SVC_MAX + 1 && outb[..used] == text
    }

    constructor ()
      ensures Valid() && fresh(outb) && text == ""
    {
      outb := new char[SVC_MAX + 1](_ => NUL);
      used, text := 0, "";
    }

    /** `snprintf(outb + used, SVC_MAX - used, "%s\n", line)`, kept only if it was not cut. */
    method Put(line: string)
      requires Valid()
      modifies this, outb
      ensures Valid() && text == Append(old(text), line)
    {
      var s := line + "\n";
      var room := SVC_MAX - used;
      var i := 0;
      while i < |s| && i < room - 1
        invariant 0 <= i <= |s| && i < room
        invariant s == line + "\n" && used == old(used) && text == old(text) && outb[..used] == text
        invariant forall k | 0 <= k < i :: outb[used + k] == s[k]
      {
        outb[used + i] := s[i];
        i := i + 1;
      }
      outb[used + i] := NUL;
      if |s| < room {
        assert outb[used..used + |s|] == s;
        assert outb[..used + |s|] == outb[..used] + outb[used..used + |s|];
        used := used + |s|;
        text := text + line + "\n";
      }
    }
  }

  class Store {
    var file: string

    method GetStr(key: string, outSize: nat) returns (found: bool, out: string)
      requires NulFree(key) && outSize > 0
      ensures (found, out) == Get(Loaded(file), key, outSize)
    {
      var buf := new Cutter(file);
      ghost var want := Lookup(Lines(buf.rest), key);
      while true
        invariant buf.Valid() && fresh(buf) && fresh(buf.buf)
        invariant Lookup(Lines(buf.rest), key) == want
        decreases |buf.rest|
      {
        ghost var cut := FirstLine(buf.rest);
        LinesStep(buf.rest, key);
        var line := buf.NextLine();
        if line < 0 { return false, ""; }
        var has := buf.LineHasKey(line, key, cut);
        if has {
          var s := Read(buf.buf, line, cut);
          out := Clip(s[|key| + 1..], outSize);
          return out != "", out;
        }
      }
    }

    /** `in` and `outb` may fail to be allocated; writing the new file or renaming it may fail. */
    method SetStr(key: string, val: string, io: Io)
      requires NulFree(key) && NulFree(val)
      modifies this
      ensures file == if !KeyOk(key) || !ValueOk(val) || io == NotWritten then old(file)
                      else if io == NotRenamed then "" else Rewritten(Loaded(old(file)), key, val)
    {
      if key == "" || '=' in key || '\n' in key { return; }
      if '\n' in val || '\r' in val { return; }
      var text := Rebuild(key, val);
      if io != NotWritten {
        file := "";
        if io != NotRenamed { file := text; }
      }
    }

    method Rebuild(key: string, val: string) returns (text: string)
      requires NulFree(key)
      ensures text == Rewritten(Loaded(file), key, val)
    {
      var buf := new Cutter(file);
      var out := new Output();
      ghost var kept := CopyLines("", Lines(buf.rest), key);
      var more := true;
      while more
        invariant buf.Valid() && fresh(buf) && fresh(buf.buf)
        invariant out.Valid() && fresh(out) && fresh(out.outb) && out.outb != buf.buf
        invariant CopyLines(out.text, Lines(buf.rest), key) == kept && (!more ==> buf.rest == "")
        decreases more, |buf.rest|
      {
        CopyStep(out.text, buf.rest, key);
        more := CopyLine(buf, out, key);
      }
      if val != "" { out.Put(key + "=" + val); }
      text := out.outb[..out.used];
    }
  }

  /** One round of the copying loop. */
  method CopyLine(buf: Cutter, out: Output, key: string) returns (more: bool)
    requires buf.Valid() && out.Valid() && out.outb != buf.buf && NulFree(key)
    modifies buf, buf.buf, out, out.outb
    ensures buf.Valid() && out.Valid()
    ensures more <==> old(buf.rest) != ""
    ensures if more then buf.rest == AfterLine(old(buf.rest))
            && out.text == Kept(old(out.text), FirstLine(old(buf.rest)), key)
            else buf.rest == "" && out.text == old(out.text)
  {
    ghost var cut := FirstLine(buf.rest);
    var line := buf.NextLine();
    if line < 0 { return false; }
    var has := buf.LineHasKey(line, key, cut);
    if buf.buf[line] != NUL && !has {
      var s := Read(buf.buf, line, cut);
      out.Put(s);
    }
    return true;
  }
}
