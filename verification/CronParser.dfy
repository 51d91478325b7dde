/** The crontab compiler as written: tokens cut out of a local buffer, masks filled by shifts. */
module CronParser {
  import opened CBuffer
  import opened CScan
  import opened CText
  import opened Options
  import opened CronText
  import opened CronJob

  method AllDigits(s: string) returns (ok: bool)
    ensures ok == Number(s)
  {
    if |s| == 0 || |s| > 3 { return false; }
    for i := 0 to |s|
      invariant forall k | 0 <= k < i :: '0' <= s[k] <= '9'
    {
      if s[i] < '0' || s[i] > '9' { return false; }
    }
    return true;
  }

  method Atoi(s: string) returns (v: nat)
    requires Number(s)
    ensures v == Val(s)
  {
    v := 0;
    ghost var rest := s;
    for i := 0 to |s|
      invariant rest == s[i..] && ReadDecimal(v, rest) == Val(s)
    {
      v := v * 10 + (s[i] - '0') as nat;
      rest := rest[1..];
    }
  }

  /** The part of an item before its step. */
  method ParseBase(buf: array<char>, p: nat, lo: nat, hi: nat, stepped: bool, ghost text: string)
      returns (ok: bool, a: nat, b: nat)
    requires Holds(buf, p, text)
    modifies buf
    ensures ok <==> ReadBase(text).Some?
    ensures ok ==> BaseSpelled(ReadBase(text).value)
    ensures ok ==> a == BaseFirst(ReadBase(text).value, lo) && b == BaseLast(ReadBase(text).value, stepped, hi)
    ensures forall i | 0 <= i < buf.Length && !(p <= i < p + |text|) :: buf[i] == old(buf[i])
  {
    a, b := lo, hi;
    var item := Read(buf, p, text);
    if item == "*" { return true, a, b; }
    var n := Find(buf, p, '-', text);
    UntilIs(text, '-', n);
    if buf[p + n] == '-' {
      Cut(buf, p, n, text);
      var first := Read(buf, p, text[..n]);
      var last := Read(buf, p + n + 1, text[n + 1..]);
      ok := AllDigits(first);
      if ok { ok := AllDigits(last); }
      if ok { a := Atoi(first); b := Atoi(last); }
    } else {
      ok := AllDigits(item);
      if ok { a := Atoi(item); b := if stepped then hi else a; }
    }
  }

  method ParseItem(buf: array<char>, p: nat, lo: nat, hi: nat, ghost text: string)
      returns (ok: bool, a: nat, b: nat, step: nat)
    requires Holds(buf, p, text)
    modifies buf
    ensures ok <==> GoodItem(text, lo, hi)
    ensures ok ==> var i := ReadItem(text).value; a == First(i, lo) && b == Last(i, hi) && step == Step(i)
    ensures forall i | 0 <= i < buf.Length && !(p <= i < p + |text|) :: buf[i] == old(buf[i])
  {
    a, b, step := lo, hi, 1;
    var n := Find(buf, p, '/', text);
    UntilIs(text, '/', n);
    var stepped := buf[p + n] == '/';
    if stepped {
      Cut(buf, p, n, text);
      var digits := Read(buf, p + n + 1, text[n + 1..]);
      ok := AllDigits(digits);
      if !ok { return; }
      step := Atoi(digits);
      if step <= 0 { return false, a, b, step; }
    }
    ok, a, b := ParseBase(buf, p, lo, hi, stepped, text[..n]);
    if a < lo || b > hi || a > b { ok := false; }
  }

  /** `for (v = a; v <= b; v += step) *mask |= 1ULL << v`. */
  method AddRange(mask: bv64, a: nat, b: nat, step: nat) returns (m: bv64)
    requires b < 64 && step > 0
    ensures forall w | 0 <= w < 64 :: Bit(m, w) <==> Bit(mask, w) || (a <= w <= b && (w - a) % step == 0)
  {
    m := mask;
    var v := a;
    while v <= b
      invariant a <= v && (v - a) % step == 0
      invariant forall w | 0 <= w < 64 :: Bit(m, w) <==> Bit(mask, w) || (w <= b && HasBelow(a, step, v, w))
      decreases b + 1 - v
    {
      ghost var m0 := m;
      m := WithBit(m, v);
      forall w | 0 <= w < 64
        ensures Bit(m, w) <==> w == v || Bit(m0, w)
        ensures HasBelow(a, step, v + step, w) <==> w == v || HasBelow(a, step, v, w)
      {
        BitOfWithBit(m0, v, w);
        HasBelowStep(a, step, v, w);
      }
      HasBelowStep(a, step, v, v);
      v := v + step;
    }
  }

  lemma PiecesSkip(s: string, c: char)
    requires s != "" && s[0] == c
    ensures Pieces(s, c) == Pieces(s[1..], c)
  {
  }

  lemma PiecesToken(s: string, c: char, n: nat)
    requires s != "" && s[0] != c && n == Until(s, c)
    ensures n > 0 && Pieces(s, c) == [s[..n]] + (if n < |s| then Pieces(s[n + 1..], c) else [])
  {
    if n < |s| { assert s[n..][1..] == s[n + 1..]; }
  }

  /** `strtok_r(..., ",", &save)`. */
  method Token(buf: array<char>, save: nat, ghost rest: string)
      returns (item: int, next: nat, ghost piece: string, ghost after: string)
    requires Holds(buf, save, rest)
    modifies buf
    ensures item < 0 <==> Pieces(rest, ',') == []
    ensures item >= 0 ==>
      && Pieces(rest, ',') == [piece] + Pieces(after, ',') && |after| < |rest|
      && Holds(buf, item, piece) && Holds(buf, next, after) && item + |piece| <= next
  {
    next, after := SkipCommas(buf, save, rest);
    if buf[next] == NUL { return -1, next, "", ""; }
    item := next;
    next, piece, after := CutToken(buf, next, after);
  }

  method SkipCommas(buf: array<char>, save: nat, ghost rest: string) returns (next: nat, ghost after: string)
    requires Holds(buf, save, rest)
    ensures Holds(buf, next, after) && Pieces(after, ',') == Pieces(rest, ',') && |after| <= |rest|
    ensures if after == "" then buf[next] == NUL else buf[next] == after[0] && after[0] != ',' && after[0] != NUL
  {
    next, after := save, rest;
    if after != "" { HoldsRest(buf, next, after); }
    while buf[next] == ','
      invariant Holds(buf, next, after) && Pieces(after, ',') == Pieces(rest, ',') && |after| <= |rest|
      invariant if after == "" then buf[next] == NUL else buf[next] == after[0] != NUL
      decreases |after|
    {
      PiecesSkip(after, ',');
      HoldsRest(buf, next, after);
      next, after := next + 1, after[1..];
      if after != "" { HoldsRest(buf, next, after); }
    }
  }

  /** The token that starts here, up to a comma or the end. */
  method CutToken(buf: array<char>, p: nat, ghost rest: string)
      returns (next: nat, ghost piece: string, ghost after: string)
    requires Holds(buf, p, rest) && rest != "" && rest[0] != ','
    modifies buf
    ensures Pieces(rest, ',') == [piece] + Pieces(after, ',') && |after| < |rest|
    ensures Holds(buf, p, piece) && Holds(buf, next, after) && p + |piece| <= next
  {
    var n := Find(buf, p, ',', rest);
    UntilIs(rest, ',', n);
    PiecesToken(rest, ',', n);
    piece := rest[..n];
    if buf[p + n] == ',' {
      Cut(buf, p, n, rest);
      next, after := p + n + 1, rest[n + 1..];
    } else {
      assert piece == rest;
      next, after := p + n, "";
    }
  }

  lemma AnyHasAdd(p: seq<string>, t: string, lo: nat, hi: nat, v: nat)
    ensures AnyHas(p + [t], lo, hi, v) <==> AnyHas(p, lo, hi, v) || ItemHas(t, lo, hi, v)
  {
    var q := p + [t];
    assert q[|p|] == t;
    if k :| 0 <= k < |p| && ItemHas(p[k], lo, hi, v) { assert q[k] == p[k]; }
  }

  lemma NotZero(m: bv64, v: nat)
    requires v < 64 && Bit(m, v)
    ensures m != 0
  {
    NoBits(v);
  }

  method ParseField(field: string, lo: nat, hi: nat) returns (ok: bool, mask: bv64)
    requires NulFree(field) && hi < 64
    ensures ok <==> FieldOk(field, lo, hi)
    ensures ok ==> Denotes(mask, field, lo, hi)
  {
    mask := 0;
    if |field| >= FIELD_MAX { return false, mask; }
    var buf := Copied(field, FIELD_MAX - 1 - |field|);
    var save := 0;
    ghost var rest, done: seq<string> := field, [];
    forall w | 0 <= w < 64 ensures !Bit(0, w) { NoBits(w); }
    while true
      invariant fresh(buf) && Holds(buf, save, rest) && Pieces(field, ',') == done + Pieces(rest, ',')
      invariant AllGood(done, lo, hi) && (mask == 0 <==> done == [])
      invariant forall w | 0 <= w < 64 :: Bit(mask, w) <==> AnyHas(done, lo, hi, w)
      decreases |rest|
    {
      var item, next, piece, after := Token(buf, save, rest);
      if item < 0 { break; }
      var good, a, b, step := ParseItem(buf, item, lo, hi, piece);
      assert Pieces(field, ',')[|done|] == piece;
      if !good { return false, mask; }
      mask := AddItem(mask, a, b, step, lo, hi, piece, done);
      save, rest, done := next, after, done + [piece];
    }
    assert Pieces(field, ',') == done;
    ok := mask != 0;
  }

  method AddItem(mask: bv64, a: nat, b: nat, step: nat, lo: nat, hi: nat, ghost piece: string, ghost done: seq<string>)
      returns (m: bv64)
    requires GoodItem(piece, lo, hi) && hi < 64
    requires var i := ReadItem(piece).value; a == First(i, lo) && b == Last(i, hi) && step == Step(i)
    requires forall w | 0 <= w < 64 :: Bit(mask, w) <==> AnyHas(done, lo, hi, w)
    ensures forall w | 0 <= w < 64 :: Bit(m, w) <==> AnyHas(done + [piece], lo, hi, w)
    ensures m != 0
  {
    m := AddRange(mask, a, b, step);
    forall w | 0 <= w < 64 ensures Bit(m, w) <==> AnyHas(done + [piece], lo, hi, w) {
      AnyHasAdd(done, piece, lo, hi, w);
    }
    assert (a - a) % step == 0;
    NotZero(m, a);
  }

  // ---------- lines ----------

  lemma ThenThen(fields: seq<string>, word: string, e: seq<string>)
    ensures Then(fields, Then([word], e)) == Then(fields + [word], e)
  {
    assert fields + ([word] + e) == (fields + [word]) + e;
  }

  /** The length of the word at q. */
  method MeasureWord(line: string, q: nat, ghost t: string) returns (n: nat)
    requires Tail(line, q, t)
    ensures Tail(line, q + n, DropWord(t)) && line[q..q + n] == TakeWord(t)
  {
    n := 0;
    ghost var word, after := "", t;
    while q + n < |line| && line[q + n] != ' ' && line[q + n] != '\t'
      invariant Tail(line, q + n, after) && DropWord(after) == DropWord(t)
      invariant |word| == n && (forall k | 0 <= k < n :: word[k] == line[q + k])
      invariant word + TakeWord(after) == TakeWord(t)
      decreases |after|
    {
      assert after[0] == line[q + n + 0];
      TakeStep(word, after);
      n, word, after := n + 1, word + [after[0]], after[1..];
    }
    assert after != "" ==> after[0] == line[q + n + 0];
    assert TakeWord(after) == "" && line[q..q + n] == word;
  }

  lemma TakeStep(word: string, t: string)
    requires t != "" && !Blank(t[0])
    ensures word + TakeWord(t) == word + [t[0]] + TakeWord(t[1..])
  {
  }

  /** The first fields (a schedule has five) and the command. */
  method SplitLine(line: string, count: nat) returns (ok: bool, fields: seq<string>, cmd: string)
    ensures Split(line, count) == if ok then fields + [cmd] else []
    ensures ok ==> |fields| == count
  {
    var p := 0;
    fields := [];
    ghost var rest, whole := line, Split(line, count);
    assert [] + whole == whole;
    for i := 0 to count
      invariant Tail(line, p, rest) && |fields| == i && whole == Then(fields, Split(rest, count - i))
    {
      var word;
      p, word, rest := NextField(line, p, rest, count - i - 1, fields);
      if word == "" { return false, fields, ""; }
      fields := fields + [word];
    }
    cmd := TakeCommand(line, p, rest, fields);
    ok := cmd != "";
  }

  method NextField(line: string, p: nat, ghost rest: string, ghost left: nat, ghost fields: seq<string>)
      returns (next: nat, word: string, ghost after: string)
    requires Tail(line, p, rest)
    ensures Then(fields, Split(rest, left + 1)) == if word != "" then Then(fields + [word], Split(after, left)) else []
    ensures Tail(line, next, after)
  {
    next, word, after := TakeField(line, p, rest, left);
    if word != "" { ThenThen(fields, word, Split(after, left)); }
  }

  /** One round of the field loop; no word is returned when the line is bad. */
  method TakeField(line: string, p: nat, ghost rest: string, ghost left: nat)
      returns (next: nat, word: string, ghost after: string)
    requires Tail(line, p, rest)
    ensures Split(rest, left + 1) == if word != "" then Then([word], Split(after, left)) else []
    ensures Tail(line, next, after)
  {
    var q := SkipWs(line, p, rest);
    var n := MeasureWord(line, q, Skip(rest));
    next, word, after := q + n, "", DropWord(Skip(rest));
    if 0 < n < FIELD_MAX { word := line[q..q + n]; }
  }

  method TakeCommand(line: string, p: nat, ghost rest: string, ghost fields: seq<string>) returns (cmd: string)
    requires Tail(line, p, rest)
    ensures Then(fields, Split(rest, 0)) == if cmd == "" then [] else fields + [cmd]
  {
    var q := SkipWs(line, p, rest);
    cmd := line[q..];
    assert cmd == Skip(rest);
  }

  method ParseLine(line: string) returns (ok: bool, job: Job)
    requires NulFree(line)
    ensures ok <==> EntryOk(Split(line, FIELDS))
    ensures ok ==> Compiled(job, Split(line, FIELDS))
  {
    job := Job(Masks(0, 0, 0, 0, 0), false, false, "", "");
    var split, fields, cmd := SplitLine(line, FIELDS);
    if !split { return false, job; }
    FieldsNulFree(line, FIELDS);
    ghost var e := Split(line, FIELDS);
    assert forall k | 0 <= k < 5 :: fields[k] in e;
    assert e[0] == fields[0] && e[1] == fields[1] && e[2] == fields[2] && e[3] == fields[3] && e[4] == fields[4];
    var m0, m1, m2, m3, m4;
    ok, m0 := ParseField(fields[0], 0, 59);
    if !ok { return; }
    ok, m1 := ParseField(fields[1], 0, 23);
    if !ok { return; }
    ok, m2 := ParseField(fields[2], 1, 31);
    if !ok { return; }
    ok, m3 := ParseField(fields[3], 1, 12);
    if !ok { return; }
    ok, m4 := ParseField(fields[4], 0, 7);
    if !ok { return; }
    m4 := FoldSunday(m4, fields[4]);
    PiecesNonEmpty(fields[2]);
    PiecesNonEmpty(fields[4]);
    job := Job(Masks(m0, m1, m2, m3, m4), fields[2][0] == '*', fields[4][0] == '*',
               Clip(Joined(fields[0], fields[1], fields[2], fields[3], fields[4]), 48), Clip(cmd, 96));
  }

  /** Bit 7 also stands for Sunday. */
  method FoldSunday(mask: bv64, field: string) returns (m: bv64)
    requires Denotes(mask, field, 0, 7)
    ensures DenotesDays(m, field)
  {
    m := mask;
    if Bit(mask, 7) { m := WithBit(m, 0); }
    forall v | 0 <= v < 64 ensures Bit(m, v) <==> OnWeekday(field, v) {
      assert Bit(mask, v) <==> InField(field, 0, 7, v);
      assert Bit(mask, 7) <==> InField(field, 0, 7, 7);
      BitOfWithBit(mask, 0, v);
    }
  }

  lemma PiecesNonEmpty(field: string)
    ensures Pieces(field, ',') != [] ==> field != ""
  {
  }

  lemma PartsNulFree(gap: string, word: string, rest: string)
    requires NulFree(gap + (word + rest))
    ensures NulFree(word) && NulFree(rest)
  {
    assert forall c | c in word + rest :: c in gap + (word + rest);
  }

  lemma {:induction false} FieldsNulFree(s: string, n: nat)
    requires NulFree(s)
    ensures forall t | t in Split(s, n) :: NulFree(t)
    decreases n
  {
    if Split(s, n) != [] && n > 0 {
      var gap, word, rest := SplitParts(s, n - 1);
      PartsNulFree(gap, word, rest);
      FieldsNulFree(rest, n - 1);
    } else {
      var gap := SkipParts(s);
      PartsNulFree(gap, Skip(s), "");
      assert Skip(s) + "" == Skip(s);
    }
  }
}
