/** What a crontab line says: the grammar of its fields, the days and times they denote, and the job they are
    compiled to. */
module CronText {
  import opened CScan
  import opened CText
  import opened Options

  /** A line has five fields and a command. */
  const FIELDS: nat := 5

  const FIELD_MAX: nat := 40

  // ---------- items ----------

  predicate Number(s: string) { 1 <= |s| <= 3 && forall i | 0 <= i < |s| :: '0' <= s[i] <= '9' }

  function Val(s: string): nat
    requires Number(s)
  {
    ReadDecimal(0, s)
  }

  datatype Base = Star | One(n: string) | Span(first: string, last: string)

  datatype Item = Item(base: Base, step: Option<string>)

  function PrintBase(b: Base): string {
    match b
    case Star => "*"
    case One(n) => n
    case Span(first, last) => first + ['-'] + last
  }

  function Print(i: Item): string {
    match i.step
    case None => PrintBase(i.base)
    case Some(n) => PrintBase(i.base) + ['/'] + n
  }

  predicate BaseSpelled(b: Base) {
    match b
    case Star => true
    case One(n) => Number(n)
    case Span(first, last) => Number(first) && Number(last)
  }

  predicate Spelled(i: Item) {
    BaseSpelled(i.base) && (i.step.Some? ==> Number(i.step.value) && Val(i.step.value) > 0)
  }

  function BaseFirst(b: Base, lo: nat): nat
    requires BaseSpelled(b)
  {
    match b
    case Star => lo
    case One(n) => Val(n)
    case Span(first, _) => Val(first)
  }

  /** A single number with a step runs to the end of the field's range. */
  function BaseLast(b: Base, stepped: bool, hi: nat): nat
    requires BaseSpelled(b)
  {
    match b
    case Star => hi
    case One(n) => if stepped then hi else Val(n)
    case Span(_, last) => Val(last)
  }

  function First(i: Item, lo: nat): nat
    requires Spelled(i)
  {
    BaseFirst(i.base, lo)
  }

  function Last(i: Item, hi: nat): nat
    requires Spelled(i)
  {
    BaseLast(i.base, i.step.Some?, hi)
  }

  function Step(i: Item): (n: nat)
    requires Spelled(i)
    ensures n > 0
  {
    if i.step.Some? then Val(i.step.value) else 1
  }

  predicate ItemOk(i: Item, lo: nat, hi: nat) {
    Spelled(i) && lo <= First(i, lo) <= Last(i, hi) <= hi
  }

  predicate Has(i: Item, lo: nat, hi: nat, v: nat) {
    Spelled(i) && First(i, lo) <= v <= Last(i, hi) && (v - First(i, lo)) % Step(i) == 0
  }

  function ReadBase(s: string): Option<Base> {
    var n := Until(s, '-');
    if s == "*" then Some(Star)
    else if n == |s| then if Number(s) then Some(One(s)) else None
    else if Number(s[..n]) && Number(s[n + 1..]) then Some(Span(s[..n], s[n + 1..]))
    else None
  }

  function ReadItem(s: string): Option<Item> {
    var n := Until(s, '/');
    if n < |s| && !(Number(s[n + 1..]) && Val(s[n + 1..]) > 0) then None
    else
      var base := ReadBase(s[..n]);
      if base.None? then None else Some(Item(base.value, if n < |s| then Some(s[n + 1..]) else None))
  }

  lemma NumberHasNo(s: string, c: char)
    requires Number(s) && !('0' <= c <= '9')
    ensures c !in s && s != "*"
  {
    assert '0' <= s[0];
  }

  lemma ReadBaseIff(s: string, b: Base)
    ensures ReadBase(s) == Some(b) <==> BaseSpelled(b) && PrintBase(b) == s
  {
    var n := Until(s, '-');
    if ReadBase(s) == Some(b) {
      if n < |s| { assert s == s[..n] + ['-'] + s[n + 1..]; }
    }
    if BaseSpelled(b) && PrintBase(b) == s {
      match b
      case Star =>
      case One(k) =>
        NumberHasNo(k, '-');
        UntilIs(s, '-', |s|);
      case Span(first, last) =>
        NumberHasNo(first, '-');
        UntilConcat(first, '-', last);
    }
  }

  lemma BaseHasNoSlash(b: Base)
    requires BaseSpelled(b)
    ensures '/' !in PrintBase(b)
  {
    match b
    case Star =>
    case One(k) => NumberHasNo(k, '/');
    case Span(first, last) => NumberHasNo(first, '/'); NumberHasNo(last, '/');
  }

  /** The reader accepts exactly the printed items. */
  lemma ReadItemIff(s: string, i: Item)
    ensures ReadItem(s) == Some(i) <==> Spelled(i) && Print(i) == s
  {
    var n := Until(s, '/');
    ReadBaseIff(s[..n], i.base);
    assert s[..|s|] == s;
    if ReadItem(s) == Some(i) {
      if n < |s| { assert s == s[..n] + ['/'] + s[n + 1..]; } else { assert s[..n] == s; }
    }
    if Spelled(i) && Print(i) == s {
      BaseHasNoSlash(i.base);
      if i.step.Some? {
        UntilConcat(PrintBase(i.base), '/', i.step.value);
      } else {
        UntilIs(s, '/', |s|);
      }
    }
  }

  // ---------- fields ----------

  /** The nonempty texts between the separators. */
  function Pieces(s: string, c: char): (p: seq<string>)
    ensures forall t | t in p :: t != ""
    decreases |s|
  {
    var n := Until(s, c);
    if s == "" then []
    else if n == 0 then Pieces(s[1..], c)
    else [s[..n]] + Pieces(s[n..], c)
  }

  predicate GoodItem(s: string, lo: nat, hi: nat) { ReadItem(s).Some? && ItemOk(ReadItem(s).value, lo, hi) }

  predicate ItemHas(s: string, lo: nat, hi: nat, v: nat) {
    GoodItem(s, lo, hi) && Has(ReadItem(s).value, lo, hi, v)
  }

  ghost predicate AllGood(p: seq<string>, lo: nat, hi: nat) { forall k | 0 <= k < |p| :: GoodItem(p[k], lo, hi) }

  ghost predicate AnyHas(p: seq<string>, lo: nat, hi: nat, v: nat) {
    exists k :: 0 <= k < |p| && ItemHas(p[k], lo, hi, v)
  }

  ghost predicate FieldOk(field: string, lo: nat, hi: nat) {
    |field| < FIELD_MAX && Pieces(field, ',') != [] && AllGood(Pieces(field, ','), lo, hi)
  }

  ghost predicate InField(field: string, lo: nat, hi: nat, v: nat) { AnyHas(Pieces(field, ','), lo, hi, v) }

  function PrintField(items: seq<Item>): string {
    if items == [] then ""
    else if |items| == 1 then Print(items[0])
    else Print(items[0]) + [','] + PrintField(items[1..])
  }

  lemma PrintIsPiece(i: Item)
    requires Spelled(i)
    ensures ',' !in Print(i) && Print(i) != ""
  {
    if i.step.Some? { NumberHasNo(i.step.value, ','); }
    match i.base
    case Star =>
    case One(k) => NumberHasNo(k, ',');
    case Span(first, last) => NumberHasNo(first, ','); NumberHasNo(last, ',');
  }

  lemma PiecesCons(a: string, c: char, rest: string)
    requires c !in a && a != ""
    ensures Pieces(a, c) == [a] && Pieces(a + [c] + rest, c) == [a] + Pieces(rest, c)
  {
    UntilIs(a, c, |a|);
    assert a[..|a|] == a && a[|a|..] == "";
    UntilConcat(a, c, rest);
    var s := a + [c] + rest;
    assert s[|a|..][1..] == rest && s[|a|..][0] == c;
  }

  lemma {:induction false} PiecesOfPrinted(items: seq<Item>)
    requires forall k | 0 <= k < |items| :: Spelled(items[k])
    ensures var p := Pieces(PrintField(items), ',');
            |p| == |items| && forall k | 0 <= k < |p| :: p[k] == Print(items[k])
  {
    if items != [] {
      PrintIsPiece(items[0]);
      PiecesCons(Print(items[0]), ',', PrintField(items[1..]));
      PiecesOfPrinted(items[1..]);
    }
  }

  /** A printed list of items in range is accepted if it is short enough, and denotes the union of the items. */
  lemma PrintedFieldMeans(items: seq<Item>, lo: nat, hi: nat, v: nat)
    requires items != [] && forall k | 0 <= k < |items| :: ItemOk(items[k], lo, hi)
    ensures FieldOk(PrintField(items), lo, hi) <==> |PrintField(items)| < FIELD_MAX
    ensures InField(PrintField(items), lo, hi, v) <==> exists k :: 0 <= k < |items| && Has(items[k], lo, hi, v)
  {
    PiecesOfPrinted(items);
    var p := Pieces(PrintField(items), ',');
    forall k | 0 <= k < |p| ensures GoodItem(p[k], lo, hi) && ReadItem(p[k]).value == items[k] {
      ReadItemIff(p[k], items[k]);
    }
    if k :| 0 <= k < |items| && Has(items[k], lo, hi, v) { assert ItemHas(p[k], lo, hi, v); }
  }

  // ---------- lines ----------

  predicate Blanks(s: string) { forall i | 0 <= i < |s| :: Blank(s[i]) }

  predicate Word(s: string) { s != "" && forall i | 0 <= i < |s| :: !Blank(s[i]) }

  function TakeWord(s: string): string { if s == "" || Blank(s[0]) then "" else [s[0]] + TakeWord(s[1..]) }

  function DropWord(s: string): string { if s == "" || Blank(s[0]) then s else DropWord(s[1..]) }

  predicate FieldSized(word: string) { 0 < |word| < FIELD_MAX }

  /** What is taken apart, with more fields before it. */
  function Then(fields: seq<string>, e: seq<string>): seq<string> { if e == [] then [] else fields + e }

  /** Takes a line apart: n schedule fields, then the command after them; nothing if that cannot be done. */
  function Split(s: string, n: nat): seq<string>
    decreases n, s
  {
    var t := Skip(s);
    if n == 0 then if t == "" then [] else [t]
    else if FieldSized(TakeWord(t)) then Then([TakeWord(t)], Split(DropWord(t), n - 1))
    else []
  }

  function Render(gaps: seq<string>, fields: seq<string>, cmd: string): string
    requires |gaps| == |fields| + 1
  {
    if fields == [] then gaps[0] + cmd else gaps[0] + (fields[0] + Render(gaps[1..], fields[1..], cmd))
  }

  ghost predicate LaidOut(gaps: seq<string>, fields: seq<string>, cmd: string) {
    && |gaps| == |fields| + 1
    && (forall k | 0 <= k < |gaps| :: Blanks(gaps[k]) && (k > 0 ==> gaps[k] != ""))
    && (forall k | 0 <= k < |fields| :: Word(fields[k]) && |fields[k]| < FIELD_MAX)
    && cmd != "" && !Blank(cmd[0])
  }

  predicate StartsWord(s: string) { s != "" && !Blank(s[0]) }

  predicate EndsWord(s: string) { s == "" || Blank(s[0]) }

  lemma {:induction false} SkipIs(gap: string, rest: string)
    requires Blanks(gap) && StartsWord(rest)
    ensures Skip(gap + rest) == rest
  {
    if gap == "" {
      assert gap + rest == rest;
    } else {
      assert (gap + rest)[1..] == gap[1..] + rest;
      SkipIs(gap[1..], rest);
    }
  }

  lemma {:induction false} SkipParts(s: string) returns (gap: string)
    ensures Blanks(gap) && s == gap + Skip(s) && (Skip(s) != "" ==> StartsWord(Skip(s)))
  {
    if s != "" && Blank(s[0]) {
      var g := SkipParts(s[1..]);
      gap := [s[0]] + g;
      assert s == [s[0]] + s[1..];
    } else {
      gap := "";
    }
  }

  lemma {:induction false} WordIs(word: string, rest: string)
    requires (forall i | 0 <= i < |word| :: !Blank(word[i])) && EndsWord(rest)
    ensures TakeWord(word + rest) == word && DropWord(word + rest) == rest
  {
    if word == "" {
      assert word + rest == rest;
    } else {
      assert (word + rest)[1..] == word[1..] + rest;
      WordIs(word[1..], rest);
    }
  }

  lemma {:induction false} WordParts(t: string)
    ensures t == TakeWord(t) + DropWord(t) && EndsWord(DropWord(t))
    ensures TakeWord(t) != "" ==> Word(TakeWord(t))
  {
    if t != "" && !Blank(t[0]) {
      WordParts(t[1..]);
      assert t == [t[0]] + t[1..];
    }
  }

  lemma RenderStart(gaps: seq<string>, fields: seq<string>, cmd: string)
    requires LaidOut(gaps, fields, cmd)
    ensures Render(gaps, fields, cmd) != "" && (gaps[0] != "" <==> EndsWord(Render(gaps, fields, cmd)))
  {
    var r := Render(gaps, fields, cmd);
    assert r[0] == if gaps[0] != "" then gaps[0][0] else if fields == [] then cmd[0] else fields[0][0];
  }

  lemma SplitStep(gap: string, word: string, rest: string, n: nat)
    requires Blanks(gap) && Word(word) && |word| < FIELD_MAX && EndsWord(rest)
    ensures Split(gap + (word + rest), n + 1) == Then([word], Split(rest, n))
  {
    assert (word + rest)[0] == word[0];
    SkipIs(gap, word + rest);
    WordIs(word, rest);
  }

  /** However the fields are spaced, the line is taken apart into them. */
  lemma {:induction false} SplitRender(gaps: seq<string>, fields: seq<string>, cmd: string)
    requires LaidOut(gaps, fields, cmd)
    ensures Split(Render(gaps, fields, cmd), |fields|) == fields + [cmd]
    decreases |fields|
  {
    if fields == [] {
      SkipIs(gaps[0], cmd);
    } else {
      assert LaidOut(gaps[1..], fields[1..], cmd);
      RenderStart(gaps[1..], fields[1..], cmd);
      SplitRender(gaps[1..], fields[1..], cmd);
      SplitStep(gaps[0], fields[0], Render(gaps[1..], fields[1..], cmd), |fields| - 1);
      assert [fields[0]] + (fields[1..] + [cmd]) == fields + [cmd];
    }
  }

  lemma SplitParts(s: string, n: nat) returns (gap: string, word: string, rest: string)
    requires Split(s, n + 1) != []
    ensures s == gap + (word + rest) && Blanks(gap) && Word(word) && |word| < FIELD_MAX && EndsWord(rest)
    ensures Split(rest, n) != [] && Split(s, n + 1) == [word] + Split(rest, n)
  {
    var t := Skip(s);
    gap := SkipParts(s);
    WordParts(t);
    word, rest := TakeWord(t), DropWord(t);
  }

  /** Every line that is taken apart was spaced that way. */
  lemma {:induction false} SplitSound(s: string, n: nat) returns (gaps: seq<string>, fields: seq<string>, cmd: string)
    requires Split(s, n) != []
    ensures Split(s, n) == fields + [cmd] && |fields| == n
    ensures LaidOut(gaps, fields, cmd) && s == Render(gaps, fields, cmd)
    decreases n
  {
    if n == 0 {
      var gap := SkipParts(s);
      gaps, fields, cmd := [gap], [], Skip(s);
    } else {
      var gap, word, rest := SplitParts(s, n - 1);
      var g, f, c := SplitSound(rest, n - 1);
      RenderStart(g, f, c);
      gaps := LayField(gap, word, g, f, c);
      fields, cmd := [word] + f, c;
      assert [word] + (f + [c]) == fields + [c];
    }
  }

  lemma LayField(gap: string, word: string, gaps: seq<string>, fields: seq<string>, cmd: string)
      returns (all: seq<string>)
    requires LaidOut(gaps, fields, cmd) && gaps[0] != "" && Blanks(gap) && Word(word) && |word| < FIELD_MAX
    ensures LaidOut(all, [word] + fields, cmd)
    ensures Render(all, [word] + fields, cmd) == gap + (word + Render(gaps, fields, cmd))
  {
    all := [gap] + gaps;
    assert all[1..] == gaps && ([word] + fields)[1..] == fields;
  }
}
