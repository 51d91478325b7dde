/** A terminal as far as the line editor drives it: printable bytes, BEL, BS, CR, LF and
    the control sequences CUB, CUF, CUP, ED and EL (ECMA-48 sections 8.3.18, 8.3.20,
    8.3.21, 8.3.39 and 8.3.41). One byte is one column and lines never wrap. */
module Terminal {
  import opened CText

  const BEL: char := '\U{7}'
  const BS: char := '\U{8}'
  const ESC: char := '\U{1B}'

  /** Where the terminal is inside a control sequence; `arg` is the number read so far. */
  datatype Parse = Ground | Escape | Csi(arg: nat)

  /** The rows above, at and below the cursor; cells right of a row's text are blank. */
  datatype Screen = Screen(above: seq<string>, row: string, below: seq<string>, col: nat, parse: Parse)

  predicate Printable(c: char) { 32 <= c as int && c as int != 127 }

  ghost predicate AllPrintable(s: string) {
    forall i | 0 <= i < |s| :: Printable(s[i])
  }

  function Cell(row: string, i: nat): char {
    if i < |row| then row[i] else ' '
  }

  ghost predicate SameCells(a: string, b: string) {
    forall i: nat :: Cell(a, i) == Cell(b, i)
  }

  function PutCell(row: string, i: nat, c: char): (r: string)
    ensures forall j: nat :: Cell(r, j) == if j == i then c else Cell(row, j)
  {
    if i < |row| then row[i := c] else row + seq(i - |row|, _ => ' ') + [c]
  }

  function Step(s: Screen, c: char): Screen {
    match s.parse
    case Ground =>
      if c == '\r' then s.(col := 0)
      else if c == '\n' then
        var above := s.above + [s.row];
        if s.below == [] then s.(above := above, row := "")
        else s.(above := above, row := s.below[0], below := s.below[1..])
      else if c == BS then s.(col := if s.col > 0 then s.col - 1 else 0)
      else if c == ESC then s.(parse := Escape)
      else if Printable(c) then s.(row := PutCell(s.row, s.col, c), col := s.col + 1)
      else s
    case Escape =>
      s.(parse := if c == '[' then Csi(0) else Ground)
    case Csi(arg) =>
      if '0' <= c <= '9' then s.(parse := Csi(arg * 10 + (c - '0') as nat))
      else Control(s.(parse := Ground), arg, c)
  }

  /** Control functions with the parameters the editor uses; others have no effect. */
  function Control(s: Screen, arg: nat, final: char): Screen {
    var n := if arg == 0 then 1 else arg;
    if final == 'D' then s.(col := if n <= s.col then s.col - n else 0)
    else if final == 'C' then s.(col := s.col + n)
    else if final == 'K' && arg == 0 then
      s.(row := if s.col <= |s.row| then s.row[..s.col] else s.row)
    else if final == 'J' && arg == 2 then
      s.(above := Blanked(s.above), row := "", below := Blanked(s.below))
    else if final == 'H' && n == 1 then
      var rows := s.above + [s.row] + s.below;
      s.(above := [], row := rows[0], below := rows[1..], col := 0)
    else s
  }

  function Blanked(rows: seq<string>): seq<string> { seq(|rows|, _ => "") }

  function Run(s: Screen, out: string): Screen
    decreases |out|
  {
    if out == "" then s else Run(Step(s, out[0]), out[1..])
  }

  lemma {:induction false} RunConcat(s: Screen, a: string, b: string)
    ensures Run(s, a + b) == Run(Run(s, a), b)
    decreases |a|
  {
    if a == "" {
      assert a + b == b;
    } else {
      assert (a + b)[1..] == a[1..] + b;
      RunConcat(Step(s, a[0]), a[1..], b);
    }
  }

  /** The cursor row shows exactly `text` (blanks beyond), the cursor is in column `col`, and no control sequence is
      pending. */
  ghost predicate Shows(s: Screen, text: string, col: nat) {
    s.parse == Ground && s.col == col && SameCells(s.row, text)
  }

  /** The rows below the cursor are blank. */
  ghost predicate CleanBelow(s: Screen) {
    forall i | 0 <= i < |s.below| :: SameCells(s.below[i], "")
  }

  lemma {:induction false} RunText(s: Screen, text: string)
    requires s.parse == Ground && AllPrintable(text)
    ensures var t := Run(s, text);
      && t.parse == Ground && t.col == s.col + |text| && t.below == s.below
      && forall i: nat :: Cell(t.row, i) == if s.col <= i < s.col + |text| then text[i - s.col] else Cell(s.row, i)
    decreases |text|
  {
    if text != "" {
      RunText(Step(s, text[0]), text[1..]);
    }
  }

  lemma {:induction false} RunDigits(s: Screen, digits: string, arg: nat)
    requires s.parse == Csi(arg)
    requires forall i | 0 <= i < |digits| :: '0' <= digits[i] <= '9'
    ensures Run(s, digits) == s.(parse := Csi(ReadDecimal(arg, digits)))
    decreases |digits|
  {
    if digits != "" {
      RunDigits(Step(s, digits[0]), digits[1..], arg * 10 + (digits[0] - '0') as nat);
    }
  }

  /** CUB with a printed count moves the cursor left by that count. */
  lemma RunCursorBack(s: Screen, n: nat)
    requires s.parse == Ground && 0 < n <= s.col
    ensures Run(s, [ESC, '['] + Decimal(n) + "D") == s.(col := s.col - n)
  {
    var csi := s.(parse := Csi(0));
    calc {
      Run(s, [ESC, '['] + Decimal(n) + "D");
      { RunConcat(s, [ESC, '['] + Decimal(n), "D"); RunConcat(s, [ESC, '['], Decimal(n)); }
      Run(Run(Run(s, [ESC, '[']), Decimal(n)), "D");
      { assert Run(s, [ESC, '[']) == csi by { RunTwo(s, ESC, '['); } }
      Run(Run(csi, Decimal(n)), "D");
      { RunDigits(csi, Decimal(n), 0); ReadDecimalOfDecimal(n); }
      Run(s.(parse := Csi(n)), "D");
      { RunOne(s.(parse := Csi(n)), 'D'); }
      s.(col := s.col - n);
    }
  }

  lemma RunOne(s: Screen, c: char)
    ensures Run(s, [c]) == Step(s, c)
  {
    assert [c][1..] == "";
  }

  lemma RunTwo(s: Screen, c: char, d: char)
    ensures Run(s, [c, d]) == Step(Step(s, c), d)
  {
    assert [c, d][1..] == [d];
    RunOne(Step(s, c), d);
  }

  lemma RunThree(s: Screen, c: char, d: char, e: char)
    ensures Run(s, [c, d, e]) == Step(Step(Step(s, c), d), e)
  {
    assert [c, d, e][1..] == [d, e];
    RunTwo(Step(s, c), d, e);
  }
}
