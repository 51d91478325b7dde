/** The last lines of a stream, kept in a ring of fixed size. */
module ShellTail {
  import opened CText
  import opened Division

  const SLOT: nat := 160

  /** How many lines are kept. */
  function Wanted(n: int): nat { if n < 1 then 1 else if n > 50 then 50 else n }

  function Stored(lines: seq<string>): (r: seq<string>)
    ensures |r| == |lines| && forall i | 0 <= i < |lines| :: r[i] == Clip(lines[i], SLOT)
  {
    seq(|lines|, i requires 0 <= i < |lines| => Clip(lines[i], SLOT))
  }

  /** The last n, in order. */
  function LastOf(s: seq<string>, n: nat): seq<string> { if |s| <= n then s else s[|s| - n..] }

  /** Within a window of n, places in the ring are not shared. */
  lemma RingSlotsDiffer(a: nat, b: nat, n: nat)
    requires 0 < n && a < b < a + n
    ensures a % n != b % n
  {
    var q, p := a / n, b / n;
    MulDist(n, q, p - q);
    if p > q {
      MulAtLeast(n, p - q);
    } else {
      MulDist(n, p, q - p);
      MulNonNeg(n, q - p);
    }
  }

  /** Every line overwrites the oldest; then the ring is read from the oldest line on. */
  method Tail(lines: seq<string>, asked: int) returns (out: seq<string>)
    ensures out == LastOf(Stored(lines), Wanted(asked))
  {
    var n := Wanted(asked);
    var ring := new string[n](_ => "");
    ghost var all := Stored(lines);
    var total := 0;
    while total < |lines|
      invariant total <= |lines|
      invariant forall k | 0 <= k < total && total - n <= k :: ring[k % n] == all[k]
    {
      forall k | 0 <= k < total && total + 1 - n <= k ensures k % n != total % n { RingSlotsDiffer(k, total, n); }
      ring[total % n] := Clip(lines[total], SLOT);
      total := total + 1;
    }
    var start := if total > n then total - n else 0;
    out := [];
    for k := start to total
      invariant out == all[start..k]
    {
      out := out + [ring[k % n]];
    }
    assert all[start..total] == LastOf(all, n);
  }
}
