/** Names in DNS questions (sections 3.1 and 4.1.2 of RFC 1035): labels on the wire, dotted text, and the rule
    that a name is under a domain. */
module DnsName {
  import opened CScan
  import opened CText

  type Bytes = seq<byte>

  const HEADER: nat := 12

  // ---------- on the wire ----------

  predicate LabelOk(l: Bytes) { 0 < |l| <= 63 }

  ghost predicate LabelsOk(labels: seq<Bytes>) { forall k | 0 <= k < |labels| :: LabelOk(labels[k]) }

  function Wire(labels: seq<Bytes>): Bytes
    requires forall k | 0 <= k < |labels| :: LabelOk(labels[k])
  {
    if labels == [] then [0]
    else
      assert LabelOk(labels[0]);
      [|labels[0]| as byte] + labels[0] + Wire(labels[1..])
  }

  /** Whether a name starts here, with room for the byte after each label. */
  predicate NameOk(b: Bytes)
    decreases |b|
  {
    b != [] && (b[0] == 0 || (b[0] <= 63 && b[0] as int + 1 < |b| && NameOk(b[b[0] as int + 1..])))
  }

  function NameLabels(b: Bytes): (labels: seq<Bytes>)
    requires NameOk(b)
    ensures forall k | 0 <= k < |labels| :: LabelOk(labels[k])
    decreases |b|
  {
    if b[0] == 0 then [] else [b[1..b[0] as int + 1]] + NameLabels(b[b[0] as int + 1..])
  }

  function NameSize(b: Bytes): (n: nat)
    requires NameOk(b)
    ensures n <= |b|
    decreases |b|
  {
    if b[0] == 0 then 1 else b[0] as int + 1 + NameSize(b[b[0] as int + 1..])
  }

  /** A written name is read back, and what follows it does not matter. */
  lemma {:induction false} NameOfWire(labels: seq<Bytes>, rest: Bytes)
    requires LabelsOk(labels)
    ensures var b := Wire(labels) + rest;
            NameOk(b) && NameLabels(b) == labels && NameSize(b) == |Wire(labels)|
  {
    if labels != [] {
      NameOfWire(labels[1..], rest);
      WireStep(labels[0], Wire(labels[1..]) + rest);
      assert Wire(labels) + rest == [|labels[0]| as byte] + labels[0] + (Wire(labels[1..]) + rest);
    }
  }

  lemma WireStep(l: Bytes, more: Bytes)
    requires LabelOk(l) && NameOk(more)
    ensures var b := [|l| as byte] + l + more;
            NameOk(b) && NameLabels(b) == [l] + NameLabels(more) && NameSize(b) == 1 + |l| + NameSize(more)
  {
    var b := [|l| as byte] + l + more;
    assert b[1 + |l|..] == more && b[1..1 + |l|] == l && more != [];
  }

  /** Every name that is read was written that way. */
  lemma {:induction false} WireOfName(b: Bytes)
    requires NameOk(b)
    ensures b == Wire(NameLabels(b)) + b[NameSize(b)..]
    decreases |b|
  {
    if b[0] == 0 {
      assert b == [b[0]] + b[1..];
    } else {
      var n := b[0] as int + 1;
      var l, more := b[1..n], b[n..];
      WireOfName(more);
      assert NameLabels(b)[1..] == NameLabels(more) && NameLabels(b)[0] == l;
      WireLonger(b, l, more, Wire(NameLabels(more)), NameSize(more));
    }
  }

  lemma WireLonger(b: Bytes, l: Bytes, more: Bytes, wire: Bytes, n: nat)
    requires b != [] && |l| == b[0] as int <= |b| - 1 && l == b[1..|l| + 1] && more == b[|l| + 1..]
    requires n <= |more| && more == wire + more[n..]
    ensures b == [b[0]] + l + wire + b[|l| + 1 + n..]
  {
    assert b[|l| + 1 + n..] == more[n..];
    assert b == [b[0]] + l + more;
  }

  // ---------- as text ----------

  function Text(l: Bytes): string { if l == [] then "" else [l[0] as char] + Text(l[1..]) }

  function Texts(labels: seq<Bytes>): (t: seq<string>)
    ensures |t| == |labels|
  {
    if labels == [] then [] else [Text(labels[0])] + Texts(labels[1..])
  }

  function Join(t: seq<string>): string {
    if t == [] then "" else if |t| == 1 then t[0] else t[0] + "." + Join(t[1..])
  }

  ghost predicate DotFree(t: seq<string>) { forall k | 0 <= k < |t| :: '.' !in t[k] }

  /** ASCII lower case, as `strcasecmp` compares. */
  function Lower(c: char): char { if 'A' <= c <= 'Z' then c - 'A' + 'a' else c }

  function LowerAll(s: string): (r: string)
    ensures |r| == |s| && forall i | 0 <= i < |s| :: r[i] == Lower(s[i])
  {
    if s == "" then "" else [Lower(s[0])] + LowerAll(s[1..])
  }

  function LowerTexts(t: seq<string>): (r: seq<string>)
    ensures |r| == |t| && forall k | 0 <= k < |t| :: r[k] == LowerAll(t[k])
  {
    if t == [] then [] else [LowerAll(t[0])] + LowerTexts(t[1..])
  }

  /** The end of the name, if it starts the name or follows a dot, is the rule's domain in any case. */
  predicate SuffixMatch(q: string, r: string) {
    && 0 < |r| <= |q|
    && LowerAll(q[|q| - |r|..]) == LowerAll(r)
    && (|q| == |r| || q[|q| - |r| - 1] == '.')
  }

  lemma LowerConcat(a: string, b: string)
    ensures LowerAll(a + b) == LowerAll(a) + LowerAll(b)
  {
  }

  lemma {:induction false} LowerJoin(t: seq<string>)
    ensures LowerAll(Join(t)) == Join(LowerTexts(t))
  {
    if |t| > 1 {
      LowerJoin(t[1..]);
      LowerConcat(t[0] + ".", Join(t[1..]));
      LowerConcat(t[0], ".");
      assert LowerAll(".") == ".";
      assert LowerTexts(t)[1..] == LowerTexts(t[1..]);
    }
  }

  /** Dot-free labels can be read off their join. */
  lemma {:induction false} JoinInjective(a: seq<string>, b: seq<string>)
    requires a != [] && b != [] && DotFree(a) && DotFree(b) && Join(a) == Join(b)
    ensures a == b
  {
    JoinHead(a);
    JoinHead(b);
    if |a| > 1 {
      JoinInjective(a[1..], b[1..]);
      assert a == [a[0]] + a[1..] && b == [b[0]] + b[1..];
    }
  }

  lemma JoinHead(t: seq<string>)
    requires t != [] && DotFree(t)
    ensures Until(Join(t), '.') == |t[0]| && Join(t)[..|t[0]|] == t[0]
    ensures |t| > 1 <==> |t[0]| < |Join(t)|
    ensures |t| > 1 ==> Join(t)[|t[0]| + 1..] == Join(t[1..])
  {
    if |t| == 1 {
      UntilIs(t[0], '.', |t[0]|);
      assert t[0][..|t[0]|] == t[0];
    } else {
      UntilConcat(t[0], '.', Join(t[1..]));
      assert Join(t) == t[0] + ['.'] + Join(t[1..]);
    }
  }

  /** A place in the joined text that starts it or follows a dot is where some label starts. */
  lemma {:induction false} LabelStart(t: seq<string>, p: nat) returns (k: nat)
    requires t != [] && DotFree(t) && p <= |Join(t)|
    requires p == 0 || Join(t)[p - 1] == '.'
    ensures k < |t| && Join(t)[p..] == Join(t[k..])
    decreases |t|
  {
    JoinHead(t);
    if p == 0 {
      k := 0;
      assert t[0..] == t;
    } else {
      var n := |t[0]|;
      forall i | 0 <= i < n ensures Join(t)[i] != '.' { assert Join(t)[i] == Join(t)[..n][i]; }
      var j := LabelStart(t[1..], p - n - 1);
      k := j + 1;
      assert Join(t)[p..] == Join(t)[n + 1..][p - n - 1..];
      assert t[1..][j..] == t[k..];
    }
  }

  /** Where the k-th label starts. */
  lemma {:induction false} LabelPlace(t: seq<string>, k: nat)
    requires k < |t| && DotFree(t)
    ensures var p := |Join(t)| - |Join(t[k..])|;
      0 <= p && Join(t)[p..] == Join(t[k..]) && (p > 0 ==> Join(t)[p - 1] == '.') && (k > 0 ==> p > 0)
  {
    if k == 0 {
      assert t[0..] == t;
    } else {
      LabelPlace(t[1..], k - 1);
      assert t[1..][k - 1..] == t[k..];
      var n, tail := |t[0]|, Join(t[1..]);
      assert Join(t) == t[0] + "." + tail;
      var p := |Join(t)| - |Join(t[k..])|;
      assert Join(t)[p..] == tail[p - n - 1..];
      assert p > n + 1 ==> Join(t)[p - 1] == tail[p - n - 2];
    }
  }

  lemma MatchGivesLabels(q: seq<string>, r: seq<string>) returns (k: nat)
    requires q != [] && r != [] && DotFree(q) && DotFree(r) && SuffixMatch(Join(q), Join(r))
    ensures k < |q| && LowerTexts(q[k..]) == LowerTexts(r)
  {
    k := LabelStart(q, |Join(q)| - |Join(r)|);
    SameJoins(q[k..], r);
  }

  lemma SameJoins(a: seq<string>, b: seq<string>)
    requires a != [] && b != [] && DotFree(a) && DotFree(b)
    ensures LowerAll(Join(a)) == LowerAll(Join(b)) <==> LowerTexts(a) == LowerTexts(b)
  {
    LowerJoin(a);
    LowerJoin(b);
    LowerDotFree(a);
    LowerDotFree(b);
    if Join(LowerTexts(a)) == Join(LowerTexts(b)) { JoinInjective(LowerTexts(a), LowerTexts(b)); }
  }

  lemma LabelsGiveMatch(q: seq<string>, r: seq<string>, k: nat)
    requires k < |q| && r != [] && DotFree(q) && DotFree(r) && Join(r) != ""
    requires LowerTexts(q[k..]) == LowerTexts(r)
    ensures SuffixMatch(Join(q), Join(r))
  {
    SameJoins(q[k..], r);
    LabelPlace(q, k);
    assert |LowerAll(Join(q[k..]))| == |LowerAll(Join(r))|;
  }

  /** A rule matches a name exactly if its labels, in any case, are the name's last labels. */
  lemma SuffixMatchMeans(q: seq<string>, r: seq<string>)
    requires q != [] && r != [] && DotFree(q) && DotFree(r) && Join(r) != ""
    ensures SuffixMatch(Join(q), Join(r)) <==> exists k :: 0 <= k < |q| && LowerTexts(q[k..]) == LowerTexts(r)
  {
    if SuffixMatch(Join(q), Join(r)) { var k := MatchGivesLabels(q, r); }
    if k :| 0 <= k < |q| && LowerTexts(q[k..]) == LowerTexts(r) { LabelsGiveMatch(q, r, k); }
  }

  lemma LowerDotFree(t: seq<string>)
    requires DotFree(t)
    ensures DotFree(LowerTexts(t))
  {
    forall k | 0 <= k < |t| ensures '.' !in LowerAll(t[k]) {
      forall i | 0 <= i < |t[k]| ensures LowerAll(t[k])[i] != '.' { assert t[k][i] in t[k]; }
    }
  }

  // ---------- any text ----------

  /** The labels of a dotted text. */
  function Parts(s: string): (t: seq<string>)
    ensures t != []
    decreases |s|
  {
    var n := Until(s, '.');
    if n == |s| then [s] else [s[..n]] + Parts(s[n + 1..])
  }

  lemma {:induction false} PartsJoin(s: string)
    ensures DotFree(Parts(s)) && Join(Parts(s)) == s
    decreases |s|
  {
    var n := Until(s, '.');
    if n < |s| {
      PartsJoin(s[n + 1..]);
      assert Parts(s)[1..] == Parts(s[n + 1..]);
      assert s == s[..n] + "." + s[n + 1..];
    } else {
      assert s[..n] == s;
    }
  }

  lemma PartsOfJoin(t: seq<string>)
    requires t != [] && DotFree(t)
    ensures Parts(Join(t)) == t
  {
    PartsJoin(Join(t));
    JoinInjective(Parts(Join(t)), t);
  }

  /** The labels of r, in any case, are the last labels of q. */
  ghost predicate Under(q: seq<string>, r: seq<string>) {
    exists k :: 0 <= k < |q| && LowerTexts(q[k..]) == LowerTexts(r)
  }

  /** Any rule with a domain matches a text exactly if its labels are the text's last labels. */
  lemma SuffixMatchOfTexts(q: string, r: string)
    ensures SuffixMatch(q, r) <==> r != "" && Under(Parts(q), Parts(r))
  {
    PartsJoin(q);
    PartsJoin(r);
    if r != "" { SuffixMatchMeans(Parts(q), Parts(r)); }
  }
}
