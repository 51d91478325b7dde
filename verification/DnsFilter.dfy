/** The hotspot's name filter as written: parsing a question into a text buffer, the rule table, and the
    refusal written into the request. */
module DnsFilter {
  import opened CScan
  import opened CText
  import opened DnsName

  /** A question that can be read: the name and four more bytes. */
  predicate QuestionOk(b: Bytes) {
    HEADER <= |b| && NameOk(b[HEADER..]) && HEADER + NameSize(b[HEADER..]) + 4 <= |b|
  }

  function QuestionEnd(b: Bytes): (n: nat)
    requires QuestionOk(b)
    ensures n <= |b|
  {
    HEADER + NameSize(b[HEADER..]) + 4
  }

  function QuestionName(b: Bytes): string
    requires QuestionOk(b)
  {
    Join(Texts(NameLabels(b[HEADER..])))
  }

  /** A well-formed question is read to its labels and its end, whatever follows. */
  lemma ReadQuestion(header: Bytes, labels: seq<Bytes>, typeClass: Bytes, rest: Bytes)
    requires |header| == HEADER && LabelsOk(labels) && |typeClass| == 4
    ensures var b := header + (Wire(labels) + (typeClass + rest));
      && QuestionOk(b) && QuestionName(b) == Join(Texts(labels))
      && QuestionEnd(b) == |header| + |Wire(labels)| + |typeClass|
  {
    var b := header + (Wire(labels) + (typeClass + rest));
    NameOfWire(labels, typeClass + rest);
    assert b[HEADER..] == Wire(labels) + (typeClass + rest);
  }

  // ---------- parsing ----------

  /** The output text: what has been put, cut to the room. */
  class NameBuffer {
    const out: array<char>
    var oi: nat
    ghost var full: string

    ghost predicate Valid()
      reads this, out
    {
      oi < out.Length && out[..oi] == Clip(full, out.Length)
    }

    constructor (outSize: nat)
      requires outSize > 0
      ensures Valid() && fresh(out) && out.Length == outSize && full == ""
    {
      out := new char[outSize](_ => NUL);
      oi, full := 0, "";
    }

    method Put(c: char)
      requires Valid()
      modifies this, out
      ensures Valid() && full == old(full) + [c]
    {
      full := full + [c];
      if oi + 1 < out.Length {
        out[oi] := c;
        oi := oi + 1;
        assert out[..oi] == old(out[..oi]) + [c];
      }
    }

    /** A dot between labels. */
    method Dot()
      requires Valid()
      modifies this, out
      ensures Valid() && full == Dotted(old(full))
    {
      if oi > 0 { Put('.'); } else { full := Dotted(full); }
    }

    /** One label, for as long as there is room. */
    method PutLabel(buf: array<byte>, pos: nat, n: nat, ghost lab: Bytes)
      requires Valid() && pos + n <= buf.Length && lab == buf[pos..pos + n]
      modifies this, out
      ensures Valid() && full == old(full) + Text(lab)
    {
      ghost var rest := lab;
      assert full + Text(rest) == old(full) + Text(lab);
      for i := 0 to n
        invariant Valid() && |rest| == n - i && (forall k | 0 <= k < n - i :: rest[k] == buf[pos + i + k])
        invariant full + Text(rest) == old(full) + Text(lab)
      {
        assert rest[0] == buf[pos + i + 0];
        TextStep(full, rest);
        Put(buf[pos + i] as char);
        rest := rest[1..];
      }
      assert full + "" == full;
    }
  }

  lemma TextStep(full: string, rest: Bytes)
    requires rest != []
    ensures full + Text(rest) == full + [rest[0] as char] + Text(rest[1..])
  {
  }

  function Dotted(full: string): string { if full == "" then "" else full + "." }

  /** The text after more labels. */
  function Continued(full: string, t: seq<string>): string
    decreases |t|
  {
    if t == [] then full else Continued(Dotted(full) + t[0], t[1..])
  }

  lemma {:induction false} ContinuedIs(full: string, t: seq<string>)
    requires forall k | 0 <= k < |t| :: t[k] != ""
    ensures Continued(full, t) == if t == [] then full else Dotted(full) + Join(t)
    decreases |t|
  {
    if t != [] {
      var next := Dotted(full) + t[0];
      ContinuedIs(next, t[1..]);
      if |t| > 1 { assert next + "." + Join(t[1..]) == Dotted(full) + (t[0] + "." + Join(t[1..])); }
    }
  }

  lemma {:induction false} TextsNonEmpty(labels: seq<Bytes>)
    requires LabelsOk(labels)
    ensures forall k | 0 <= k < |labels| :: Texts(labels)[k] != ""
  {
    if labels != [] {
      assert LabelOk(labels[0]);
      TextsNonEmpty(labels[1..]);
    }
  }

  /** Where the loop stands: the rest of the message, and what reading all of it would give. */
  ghost predicate At(b: Bytes, pos: nat, rest: Bytes, full: string) {
    && HEADER <= pos && pos + |rest| == |b| && (forall k | 0 <= k < |rest| :: rest[k] == b[pos + k])
    && (NameOk(b[HEADER..]) <==> NameOk(rest))
    && (NameOk(rest) ==>
          && HEADER + NameSize(b[HEADER..]) == pos + NameSize(rest)
          && QuestionText(b) == Continued(full, Texts(NameLabels(rest))))
  }

  ghost function QuestionText(b: Bytes): string
    requires HEADER <= |b| && NameOk(b[HEADER..])
  {
    Join(Texts(NameLabels(b[HEADER..])))
  }

  lemma AtStart(b: Bytes)
    requires HEADER <= |b|
    ensures At(b, HEADER, b[HEADER..], "")
  {
    if NameOk(b[HEADER..]) { JoinIsContinued(NameLabels(b[HEADER..])); }
  }

  lemma JoinIsContinued(labels: seq<Bytes>)
    requires LabelsOk(labels)
    ensures Join(Texts(labels)) == Continued("", Texts(labels))
  {
    TextsNonEmpty(labels);
    ContinuedIs("", Texts(labels));
  }

  lemma AtNext(b: Bytes, pos: nat, rest: Bytes, full: string, n: nat)
    requires At(b, pos, rest, full) && rest != [] && rest[0] as int == n && 0 < n <= 63 && n + 1 < |rest|
    ensures At(b, pos + 1 + n, rest[n + 1..], Dotted(full) + Text(rest[1..n + 1]))
  {
    var more := rest[n + 1..];
    if NameOk(rest) {
      var labels := NameLabels(rest);
      assert labels[1..] == NameLabels(more) && labels[0] == rest[1..n + 1];
      assert Texts(labels)[1..] == Texts(NameLabels(more));
    }
  }

  method ParseQname(buf: array<byte>, len: nat, outSize: nat) returns (ok: bool, o: NameBuffer, end: nat)
    requires len <= buf.Length && outSize > 0
    ensures fresh(o) && fresh(o.out) && o.Valid() && o.out.Length == outSize
    ensures ok <==> QuestionOk(buf[..len])
    ensures ok ==> end == QuestionEnd(buf[..len]) && o.full == QuestionName(buf[..len]) && o.out[o.oi] == NUL
  {
    o := new NameBuffer(outSize);
    ok, end := false, 0;
    if len < HEADER { return; }
    ghost var b := buf[..len];
    var pos := HEADER;
    ghost var rest := b[HEADER..];
    AtStart(b);
    while pos < len && buf[pos] != 0
      invariant o.Valid() && fresh(o) && fresh(o.out) && |b| == len && At(b, pos, rest, o.full)
      decreases len - pos
    {
      ok, pos, rest := ParseLabel(buf, len, pos, o, b, rest);
      if !ok { return; }
    }
    o.out[o.oi] := NUL;
    ok := false;
    if pos >= len { return; }
    assert rest[0] == b[pos + 0];
    pos := pos + 5;
    if pos > len { return; }
    return true, o, pos;
  }

  /** One round of the loop. */
  method ParseLabel(buf: array<byte>, len: nat, pos: nat, o: NameBuffer, ghost b: Bytes, ghost rest: Bytes)
      returns (ok: bool, next: nat, ghost more: Bytes)
    requires pos < len <= buf.Length && b == buf[..len] && buf[pos] != 0
    requires o.Valid() && At(b, pos, rest, o.full)
    modifies o, o.out
    ensures o.Valid() && (!ok ==> !NameOk(b[HEADER..]))
    ensures ok ==> next > pos && At(b, next, more, o.full)
  {
    assert rest[0] == b[pos + 0];
    var labLen := buf[pos] as int;
    if labLen > 63 || pos + 1 + labLen >= len { return false, pos, rest; }
    AtNext(b, pos, rest, o.full, labLen);
    ghost var lab := rest[1..labLen + 1];
    forall i | 0 <= i < labLen ensures lab[i] == buf[pos + 1 + i] {
      assert lab[i] == rest[1 + i] == b[pos + 1 + i];
    }
    o.Dot();
    o.PutLabel(buf, pos + 1, labLen, lab);
    return true, pos + 1 + labLen, rest[labLen + 1..];
  }

  // ---------- rules ----------

  datatype Rule = Rule(mac: string, domain: string)

  predicate Hits(r: Rule, mac: string, name: string) {
    ForClient(r, mac) && SuffixMatch(name, r.domain)
  }

  method IsBlocked(rules: seq<Rule>, mac: string, name: string) returns (blocked: bool)
    ensures blocked <==> exists i :: 0 <= i < |rules| && Hits(rules[i], mac, name)
  {
    for i := 0 to |rules|
      invariant forall k | 0 <= k < i :: !Hits(rules[k], mac, name)
    {
      if Hits(rules[i], mac, name) { return true; }
    }
    return false;
  }

  predicate ForClient(r: Rule, mac: string) { (r.mac != "" && r.mac[0] == '*') || LowerAll(r.mac) == LowerAll(mac) }

  /** What the filter sees of a question: its dotted name, cut to the buffer and up to a NUL. */
  function Seen(name: string, outSize: nat): string { CStr(Clip(name, outSize)) }

  /** A rule with any domain hits a question with any name exactly if it is for the client and its labels are, in
      any case, the last labels of what is seen of the name. */
  lemma HitsByLabels(r: Rule, mac: string, name: string, outSize: nat)
    ensures Hits(r, mac, Seen(name, outSize)) <==>
            ForClient(r, mac) && r.domain != "" && Under(Parts(Seen(name, outSize)), Parts(r.domain))
  {
    SuffixMatchOfTexts(Seen(name, outSize), r.domain);
  }

  /** These are the question's own labels if its name fits and has no dots or NULs inside its labels. */
  lemma BlockedByLabels(labels: seq<Bytes>, r: Rule, mac: string, outSize: nat)
    requires labels != [] && DotFree(Texts(labels)) && NulFree(Join(Texts(labels)))
    requires |Join(Texts(labels))| < outSize
    ensures Hits(r, mac, Seen(Join(Texts(labels)), outSize)) <==>
            ForClient(r, mac) && r.domain != "" && Under(Texts(labels), Parts(r.domain))
  {
    CStrOfText(Join(Texts(labels)));
    PartsOfJoin(Texts(labels));
    HitsByLabels(r, mac, Join(Texts(labels)), outSize);
  }

  /** The name of two labels l under `com`. */
  lemma {:induction false} TwoLabels(l: string)
    ensures Join([l, l, "com"]) == l + "." + (l + "." + "com")
  {
    assert [l, l, "com"][1..] == [l, "com"] && [l, "com"][1..] == ["com"];
    assert Join([l, "com"]) == l + "." + "com";
  }

  lemma {:induction false} CutAfterC(l: string)
    requires |l| == 63
    ensures Clip(l + "." + (l + "." + "com"), 130) == l + "." + (l + "." + "c")
  {
    var name := l + "." + (l + "." + "com");
    assert name == l + "." + (l + "." + "c") + "om";
  }

  /** A name that is cut loses its last labels: with the 130 characters there are, a rule for `com` misses two
      labels of 63 characters under `com`. */
  lemma {:induction false} LongNameMissesRule(l: string)
    requires |l| == 63 && NulFree(l) && '.' !in l
    ensures var t := [l, l, "com"];
      DotFree(t) && SuffixMatch(Join(t), "com") && !SuffixMatch(Seen(Join(t), 130), "com")
  {
    TwoLabels(l);
    CutAfterC(l);
    var name, cut := l + "." + (l + "." + "com"), l + "." + (l + "." + "c");
    assert name[|name| - 3..] == "com";
    CStrOfText(cut);
    assert LowerAll(cut[|cut| - 3..])[2] == 'c' && LowerAll("com")[2] == 'm';
  }

  // ---------- refusing ----------

  /** The first flag byte of the refusal. */
  function ReplyFlags(x: bv8): bv8 { (x & 0x79) | 0x80 }

  /** It marks a response, keeps the operation and the recursion bit of the query, and clears the rest. */
  lemma ReplyFlagsMean(x: bv8)
    ensures var r := ReplyFlags(x);
      r & 0x80 == 0x80 && r & 0x78 == x & 0x78 && r & 0x01 == x & 0x01 && r & 0x06 == 0
  {
  }

  /** A question stays the same question when what follows it is cut off. */
  lemma QuestionOfPrefix(b: Bytes, c: Bytes)
    requires QuestionOk(b) && |c| == QuestionEnd(b) && c[HEADER..] == b[HEADER..|c|]
    ensures QuestionOk(c) && QuestionEnd(c) == |c| && QuestionName(c) == QuestionName(b)
  {
    var q, n := b[HEADER..], NameSize(b[HEADER..]);
    var labels, tail := NameLabels(q), b[HEADER + n..|c|];
    WireOfName(q);
    NameOfWire(labels, q[n..]);
    assert q[..n] == Wire(labels);
    assert c[HEADER..] == q[..n] + tail;
    NameOfWire(labels, tail);
  }

  /** A message that is one question and nothing else. */
  predicate OnlyQuestion(b: Bytes) {
    QuestionOk(b) && QuestionEnd(b) == |b| && b[4] == 0 && b[5] == 1 && forall i | 6 <= i < HEADER :: b[i] == 0
  }

  /** Turns the request into the refusal that is sent: the question as it was, no records, name error. */
  method SendNxdomain(req: array<byte>, len: nat, end: nat) returns (reply: Bytes)
    requires len <= req.Length && QuestionOk(req[..len]) && end == QuestionEnd(req[..len])
    modifies req
    ensures reply == req[..end] && QuestionOk(reply) && QuestionEnd(reply) == |reply|
    ensures QuestionName(reply) == QuestionName(old(req[..len])) && reply[HEADER..] == old(req[HEADER..end])
    ensures reply[2] == ReplyFlags(old(req[2]) as bv8) as byte && reply[3] == 0x83
    ensures reply[..2] == old(req[..2])
    ensures OnlyQuestion(reply) <==> old(req[4]) == 0 && old(req[5]) == 1
  {
    ghost var before := req[..len];
    var flags := ReplyFlags(req[2] as bv8);
    req[2] := flags as byte;
    req[3] := 0x80 + 0x03;
    req[6], req[7] := 0, 0;
    req[8], req[9] := 0, 0;
    req[10], req[11] := 0, 0;
    reply := req[..end];
    QuestionOfPrefix(before, reply);
  }
}
