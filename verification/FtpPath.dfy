/** What a path means to the FTP server: a fold of its components over a stack that never goes above the
    root. */
module FtpPath {
  import opened CText
  import opened Options

  const TMP_SIZE: nat := 400
  const MAX_DEPTH: nat := 16

  /** Number of leading characters that are no slash. */
  function Run(s: string): (n: nat)
    ensures n <= |s| && (forall i | 0 <= i < n :: s[i] != '/') && (n < |s| ==> s[n] == '/')
  {
    if s == "" || s[0] == '/' then 0 else 1 + Run(s[1..])
  }

  /** The non-empty pieces between slashes. */
  function Parts(s: string): (ps: seq<string>)
    decreases |s|
    ensures forall i | 0 <= i < |ps| :: IsPart(ps[i])
  {
    if s == "" then []
    else if s[0] == '/' then Parts(s[1..])
    else [s[..Run(s)]] + Parts(s[Run(s)..])
  }

  ghost predicate IsPart(c: string) { c != "" && forall i | 0 <= i < |c| :: c[i] != '/' }

  predicate LegalChar(c: char) { c as int >= 32 && c as int != 127 && c != '\\' }

  predicate Legal(c: string) { forall i | 0 <= i < |c| :: LegalChar(c[i]) }

  /** The stack as text: every component after a slash. */
  function Text(stack: seq<string>): string {
    if stack == [] then "" else Text(stack[..|stack|-1]) + "/" + stack[|stack|-1]
  }

  /** One component: "." stays, ".." leaves the directory (but never the root), a name enters it if it is legal
      and everything still fits. */
  function Enter(stack: seq<string>, c: string, vsz: nat): Option<seq<string>> {
    if c == "." then Some(stack)
    else if c == ".." then Some(if stack == [] then [] else stack[..|stack|-1])
    else if |stack| >= MAX_DEPTH || |Text(stack)| + 1 + |c| + 1 > vsz || !Legal(c) then None
    else Some(stack + [c])
  }

  function Walk(stack: seq<string>, parts: seq<string>, vsz: nat): Option<seq<string>>
    decreases |parts|
  {
    if parts == [] then Some(stack)
    else
      match Enter(stack, parts[0], vsz)
      case None => None
      case Some(next) => Walk(next, parts[1..], vsz)
  }

  /** The text that is walked: the argument itself if it is absolute, else after the current directory. */
  function Joined(cwd: string, arg: string): Option<string> {
    if arg != "" && arg[0] == '/' then
      if |arg| >= TMP_SIZE then None else Some(arg)
    else
      if |cwd| + |arg| + 2 > TMP_SIZE then None else Some(cwd + "/" + arg)
  }

  function Path(stack: seq<string>): string { if stack == [] then "/" else Text(stack) }

  function Resolve(cwd: string, arg: string, vsz: nat): Option<string> {
    match Joined(cwd, arg)
    case None => None
    case Some(tmp) =>
      match Walk([], Parts(tmp), vsz)
      case None => None
      case Some(stack) => Some(Path(stack))
  }

  // ---------- canonical results ----------

  ghost predicate Name(c: string) { IsPart(c) && c != "." && c != ".." && Legal(c) }

  ghost predicate Canonical(stack: seq<string>, vsz: nat) {
    && |stack| <= MAX_DEPTH && (forall i | 0 <= i < |stack| :: Name(stack[i]))
    && (stack != [] ==> |Text(stack)| < vsz)
  }

  lemma EnterCanonical(stack: seq<string>, c: string, vsz: nat)
    requires Canonical(stack, vsz) && IsPart(c)
    ensures var r := Enter(stack, c, vsz); r.Some? ==> Canonical(r.value, vsz)
  {
    if c != "." && c != ".." {
      assert (stack + [c])[..|stack|] == stack;
    } else if c == ".." && |stack| > 1 {
      assert |Text(stack[..|stack|-1])| < |Text(stack)|;
    }
  }

  lemma {:induction false} WalkCanonical(stack: seq<string>, parts: seq<string>, vsz: nat)
    requires Canonical(stack, vsz) && forall i | 0 <= i < |parts| :: IsPart(parts[i])
    ensures var r := Walk(stack, parts, vsz); r.Some? ==> Canonical(r.value, vsz)
    decreases |parts|
  {
    if parts != [] {
      EnterCanonical(stack, parts[0], vsz);
      var r := Enter(stack, parts[0], vsz);
      if r.Some? { WalkCanonical(r.value, parts[1..], vsz); }
    }
  }

  /** The resolved path is that of a canonical stack: no empty, "." or ".." component, legal characters only, at
      most 16 deep, and it fits. */
  lemma ResolveCanonical(cwd: string, arg: string, vsz: nat)
    requires vsz >= 2
    ensures var r := Resolve(cwd, arg, vsz);
      r.Some? ==> |r.value| < vsz && exists stack :: Canonical(stack, vsz) && r.value == Path(stack)
  {
    var tmp := Joined(cwd, arg);
    if tmp.Some? {
      WalkCanonical([], Parts(tmp.value), vsz);
      var w := Walk([], Parts(tmp.value), vsz);
      if w.Some? { assert Canonical(w.value, vsz); }
    }
  }

  lemma {:induction false} NamesNulFree(stack: seq<string>)
    requires forall i | 0 <= i < |stack| :: Name(stack[i])
    ensures NulFree(Text(stack))
  {
    if stack != [] {
      NamesNulFree(stack[..|stack|-1]);
      assert Name(stack[|stack|-1]);
    }
  }

  lemma ResolveNulFree(cwd: string, arg: string, vsz: nat)
    requires vsz >= 2
    ensures var r := Resolve(cwd, arg, vsz); r.Some? ==> NulFree(r.value)
  {
    ResolveCanonical(cwd, arg, vsz);
    var r := Resolve(cwd, arg, vsz);
    if r.Some? {
      var stack :| Canonical(stack, vsz) && r.value == Path(stack);
      NamesNulFree(stack);
    }
  }

  // ---------- parts ----------

  lemma {:induction false} RunConcat(a: string, rest: string)
    requires forall i | 0 <= i < |a| :: a[i] != '/'
    requires rest == "" || rest[0] == '/'
    ensures Run(a + rest) == |a|
    decreases |a|
  {
    if a == "" {
      assert a + rest == rest;
    } else {
      assert (a + rest)[1..] == a[1..] + rest;
      RunConcat(a[1..], rest);
    }
  }

  /** Splitting at a slash splits the parts. */
  lemma {:induction false} PartsJoin(a: string, b: string)
    ensures Parts(a + "/" + b) == Parts(a) + Parts(b)
    decreases |a|
  {
    var s := a + "/" + b;
    if a == "" {
      assert s[0] == '/' && s[1..] == b;
    } else if a[0] == '/' {
      assert s[1..] == a[1..] + "/" + b;
      PartsJoin(a[1..], b);
    } else {
      var n := Run(a);
      var rest := a[n..] + "/" + b;
      assert rest[0] == '/' && s == a[..n] + rest;
      RunConcat(a[..n], rest);
      assert s[..n] == a[..n] && s[n..] == rest;
      PartsJoin(a[n..], b);
    }
  }

  lemma PartsOfPart(c: string)
    requires IsPart(c)
    ensures Parts(c) == [c]
  {
    RunConcat(c, "");
    assert c + "" == c && c[..|c|] == c && c[|c|..] == "";
  }

  lemma {:induction false} PartsOfText(stack: seq<string>)
    requires forall i | 0 <= i < |stack| :: IsPart(stack[i])
    ensures Parts(Text(stack)) == stack
  {
    if stack != [] {
      var init, last := stack[..|stack|-1], stack[|stack|-1];
      PartsOfText(init);
      PartsJoin(Text(init), last);
      PartsOfPart(last);
      assert stack == init + [last];
    }
  }

  lemma PartsOfPath(stack: seq<string>)
    requires forall i | 0 <= i < |stack| :: IsPart(stack[i])
    ensures Parts(Path(stack)) == stack
  {
    PartsOfText(stack);
    if stack == [] { assert "/"[1..] == ""; }
  }

  // ---------- walking ----------

  lemma {:induction false} WalkConcat(stack: seq<string>, a: seq<string>, b: seq<string>, vsz: nat)
    ensures Walk(stack, a + b, vsz) ==
            match Walk(stack, a, vsz) case None => None case Some(mid) => Walk(mid, b, vsz)
    decreases |a|
  {
    if a == [] {
      assert a + b == b;
    } else {
      assert (a + b)[1..] == a[1..] + b;
      var r := Enter(stack, a[0], vsz);
      if r.Some? { WalkConcat(r.value, a[1..], b, vsz); }
    }
  }

  lemma {:induction false} TextGrows(a: seq<string>, b: seq<string>)
    ensures |Text(a)| <= |Text(a + b)|
    decreases |b|
  {
    if b == [] {
      assert a + b == a;
    } else {
      assert (a + b)[..|a + b|-1] == a + b[..|b|-1];
      TextGrows(a, b[..|b|-1]);
    }
  }

  /** Walking a canonical stack's own components rebuilds it. */
  lemma {:induction false} WalkRebuilds(done: seq<string>, rest: seq<string>, vsz: nat)
    requires Canonical(done + rest, vsz)
    ensures Walk(done, rest, vsz) == Some(done + rest)
    decreases |rest|
  {
    if rest == [] {
      assert done + rest == done;
    } else {
      var c := rest[0];
      assert done + rest == done + [c] + rest[1..];
      assert c == (done + rest)[|done|];
      TextGrows(done + [c], rest[1..]);
      assert (done + [c])[..|done|] == done;
      WalkRebuilds(done + [c], rest[1..], vsz);
    }
  }

  // ---------- laws ----------

  /** A resolved path resolves to itself, whatever the current directory is. */
  lemma ResolveIdempotent(cwd: string, arg: string, elsewhere: string, vsz: nat)
    requires 2 <= vsz <= TMP_SIZE && Resolve(cwd, arg, vsz).Some?
    ensures var v := Resolve(cwd, arg, vsz).value; Resolve(elsewhere, v, vsz) == Some(v)
  {
    var tmp := Joined(cwd, arg).value;
    WalkCanonical([], Parts(tmp), vsz);
    var stack := Walk([], Parts(tmp), vsz).value;
    PathIsAbsolute(stack);
    PartsOfPath(stack);
    assert [] + stack == stack;
    WalkRebuilds([], stack, vsz);
  }

  lemma PathIsAbsolute(stack: seq<string>)
    ensures Path(stack) != "" && Path(stack)[0] == '/'
  {
    TextStarts(stack);
  }

  lemma {:induction false} TextStarts(stack: seq<string>)
    ensures stack != [] ==> Text(stack) != "" && Text(stack)[0] == '/'
  {
    if |stack| > 1 { TextStarts(stack[..|stack|-1]); }
  }

  /** Resolving step by step is resolving the joined path, while nothing outgrows the buffer. */
  lemma ResolveComposes(cwd: string, a: string, b: string, vsz: nat)
    requires 2 <= vsz && Resolve(cwd, a, vsz).Some?
    requires a != "" && (b == "" || b[0] != '/')
    requires |Resolve(cwd, a, vsz).value| + |b| + 2 <= TMP_SIZE
    requires if a[0] == '/' then |a| + 1 + |b| < TMP_SIZE else |cwd| + |a| + 1 + |b| + 2 <= TMP_SIZE
    ensures Resolve(Resolve(cwd, a, vsz).value, b, vsz) == Resolve(cwd, a + "/" + b, vsz)
  {
    var tmp := Joined(cwd, a).value;
    WalkCanonical([], Parts(tmp), vsz);
    var stack := Walk([], Parts(tmp), vsz).value;
    PathIsAbsolute(stack);
    WalkFromPath(stack, b, vsz);
    JoinedFurther(cwd, a, b);
    WalkOn(tmp, b, stack, vsz);
  }

  lemma {:induction false} JoinedFurther(cwd: string, a: string, b: string)
    requires a != "" && Joined(cwd, a).Some?
    requires if a[0] == '/' then |a| + 1 + |b| < TMP_SIZE else |cwd| + |a| + 1 + |b| + 2 <= TMP_SIZE
    ensures Joined(cwd, a + "/" + b) == Some(Joined(cwd, a).value + "/" + b)
  {
    if a[0] != '/' { assert cwd + "/" + (a + "/" + b) == cwd + "/" + a + "/" + b; }
  }

  lemma WalkOn(tmp: string, b: string, stack: seq<string>, vsz: nat)
    requires Walk([], Parts(tmp), vsz) == Some(stack)
    ensures Walk([], Parts(tmp + "/" + b), vsz) == Walk(stack, Parts(b), vsz)
  {
    PartsJoin(tmp, b);
    WalkConcat([], Parts(tmp), Parts(b), vsz);
  }

  lemma WalkFromPath(stack: seq<string>, b: string, vsz: nat)
    requires Canonical(stack, vsz)
    ensures Walk([], Parts(Path(stack) + "/" + b), vsz) == Walk(stack, Parts(b), vsz)
  {
    PartsOfPath(stack);
    assert [] + stack == stack;
    WalkRebuilds([], stack, vsz);
    WalkOn(Path(stack), b, stack, vsz);
  }

  // ---------- what the components mean ----------

  /** Characters a name may have. */
  ghost predicate PlainChars(c: string) {
    forall i | 0 <= i < |c| :: c[i] as int >= 32 && c[i] as int != 127 && c[i] != '\\'
  }

  /** A name c can be entered below a directory: there are fewer than 16 components, the longer path with its
      terminator fits, and all characters are plain. */
  ghost predicate CanEnter(stack: seq<string>, c: string, vsz: nat) {
    |stack| < 16 && |Text(stack)| + 1 + |c| < vsz && PlainChars(c)
  }

  /** One component behind a directory: "." stays, ".." goes up and stays at the root, and a name is appended, if and
      only if it can be entered. */
  lemma ResolveOne(stack: seq<string>, c: string, vsz: nat)
    requires 2 <= vsz && Canonical(stack, vsz) && IsPart(c) && |Path(stack)| + |c| + 2 <= TMP_SIZE
    ensures Resolve(Path(stack), c, vsz) ==
            if c == "." then Some(Path(stack))
            else if c == ".." then Some(if |stack| <= 1 then "/" else Text(stack[..|stack|-1]))
            else if CanEnter(stack, c, vsz) then Some(Text(stack) + "/" + c)
            else None
  {
    PathIsAbsolute(stack);
    WalkFromPath(stack, c, vsz);
    PartsOfPart(c);
    WalkOne(stack, c, vsz);
    assert Legal(c) <==> PlainChars(c);
    assert (stack + [c])[..|stack|] == stack;
  }

  lemma WalkOne(stack: seq<string>, c: string, vsz: nat)
    ensures Walk(stack, [c], vsz) == Enter(stack, c, vsz)
  {
    assert [c][1..] == [];
  }

  /** ".." in a directory takes its last component away, up to the root, where it stays. */
  lemma UpMeans(stack: seq<string>, vsz: nat)
    requires 2 <= vsz && Canonical(stack, vsz) && |Path(stack)| + 4 <= TMP_SIZE
    ensures Resolve(Path(stack), "..", vsz).Some?
    ensures var up := Resolve(Path(stack), "..", vsz).value;
      if stack == [] then Path(stack) == "/" && up == "/"
      else
        var name := stack[|stack|-1];
        Path(stack) == (if up == "/" then "" else up) + "/" + name && '/' !in name
  {
    ResolveOne(stack, "..", vsz);
    if stack != [] { TextStarts(stack[..|stack|-1]); }
    if |stack| == 1 { assert stack[..0] == []; }
    if |stack| > 1 {
      var init := stack[..|stack|-1];
      assert |Text(init)| >= 2 by { assert Name(init[|init|-1]); }
    }
  }

  /** A name entered and left again is as if it had not been there, and so is "." . */
  lemma InAndOut(cwd: string, a: string, c: string, vsz: nat)
    requires 2 <= vsz && Resolve(cwd, a, vsz).Some? && a != ""
    requires Name(c) && Resolve(Resolve(cwd, a, vsz).value, c, vsz).Some?
    requires |Resolve(cwd, a, vsz).value| + |c| + 5 <= TMP_SIZE
    requires if a[0] == '/' then |a| + 4 + |c| < TMP_SIZE else |cwd| + |a| + |c| + 6 <= TMP_SIZE
    ensures Resolve(cwd, a + "/" + (c + "/" + ".."), vsz) == Resolve(cwd, a, vsz)
    ensures Resolve(cwd, a + "/" + ".", vsz) == Resolve(cwd, a, vsz)
  {
    var v := Resolve(cwd, a, vsz).value;
    ResolveCanonical(cwd, a, vsz);
    var stack :| Canonical(stack, vsz) && v == Path(stack);
    assert c[0] != '/' && (c + "/" + "..")[0] == c[0];
    ResolveComposes(cwd, a, c + "/" + "..", vsz);
    ResolveComposes(cwd, a, ".", vsz);
    ResolveOne(stack, ".", vsz);
    InAndOutHere(stack, c, vsz);
  }

  lemma InAndOutHere(stack: seq<string>, c: string, vsz: nat)
    requires 2 <= vsz && Canonical(stack, vsz) && Name(c) && Resolve(Path(stack), c, vsz).Some?
    requires |Path(stack)| + |c| + 5 <= TMP_SIZE
    ensures Resolve(Path(stack), c + "/" + "..", vsz) == Some(Path(stack))
  {
    var inside := stack + [c];
    assert inside[..|inside|-1] == stack;
    ResolveOne(stack, c, vsz);
    assert Path(inside) == Text(stack) + "/" + c;
    assert forall i | 0 <= i < |inside| :: Name(inside[i]);
    ResolveComposes(Path(stack), c, "..", vsz);
    ResolveOne(inside, "..", vsz);
    if |inside| == 1 { assert stack == []; }
  }

  /** When a path is refused: the text to be walked is too long, or the components before some name lead to a
      directory below which that name cannot be entered. */
  lemma ResolveFailsIff(cwd: string, arg: string, vsz: nat)
    ensures Resolve(cwd, arg, vsz) == None <==>
            if arg != "" && arg[0] == '/' then |arg| >= 400 || Stuck(Parts(arg), vsz)
            else |cwd| + |arg| + 2 > 400 || Stuck(Parts(cwd + "/" + arg), vsz)
  {
    var tmp := Joined(cwd, arg);
    if tmp.Some? { WalkFailsIff(Parts(tmp.value), vsz); }
  }

  ghost predicate StuckAt(parts: seq<string>, k: nat, vsz: nat) {
    k < |parts| &&
    match Walk([], parts[..k], vsz)
    case None => false
    case Some(stack) => parts[k] != "." && parts[k] != ".." && !CanEnter(stack, parts[k], vsz)
  }

  ghost predicate Stuck(parts: seq<string>, vsz: nat) { exists k: nat :: StuckAt(parts, k, vsz) }

  lemma {:induction false} WalkFailsIff(parts: seq<string>, vsz: nat)
    ensures Walk([], parts, vsz) == None <==> Stuck(parts, vsz)
    decreases |parts|
  {
    if parts == [] {
    } else {
      var init, c := parts[..|parts|-1], parts[|parts|-1];
      WalkFailsIff(init, vsz);
      WalkConcat([], init, [c], vsz);
      assert parts == init + [c];
      assert Legal(c) <==> PlainChars(c);
      if Walk([], init, vsz).Some? { WalkOne(Walk([], init, vsz).value, c, vsz); }
      forall k: nat | k < |init| ensures StuckAt(parts, k, vsz) <==> StuckAt(init, k, vsz) {
        assert parts[..k] == init[..k];
      }
      var before := Walk([], init, vsz);
      assert StuckAt(parts, |init|, vsz) <==> before.Some? && Enter(before.value, c, vsz) == None;
    }
  }
}
