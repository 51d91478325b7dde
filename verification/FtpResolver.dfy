/** The path resolver's code: one output buffer, its length, and a stack of marks that remember how long the
    path was before each component. */
module FtpResolver {
  import opened CText
  import opened Options
  import opened FtpPath

  /** `rest` is what follows position p of the text. */
  ghost predicate Suffix(rest: string, tmp: string, p: nat) {
    p <= |tmp| && |rest| == |tmp| - p && forall k | 0 <= k < |rest| :: rest[k] == tmp[p + k]
  }

  method SkipSlashes(tmp: string, p0: nat, ghost rest0: string) returns (p: nat, ghost rest: string)
    requires Suffix(rest0, tmp, p0)
    ensures p0 <= p && Suffix(rest, tmp, p) && Parts(rest) == Parts(rest0)
    ensures p < |tmp| ==> tmp[p] != '/'
  {
    p, rest := p0, rest0;
    while p < |tmp| && tmp[p] == '/'
      invariant p0 <= p && Suffix(rest, tmp, p) && Parts(rest) == Parts(rest0)
    {
      p, rest := p + 1, rest[1..];
    }
  }

  /** Finds the end of the component at p. */
  method FindEnd(tmp: string, p: nat, ghost rest0: string) returns (q: nat, ghost rest: string)
    requires Suffix(rest0, tmp, p) && p < |tmp| && tmp[p] != '/'
    ensures p < q && Suffix(rest, tmp, q) && Parts(rest0) == [tmp[p..q]] + Parts(rest)
  {
    q := p;
    while q < |tmp| && tmp[q] != '/'
      invariant p <= q <= |tmp| && forall i | p <= i < q :: tmp[i] != '/'
    {
      q := q + 1;
    }
    rest := rest0[q - p..];
    assert rest0[..q - p] == tmp[p..q] && rest0 == tmp[p..q] + rest;
    RunConcat(tmp[p..q], rest);
  }

  class Path {
    const virt: array<char>
    const marks: array<nat>
    var len: nat
    var depth: nat
    ghost var stack: seq<string>

    ghost predicate Valid()
      reads this, virt, marks
    {
      && marks.Length == MAX_DEPTH && depth == |stack| <= MAX_DEPTH
      && len == |Text(stack)| < virt.Length && virt[..len] == Text(stack) && virt[len] == NUL
      && forall i | 0 <= i < depth :: marks[i] == |Text(stack[..i])|
    }

    constructor (virt: array<char>)
      requires virt.Length >= 2
      modifies virt
      ensures Valid() && this.virt == virt && stack == [] && fresh(marks)
    {
      this.virt := virt;
      marks := new nat[MAX_DEPTH];
      len, depth, stack := 0, 0, [];
      new;
      virt[0] := NUL;
    }

    method Leave()
      requires Valid()
      modifies this, virt
      ensures Valid() && stack == if old(stack) == [] then [] else old(stack)[..|old(stack)|-1]
    {
      if depth > 0 {
        depth := depth - 1;
        ghost var up := stack[..depth];
        assert stack[..depth] == up;
        assert Text(up) == virt[..len][..marks[depth]];
        len := marks[depth];
        virt[len] := NUL;
        forall i | 0 <= i < depth ensures up[..i] == stack[..i] {}
        stack := up;
      }
    }

    method Push(c: string)
      requires Valid() && depth < MAX_DEPTH && len + 1 + |c| + 1 <= virt.Length
      modifies this, virt, marks
      ensures Valid() && stack == old(stack) + [c]
    {
      ghost var text := virt[..len];
      marks[depth] := len;
      depth := depth + 1;
      virt[len] := '/';
      forall i | 0 <= i < |c| { virt[len + 1 + i] := c[i]; }
      len := len + 1 + |c|;
      virt[len] := NUL;
      assert (stack + [c])[..|stack|] == stack;
      assert virt[..len] == text + "/" + c;
      forall i | 0 <= i < |stack| ensures (stack + [c])[..i] == stack[..i] {}
      stack := stack + [c];
    }

    method EnterPart(c: string) returns (ok: bool)
      requires Valid()
      modifies this, virt, marks
      ensures ok == Enter(old(stack), c, virt.Length).Some?
      ensures ok ==> Valid() && stack == Enter(old(stack), c, virt.Length).value
    {
      if |c| == 1 && c[0] == '.' { return true; }
      if |c| == 2 && c[0] == '.' && c[1] == '.' {
        Leave();
        return true;
      }
      if depth >= MAX_DEPTH || len + 1 + |c| + 1 > virt.Length { return false; }
      for i := 0 to |c|
        invariant forall k | 0 <= k < i :: LegalChar(c[k])
      {
        if !LegalChar(c[i]) { return false; }
      }
      Push(c);
      ok := true;
    }
  }

  /** Resolves `arg` against `cwd` into the buffer. */
  method ResolveInto(cwd: string, arg: string, virt: array<char>) returns (ok: bool)
    requires virt.Length >= 2
    modifies virt
    ensures ok == Resolve(cwd, arg, virt.Length).Some?
    ensures ok ==> var v := Resolve(cwd, arg, virt.Length).value;
      |v| < virt.Length && virt[..|v|] == v && virt[|v|] == NUL
  {
    var tmp;
    if arg != "" && arg[0] == '/' {
      if |arg| >= TMP_SIZE { return false; }
      tmp := arg;
    } else {
      if |cwd| + |arg| + 2 > TMP_SIZE { return false; }
      tmp := cwd + "/" + arg;
    }
    var path := new Path(virt);
    var p: nat := 0;
    ghost var rest := tmp;
    while p < |tmp|
      invariant path.virt == virt && fresh(path) && fresh(path.marks) && path.Valid() && Suffix(rest, tmp, p)
      invariant Walk(path.stack, Parts(rest), virt.Length) == Walk([], Parts(tmp), virt.Length)
      decreases |tmp| - p
    {
      p, rest := SkipSlashes(tmp, p, rest);
      if p == |tmp| { break; }
      var q;
      q, rest := FindEnd(tmp, p, rest);
      ok := path.EnterPart(tmp[p..q]);
      if !ok { return; }
      p := q;
    }
    assert rest == "";
    if path.len == 0 {
      virt[0] := '/';
      virt[1] := NUL;
    }
    LenZero(path.stack);
    ok := true;
  }

  lemma LenZero(stack: seq<string>)
    ensures Text(stack) == "" <==> stack == []
  {
  }
}
