/** Files nobody may touch through the shell or FTP: everything with one of four names in its path. */
module FsGuard {
  const BLOCKED: seq<string> := ["k85_ssh_host_key", "k85os_config.json", "k85_ssh_", "k85_svc"]

  predicate ContainsAt(s: string, t: string, i: nat) { i + |t| <= |s| && s[i..i + |t|] == t }

  predicate Contains(s: string, t: string) { exists i: nat | i <= |s| :: ContainsAt(s, t, i) }

  predicate Blocked(path: string) { exists k | 0 <= k < |BLOCKED| :: Contains(path, BLOCKED[k]) }

  method IsBlocked(path: string) returns (blocked: bool)
    ensures blocked == Blocked(path)
  {
    for k := 0 to |BLOCKED|
      invariant forall m | 0 <= m < k :: !Contains(path, BLOCKED[m])
    {
      if Contains(path, BLOCKED[k]) { return true; }
    }
    return false;
  }

  lemma ContainsCharAt(s: string, t: string, i: nat, j: nat)
    requires ContainsAt(s, t, i) && j < |t|
    ensures s[i + j] == t[j]
  {
    assert s[i..i + |t|][j] == t[j];
  }

  lemma ContainsLonger(s: string, more: string, t: string, i: nat)
    requires i + |t| <= |s|
    ensures ContainsAt(s + more, t, i) <==> ContainsAt(s, t, i)
  {
    assert (s + more)[i..i + |t|] == s[i..i + |t|];
  }

  const TMP: string := ".k85tmp"

  /** No blocked name reaches into the ending of a temporary file. */
  lemma NoneInEnding(path: string, k: nat, i: nat)
    requires k < |BLOCKED| && ContainsAt(path + TMP, BLOCKED[k], i)
    ensures i + |BLOCKED[k]| <= |path|
  {
    var s, t := path + TMP, BLOCKED[k];
    if i + |t| > |path| {
      ContainsCharAt(s, t, i, 0);
      assert t[0] == 'k' && |s| == |path| + 7;
      if i < |path| {
        ContainsCharAt(s, t, i, |path| - i);
        assert s[|path|] == '.';
        ContainsCharAt(s, t, i, 13);
        assert false;
      }
    }
  }

  /** The temporary file of an upload is blocked if and only if the file is. */
  lemma TempBlockedIff(path: string)
    ensures Blocked(path + TMP) <==> Blocked(path)
  {
    forall k, i: nat | 0 <= k < |BLOCKED|
      ensures ContainsAt(path + TMP, BLOCKED[k], i) <==> ContainsAt(path, BLOCKED[k], i)
    {
      if ContainsAt(path + TMP, BLOCKED[k], i) { NoneInEnding(path, k, i); }
      if i + |BLOCKED[k]| <= |path| { ContainsLonger(path, TMP, BLOCKED[k], i); }
    }
  }
}
