/** What the lines of an FTP session do, by the words they are written with. */
module FtpCommands {
  import opened CText
  import opened CScan
  import opened FsGuard
  import opened Options
  import opened FtpPath
  import opened FtpSession

  // ---------- reading a line ----------

  function Uppered(s: string): string { if s == "" then "" else [Upper(s[0])] + Uppered(s[1..]) }

  lemma {:induction false} CommandOfWord(verb: string, rest: string, room: nat)
    requires |verb| <= room && (forall i | 0 <= i < |verb| :: verb[i] != ' ') && (rest == "" || rest[0] == ' ')
    ensures Command(verb + rest, room) == Uppered(verb) && DropWord(verb + rest) == rest
    decreases |verb|
  {
    if verb == "" {
      assert verb + rest == rest;
    } else {
      assert (verb + rest)[1..] == verb[1..] + rest;
      CommandOfWord(verb[1..], rest, room - 1);
    }
  }

  lemma {:induction false} DropSpacesOf(n: nat, arg: string)
    requires arg == "" || arg[0] != ' '
    ensures DropSpaces(seq(n, _ => ' ') + arg) == arg
  {
    var gap: string := seq(n, _ => ' ');
    if n == 0 {
      assert gap + arg == arg;
    } else {
      var less: string := seq(n - 1, _ => ' ');
      assert (gap + arg)[1..] == less + arg;
      DropSpacesOf(n - 1, arg);
    }
  }

  /** A word of up to seven characters in any case, blanks, and the argument. */
  lemma LineMeans(verb: string, n: nat, arg: string)
    requires |verb| <= 7 && (forall i | 0 <= i < |verb| :: verb[i] != ' ') && (arg == "" || arg[0] != ' ')
    requires n > 0 || arg == ""
    ensures var text := verb + (seq(n, _ => ' ') + arg); Command(text, 7) == Uppered(verb) && Argument(text) == arg
  {
    CommandOfWord(verb, seq(n, _ => ' ') + arg, 7);
    DropSpacesOf(n, arg);
  }

  lemma UpperMeans(c: char)
    ensures 'a' <= c <= 'z' ==> Upper(c) as int == c as int - 32
    ensures !('a' <= c <= 'z') ==> Upper(c) == c
  {
  }

  // ---------- paths ----------

  /** The path an argument names, if it can be used: it resolves to a path shorter than 192 that has no blocked name in
      it, and is not the root where that makes no sense. */
  lemma PathArgMeans(cwd: string, arg: string, allowRoot: bool)
    ensures var p, r := PathArg(cwd, arg, allowRoot), Resolve(cwd, arg, 192);
      p == if arg != "" && r.Some? && !Blocked(r.value) && (allowRoot || r.value != "/") then r else None
  {
  }

  /** Four names are blocked wherever they stand in a path. */
  lemma BlockedMeans(path: string)
    ensures Blocked(path) <==>
            Contains(path, "k85_ssh_host_key") || Contains(path, "k85os_config.json") || Contains(path, "k85_ssh_") ||
            Contains(path, "k85_svc")
  {
    assert BLOCKED[0] == "k85_ssh_host_key" && BLOCKED[1] == "k85os_config.json";
    assert BLOCKED[2] == "k85_ssh_" && BLOCKED[3] == "k85_svc" && |BLOCKED| == 4;
  }

  lemma ContainsMeans(s: string, t: string)
    ensures Contains(s, t) <==> exists a, b :: s == a + t + b
  {
    if i: nat :| i <= |s| && ContainsAt(s, t, i) { assert s == s[..i] + t + s[i + |t|..]; }
    if a, b :| s == a + t + b { assert ContainsAt(s, t, |a|) by { assert s[|a|..|a| + |t|] == t; } }
  }

  /** Flags before the path of a listing are passed over. */
  lemma FlagsMean(flag: string, n: nat, arg: string)
    requires flag != "" && flag[0] == '-' && (forall i | 0 <= i < |flag| :: flag[i] != ' ') && n > 0
    requires arg == "" || (arg[0] != '-' && arg[0] != ' ')
    ensures NoFlags(flag + (seq(n, _ => ' ') + arg)) == arg
  {
    CommandOfWord(flag, seq(n, _ => ' ') + arg, |flag|);
    DropSpacesOf(n, arg);
    assert NoFlags(arg) == arg;
  }

  // ---------- commands ----------

  /** The operations a line of session s adds to the log. */
  ghost predicate Adds(sv: Server, r: Server, s: Sess, ops: seq<(Kind, string, string)>) {
    && |r.log| == |sv.log| + |ops| && r.log[..|sv.log|] == sv.log
    && forall i | 0 <= i < |ops| ::
      r.log[|sv.log| + i] == Op(ops[i].0, ops[i].1, ops[i].2, s.sid, s.login.user, s.peer)
  }

  /** One operation on the path if there is one and the file system lets it. */
  ghost predicate AddsIf(sv: Server, r: Server, s: Sess, kind: Kind, path: Option<string>, fs: bool) {
    Adds(sv, r, s, if path.Some? && fs then [(kind, path.value, "")] else [])
  }

  ghost predicate LoggedIn(sv: Server) { sv.sess.Some? && sv.sess.value.login.authed }

  lemma {:induction false} Runs(sv: Server, text: string, env: Env, v: Verb)
    requires LoggedIn(sv) && VerbOf(Command(text, 7)) == v && !BeforeLogin(v)
    ensures Next(sv, Line(text, env)) == DoCommand(sv, sv.sess.value, v, Argument(text), env)
  {
  }

  lemma FileVerbs()
    ensures VerbOf("SIZE") == Size && VerbOf("DELE") == Dele
  {
  }

  lemma DirVerbs()
    ensures VerbOf("MKD") == Mkd && VerbOf("XMKD") == Mkd && VerbOf("RMD") == Rmd && VerbOf("XRMD") == Rmd
  {
  }

  lemma RenameVerbs()
    ensures VerbOf("RNFR") == Rnfr && VerbOf("RNTO") == Rnto
  {
  }

  lemma ListenVerbs()
    ensures VerbOf("PASV") == Pasv && VerbOf("EPSV") == Pasv && VerbOf("ABOR") == Abor
  {
  }

  lemma ListVerbs()
    ensures VerbOf("LIST") == Listing && VerbOf("NLST") == Listing
  {
  }

  lemma TransferVerbs()
    ensures VerbOf("RETR") == Retr && VerbOf("STOR") == Stor
  {
  }

  lemma {:induction false} FileOpAdds(sv: Server, s: Sess, kind: Kind, path: Option<string>, env: Env)
    ensures AddsIf(sv, FileOp(sv, s, kind, path, env), s, kind, path, env.fs)
    ensures FileOp(sv, s, kind, path, env) == sv.(log := FileOp(sv, s, kind, path, env).log)
  {
  }

  function KindOf(cmd: string): Kind {
    if cmd == "SIZE" then Stat else if cmd == "DELE" then Delete
    else if cmd == "MKD" || cmd == "XMKD" then MakeDir else RemoveDir
  }

  lemma {:induction false} FileCommand(sv: Server, text: string, env: Env, v: Verb, kind: Kind)
    requires LoggedIn(sv) && VerbOf(Command(text, 7)) == v
    requires (v, kind) in {(Size, Stat), (Dele, Delete), (Mkd, MakeDir), (Rmd, RemoveDir)}
    ensures var s, r := sv.sess.value, Next(sv, Line(text, env));
      && AddsIf(sv, r, s, kind, PathArg(s.place.cwd, Argument(text), false), env.fs)
      && r == sv.(log := r.log)
  {
    var s := sv.sess.value;
    Runs(sv, text, env, v);
    FileOpAdds(sv, s, kind, PathArg(s.place.cwd, Argument(text), false), env);
  }

  /** Commands on one path: what is done, and that the session stays as it is. */
  lemma {:induction false} FileCommandsMean(sv: Server, text: string, env: Env)
    requires LoggedIn(sv) && Command(text, 7) in {"SIZE", "DELE", "MKD", "XMKD", "RMD", "XRMD"}
    ensures var s, r := sv.sess.value, Next(sv, Line(text, env));
      && AddsIf(sv, r, s, KindOf(Command(text, 7)), PathArg(s.place.cwd, Argument(text), false), env.fs)
      && r == sv.(log := r.log)
  {
    FileVerbs();
    DirVerbs();
    FileCommand(sv, text, env, VerbOf(Command(text, 7)), KindOf(Command(text, 7)));
  }

  /** The first command of a rename selects a path that is there; any other selection is forgotten. */
  lemma {:induction false} SelectMeans(sv: Server, text: string, env: Env)
    requires LoggedIn(sv) && Command(text, 7) == "RNFR"
    ensures var s, r := sv.sess.value, Next(sv, Line(text, env));
      var path := PathArg(s.place.cwd, Argument(text), false);
      var found := path.Some? && env.fs;
      && AddsIf(sv, r, s, Select, path, env.fs)
      && r.sess == Some(s.(place := s.place.(haveRnfr := found, rnfr := if found then path.value else s.place.rnfr)))
      && r == sv.(log := r.log, sess := r.sess)
  {
    RenameVerbs();
    Runs(sv, text, env, Rnfr);
  }

  /** The second one renames what was selected, if anything was, and forgets it in any case. */
  lemma {:induction false} RenameMeans(sv: Server, text: string, env: Env)
    requires LoggedIn(sv) && Command(text, 7) == "RNTO"
    ensures var s, r := sv.sess.value, Next(sv, Line(text, env));
      var path := PathArg(s.place.cwd, Argument(text), false);
      var done := path.Some? && env.fs && s.place.haveRnfr;
      && Adds(sv, r, s, if done then [(Rename, path.value, s.place.rnfr)] else [])
      && r.sess == Some(s.(place := s.place.(haveRnfr := false)))
      && r == sv.(log := r.log, sess := r.sess)
  {
    RenameVerbs();
    Runs(sv, text, env, Rnto);
  }

  /** Changing the directory, to the argument or one up: the new one must be there and fit its buffer. */
  lemma {:induction false} DirectoryCommandsMean(sv: Server, text: string, env: Env)
    requires LoggedIn(sv)
    ensures var s, r, cmd := sv.sess.value, Next(sv, Line(text, env)), Command(text, 7);
      cmd in {"CWD", "CDUP"} ==>
        var path := PathArg(s.place.cwd, if cmd == "CDUP" then ".." else Argument(text), true);
        r == if path.None? || !env.fs || |path.value| >= 128 then sv
             else sv.(sess := Some(s.(place := s.place.(cwd := path.value))))
  {
  }

  /** A passive command gives a new listener in place of the old one, if one can be had. */
  lemma {:induction false} PassiveMeans(sv: Server, text: string, env: Env)
    requires LoggedIn(sv) && Command(text, 7) in {"PASV", "EPSV"}
    ensures var s, r := sv.sess.value, Next(sv, Line(text, env));
      && r.sess == Some(s.(pasv := if env.listener.Some? then env.listener.value else -1))
      && r.listeners == sv.listeners - {s.pasv} + (if env.listener.Some? then {env.listener.value as int} else {})
      && r.log == sv.log && r.guard == sv.guard
  {
    ListenVerbs();
    Runs(sv, text, env, Pasv);
  }

  /** Aborting closes the listener. */
  lemma {:induction false} AbortMeans(sv: Server, text: string, env: Env)
    requires LoggedIn(sv) && Command(text, 7) == "ABOR"
    ensures var s := sv.sess.value;
      Next(sv, Line(text, env)) == sv.(sess := Some(s.(pasv := -1)), listeners := sv.listeners - {s.pasv})
  {
    ListenVerbs();
    Runs(sv, text, env, Abor);
  }

  /** Whether a data connection comes about: there is a listener, and who calls is who the session is with. */
  ghost predicate Connects(s: Sess, env: Env) { s.pasv >= 0 && env.caller == Some(s.peer) }

  lemma {:induction false} TransferAdds(sv: Server, s: Sess, kind: Kind, path: Option<string>, env: Env)
    requires kind in {List, Fetch}
    ensures var r := Transfer(sv, s, kind, path, env);
      if path.None? || !env.fs then r == sv
      else
        && Adds(sv, r, s, [(if kind == List then OpenDir else OpenFile, path.value, "")] +
                          if Connects(s, env) then [(kind, path.value, "")] else [])
        && r.sess == Some(s.(pasv := -1))
  {
  }

  /** Fetching: the file is opened, and its contents go over the data connection if there is one. */
  lemma {:induction false} FetchMeans(sv: Server, text: string, env: Env)
    requires LoggedIn(sv) && Command(text, 7) == "RETR"
    ensures var s, r := sv.sess.value, Next(sv, Line(text, env));
      var path := PathArg(s.place.cwd, Argument(text), false);
      if path.None? || !env.fs then r == sv
      else
        && Adds(sv, r, s, [(OpenFile, path.value, "")] + if Connects(s, env) then [(Fetch, path.value, "")] else [])
        && r.sess == Some(s.(pasv := -1))
  {
    TransferVerbs();
    Runs(sv, text, env, Retr);
    TransferAdds(sv, sv.sess.value, Fetch, PathArg(sv.sess.value.place.cwd, Argument(text), false), env);
  }

  /** Listing, with or without details: the directory named behind the flags, or the current one. */
  lemma {:induction false} ListMeans(sv: Server, text: string, env: Env)
    requires LoggedIn(sv) && Command(text, 7) in {"LIST", "NLST"}
    ensures var s, r, arg := sv.sess.value, Next(sv, Line(text, env)), NoFlags(Argument(text));
      var path := if arg != "" then PathArg(s.place.cwd, arg, true)
                  else if Blocked(s.place.cwd) then None else Some(s.place.cwd);
      if path.None? || !env.fs then r == sv
      else
        && Adds(sv, r, s, [(OpenDir, path.value, "")] + if Connects(s, env) then [(List, path.value, "")] else [])
        && r.sess == Some(s.(pasv := -1))
  {
    ListVerbs();
    Runs(sv, text, env, Listing);
    TransferAdds(sv, sv.sess.value, List, ListPath(sv.sess.value.place.cwd, NoFlags(Argument(text))), env);
  }

  /** What a store adds for a path: see below. */
  function StoreOps(p: string, connected: bool, env: Env): seq<(Kind, string, string)> {
    var tmp := p + ".k85tmp";
    var gone := if env.unlinked then (Discard, tmp, "") else (Stranded, tmp, "");
    if !connected || !env.complete then [(Create, tmp, ""), gone]
    else [(Create, tmp, "")] + (if env.cleared then [(Delete, p, "")] else []) +
         [if env.moved then (Store, p, tmp) else gone]
  }

  /** The operations are what the specification says, by this session. */
  ghost predicate Same(s: Sess, ops: seq<Op>, spec: seq<(Kind, string, string)>) {
    |ops| == |spec| && forall i | 0 <= i < |ops| :: ops[i] == By(s, spec[i].0, spec[i].1, spec[i].2)
  }

  lemma SameTwo(s: Sess, a: seq<Op>, b: seq<Op>, x: seq<(Kind, string, string)>, y: seq<(Kind, string, string)>)
    requires Same(s, a, x) && Same(s, b, y)
    ensures Same(s, a + b, x + y)
  {
  }

  lemma {:induction false} StoreSame(s: Sess, p: string, connected: bool, env: Env)
    ensures Same(s, TransferOps(s, Store, p, connected, env), StoreOps(p, connected, env))
  {
    var tmp := p + ".k85tmp";
    var gone := [if env.unlinked then (Discard, tmp, "") else (Stranded, tmp, "")];
    var cleared := if env.cleared then [(Delete, p, "")] else [];
    var opsCleared := if env.cleared then [By(s, Delete, p, "")] else [];
    var rest := if connected && env.complete then cleared + if env.moved then [(Store, p, tmp)] else gone else gone;
    if connected && env.complete {
      SameTwo(s, opsCleared, if env.moved then [By(s, Store, p, tmp)] else UploadOps(s, p, false, env), cleared,
              if env.moved then [(Store, p, tmp)] else gone);
    }
    SameTwo(s, [By(s, Create, tmp, "")], UploadOps(s, p, connected && env.complete, env), [(Create, tmp, "")], rest);
    assert StoreOps(p, connected, env) == [(Create, tmp, "")] + rest;
  }

  lemma {:induction false} StoreAdds(sv: Server, s: Sess, p: string, env: Env)
    requires env.fs
    ensures var r := Transfer(sv, s, Store, Some(p), env);
      Adds(sv, r, s, StoreOps(p, Connects(s, env), env)) && r.sess == Some(s.(pasv := -1))
  {
    StoreSame(s, p, Connects(s, env), env);
  }

  /** Storing: a temporary file beside the path is made before there is a data connection. Only if everything has come
      the old file goes, and the temporary one takes its place; in all other cases it is removed if that is possible. */
  lemma {:induction false} StoreMeans(sv: Server, text: string, env: Env)
    requires LoggedIn(sv) && Command(text, 7) == "STOR"
    ensures var s, r := sv.sess.value, Next(sv, Line(text, env));
      var path := PathArg(s.place.cwd, Argument(text), false);
      if path.None? || !env.fs then r == sv
      else Adds(sv, r, s, StoreOps(path.value, Connects(s, env), env)) && r.sess == Some(s.(pasv := -1))
  {
    TransferVerbs();
    Runs(sv, text, env, Stor);
    var path := PathArg(sv.sess.value.place.cwd, Argument(text), false);
    if path.Some? && env.fs { StoreAdds(sv, sv.sess.value, path.value, env); }
  }

  lemma {:induction false} QuietVerb(sv: Server, s: Sess, v: Verb, arg: string, env: Env)
    requires !BeforeLogin(v) && v !in {Size, Dele, Mkd, Rmd, Rnfr, Rnto, Listing, Retr, Stor}
    ensures DoCommand(sv, s, v, arg, env).log == sv.log
  {
  }

  lemma {:induction false} QuietWord(cmd: string)
    requires cmd !in {"SIZE", "DELE", "MKD", "XMKD", "RMD", "XRMD", "RNFR", "RNTO", "LIST", "NLST", "RETR", "STOR"}
    ensures VerbOf(cmd) !in {Size, Dele, Mkd, Rmd, Rnfr, Rnto, Listing, Retr, Stor}
  {
  }

  /** Everything else leaves the files alone. */
  lemma {:induction false} OtherLinesTouchNothing(sv: Server, text: string, env: Env)
    requires sv.sess.Some?
    requires Command(text, 7)
             !in {"SIZE", "DELE", "MKD", "XMKD", "RMD", "XRMD", "RNFR", "RNTO", "LIST", "NLST", "RETR", "STOR"}
    ensures Next(sv, Line(text, env)).log == sv.log
  {
    var v := VerbOf(Command(text, 7));
    QuietWord(Command(text, 7));
    if !BeforeLogin(v) { QuietVerb(sv, sv.sess.value, v, Argument(text), env); }
  }

  /** Without a login nothing but logging in and quitting does anything. */
  lemma {:induction false} LoginComesFirst(sv: Server, text: string, env: Env)
    requires sv.sess.Some? && !sv.sess.value.login.authed
    ensures Next(sv, Line(text, env)).log == sv.log
    ensures Command(text, 7) !in {"USER", "PASS", "QUIT"} ==> Next(sv, Line(text, env)) == sv
  {
  }

  // ---------- login ----------

  /** A name takes the login away and is kept cut to 39 characters; no name changes nothing. */
  lemma {:induction false} UserMeans(sv: Server, text: string, env: Env)
    requires sv.sess.Some? && Command(text, 7) == "USER"
    ensures var s, r, arg := sv.sess.value, Next(sv, Line(text, env)), Argument(text);
      r == if arg == "" then sv
           else sv.(sess := Some(s.(login := s.login.(user := if |arg| < 40 then arg else arg[..39], userGiven := true,
                                                      authed := false))))
  {
  }

  /** Every session starts without a login, and ends with a word, or when the line is cut: its listener goes with it. */
  lemma {:induction false} SessionsMean(sv: Server, peer: int, text: string, env: Env)
    ensures sv.sess.None? ==>
              var r := Next(sv, Connect(peer));
              && r == sv.(sess := r.sess, served := r.served)
              && r.sess.Some? && !r.sess.value.login.authed && !r.sess.value.login.userGiven
              && r.sess.value.login.fails == 0 && r.sess.value.peer == peer && r.sess.value.place.cwd == "/"
              && !r.sess.value.place.haveRnfr && r.sess.value.pasv == -1
    ensures sv.sess.Some? && Command(text, 7) == "QUIT" ==>
              var r := sv.(sess := None, listeners := sv.listeners - {sv.sess.value.pasv});
              Next(sv, Line(text, env)) == r && Next(sv, Hangup) == r
  {
  }

  /** A password: while the door is closed the session ends. Otherwise it counts; the third failure of a session ends
      it, and the sixth in a row over all sessions closes the door for five minutes after the delay. */
  lemma {:induction false} PassMeans(sv: Server, text: string, env: Env)
    requires sv.sess.Some? && Command(text, 7) == "PASS"
    ensures var s, r, g := sv.sess.value, Next(sv, Line(text, env)), sv.guard;
      var right := s.login.userGiven && env.user == Some(s.login.user) && env.verified;
      && (env.now < g.lockUntil ==> r.sess == None && r.guard == g)
      && (env.now >= g.lockUntil && right ==>
            && r.sess == Some(s.(login := s.login.(authed := true))) && r.guard.fails == 0
            && r.guard.lockUntil == g.lockUntil)
      && (env.now >= g.lockUntil && !right ==>
            && (r.sess == None <==> s.login.fails >= 2)
            && (r.sess.Some? ==> r.sess.value.login == s.login.(authed := false, fails := s.login.fails + 1))
            && r.guard.fails == (if g.fails >= 5 then 0 else g.fails + 1)
            && r.guard.lockUntil == if g.fails >= 5 then env.now + env.delay + 300_000_000 else g.lockUntil)
  {
  }
}
