/** FTP sessions: what a client can reach by any sequence of commands, and how often it can guess. */
module FtpSession {
  import opened CBuffer
  import opened CScan
  import opened CText
  import opened FsGuard
  import opened Options
  import opened FtpPath

  const VIRT: nat := 192
  const CWD_SIZE: nat := 128
  const LOCK_US: int := 300 * 1000000

  // ---------- commands ----------

  /** The first characters of the line up to a blank, seven at most, in upper case. */
  function Command(line: string, room: nat): string {
    if line == "" || line[0] == ' ' || room == 0 then "" else [Upper(line[0])] + Command(line[1..], room - 1)
  }

  function DropWord(s: string): string { if s == "" || s[0] == ' ' then s else DropWord(s[1..]) }

  function DropSpaces(s: string): (r: string)
    ensures |r| <= |s|
  {
    if s == "" || s[0] != ' ' then s else DropSpaces(s[1..])
  }

  function Argument(line: string): string { DropSpaces(DropWord(line)) }

  /** The argument of a listing without its flags. */
  function NoFlags(arg: string): string
    decreases |arg|
  {
    if arg == "" || arg[0] != '-' then arg
    else
      DropWordShorter(arg);
      NoFlags(DropSpaces(DropWord(arg)))
  }

  lemma {:induction false} DropWordShorter(s: string)
    ensures |DropWord(s)| <= |s| && (s != "" && s[0] != ' ' ==> |DropWord(s)| < |s|)
  {
    if s != "" && s[0] != ' ' { DropWordShorter(s[1..]); }
  }

  /** The commands that do something, and those that are only answered, before or after the login. */
  datatype Verb = User | Pass | Quit | Polite | Cwd | Cdup | Pasv | Listing | Retr | Stor | Size | Dele | Mkd | Rmd
                | Rnfr | Rnto | Abor | Other

  function VerbOf(cmd: string): Verb {
    if cmd == "USER" then User else if cmd == "PASS" then Pass else if cmd == "QUIT" then Quit
    else if cmd in {"SYST", "FEAT", "OPTS", "NOOP"} then Polite
    else if cmd == "CWD" then Cwd else if cmd == "CDUP" then Cdup
    else if cmd in {"PASV", "EPSV"} then Pasv
    else if cmd in {"LIST", "NLST"} then Listing
    else if cmd == "RETR" then Retr else if cmd == "STOR" then Stor
    else if cmd == "SIZE" then Size else if cmd == "DELE" then Dele
    else if cmd in {"MKD", "XMKD"} then Mkd
    else if cmd in {"RMD", "XRMD"} then Rmd
    else if cmd == "RNFR" then Rnfr else if cmd == "RNTO" then Rnto
    else if cmd == "ABOR" then Abor
    else Other
  }

  predicate BeforeLogin(v: Verb) { v == User || v == Pass || v == Quit || v == Polite }

  // ---------- state ----------

  datatype Kind =
    | OpenDir | OpenFile | Create           // what a transfer does first
    | Discard | Stranded                    // a temporary file was removed, or could not be
    | List | Fetch | Store | Stat | Delete | MakeDir | RemoveDir | Select | Rename

  /** A file operation that was carried out: on what (and from where), by which session, under which name, and for
      a transfer to whom. */
  datatype Op = Op(kind: Kind, path: string, from: string, sid: nat, user: string, peer: int)

  /** A password check: when, whether it passed, whether it closed the door for all, and whether a new hash of the
      password was stored in place of an old unsalted one. */
  datatype Try = Try(time: int, ok: bool, locks: bool, renewed: bool)

  datatype Login = Login(authed: bool, userGiven: bool, user: string, fails: nat)

  datatype Place = Place(cwd: string, haveRnfr: bool, rnfr: string)

  /** One session, with its number; the passive listener is negative when there is none. */
  datatype Sess = Sess(sid: nat, login: Login, place: Place, pasv: int, peer: int)

  datatype Guard = Guard(fails: nat, lockUntil: int, tries: seq<Try>)

  /** Sessions are numbered in the order they were accepted. */
  datatype Server = Server(guard: Guard, served: nat, sess: Option<Sess>, listeners: set<int>, log: seq<Op>)

  /** What is outside: the clock, and how long it is held up after a failure; the configured name, if there is a
      login at all, whether the password given is the one stored, whether that is stored the old way and a new hash
      can be made; the file system, a fresh listener, who calls back; whether an upload was written to its end,
      whether there was an old file that could be removed, whether the temporary one could be moved into its place,
      or removed. */
  datatype Env = Env(now: int, delay: nat, user: Option<string>, verified: bool, unsalted: bool, hashed: bool, fs: bool,
                     listener: Option<nat>, caller: Option<int>,
                     complete: bool, cleared: bool, moved: bool, unlinked: bool)

  datatype Event = Connect(peer: int) | Line(text: string, env: Env) | Hangup

  const INITIAL: Server := Server(Guard(0, 0, []), 0, None, {}, [])

  // ---------- steps ----------

  /** A path a command may use: resolved, not blocked, and the root only where it makes sense. */
  function PathArg(cwd: string, arg: string, allowRoot: bool): Option<string> {
    if arg == "" then None
    else
      match Resolve(cwd, arg, VIRT)
      case None => None
      case Some(v) => if Blocked(v) || (v == "/" && !allowRoot) then None else Some(v)
  }

  function ListPath(cwd: string, arg: string): Option<string> {
    var r := if arg == "" then Some(cwd) else Resolve(cwd, arg, VIRT);
    if r.None? || Blocked(r.value) then None else r
  }

  function ClosePasv(sv: Server, s: Sess): Server {
    sv.(sess := Some(s.(pasv := -1)), listeners := sv.listeners - {s.pasv})
  }

  function EndSession(sv: Server, s: Sess): Server { ClosePasv(sv, s).(sess := None) }

  /** The old listener is closed first; a new one is kept only if it could be opened. */
  function DoPasv(sv: Server, s: Sess, env: Env): Server {
    var closed := ClosePasv(sv, s);
    match env.listener
    case None => closed
    case Some(n) => closed.(sess := Some(s.(pasv := n)), listeners := closed.listeners + {n as int})
  }

  /** One password check; the sixth failure in a row, over all sessions, closes the door. */
  function Checked(g: Guard, env: Env, ok: bool): Guard {
    if ok then Guard(0, g.lockUntil, g.tries + [Try(env.now, true, false, env.unsalted && env.hashed)])
    else if g.fails + 1 >= 6 then
      Guard(0, env.now + env.delay + LOCK_US, g.tries + [Try(env.now, false, true, false)])
    else Guard(g.fails + 1, g.lockUntil, g.tries + [Try(env.now, false, false, false)])
  }

  /** The password check: a name was given, it is the configured one and the password is the one stored. */
  predicate PassOk(s: Sess, env: Env) { s.login.userGiven && env.user == Some(s.login.user) && env.verified }

  /** The check counted, in the session and over all of them. */
  function Tried(sv: Server, s: Sess, env: Env): Server {
    var ok := PassOk(s, env);
    sv.(guard := Checked(sv.guard, env, ok),
        sess := Some(s.(login := s.login.(authed := ok, fails := if ok then s.login.fails else s.login.fails + 1))))
  }

  function DoPass(sv: Server, s: Sess, env: Env): Server {
    if env.now < sv.guard.lockUntil then EndSession(sv, s)
    else
      var r := Tried(sv, s, env);
      if !r.sess.value.login.authed && r.sess.value.login.fails >= 3 then EndSession(r, r.sess.value) else r
  }

  function By(s: Sess, kind: Kind, path: string, from: string): Op {
    Op(kind, path, from, s.sid, s.login.user, s.peer)
  }

  function Opening(kind: Kind): Kind { if kind == List then OpenDir else if kind == Fetch then OpenFile else Create }

  /** A complete upload is moved from its temporary file into the place of the old file; otherwise the temporary file
      is removed, if that is possible. */
  function UploadOps(s: Sess, path: string, complete: bool, env: Env): seq<Op> {
    var gone := [By(s, if env.unlinked then Discard else Stranded, path + TMP, "")];
    if !complete then gone
    else
      (if env.cleared then [By(s, Delete, path, "")] else []) +
      if env.moved then [By(s, Store, path, path + TMP)] else gone
  }

  /** What is sent, or the temporary file of an upload, is opened before there is a data connection. */
  function TransferOps(s: Sess, kind: Kind, path: string, accepted: bool, env: Env): seq<Op> {
    [By(s, Opening(kind), if kind == Store then path + TMP else path, "")] +
    if kind == Store then UploadOps(s, path, accepted && env.complete, env)
    else if accepted then [By(s, kind, path, "")]
    else []
  }

  /** A transfer takes the listener down, and goes through only to the address the session came from. */
  function Transfer(sv: Server, s: Sess, kind: Kind, path: Option<string>, env: Env): Server {
    if path.None? || !env.fs then sv
    else
      var accepted := s.pasv >= 0 && env.caller == Some(s.peer);
      ClosePasv(sv, s).(log := sv.log + TransferOps(s, kind, path.value, accepted, env))
  }

  function FileOp(sv: Server, s: Sess, kind: Kind, path: Option<string>, env: Env): Server {
    if path.None? || !env.fs then sv else sv.(log := sv.log + [By(s, kind, path.value, "")])
  }

  function DoCwd(sv: Server, s: Sess, path: Option<string>, env: Env): Server {
    if path.None? || !env.fs || |path.value| >= CWD_SIZE then sv
    else sv.(sess := Some(s.(place := s.place.(cwd := path.value))))
  }

  function DoRnfr(sv: Server, s: Sess, path: Option<string>, env: Env): Server {
    if path.None? || !env.fs then sv.(sess := Some(s.(place := s.place.(haveRnfr := false))))
    else
      sv.(sess := Some(s.(place := s.place.(haveRnfr := true, rnfr := path.value))),
          log := sv.log + [By(s, Select, path.value, "")])
  }

  function DoRnto(sv: Server, s: Sess, path: Option<string>, env: Env): Server {
    var sv1 := sv.(sess := Some(s.(place := s.place.(haveRnfr := false))));
    if !s.place.haveRnfr || path.None? || !env.fs then sv1
    else sv1.(log := sv.log + [By(s, Rename, path.value, s.place.rnfr)])
  }

  function DoUser(sv: Server, s: Sess, arg: string): Server {
    if arg == "" then sv
    else sv.(sess := Some(s.(login := s.login.(user := Clip(arg, 40), userGiven := true, authed := false))))
  }

  /** Commands allowed before the login. */
  function DoLogin(sv: Server, s: Sess, v: Verb, arg: string, env: Env): Server {
    match v
    case User => DoUser(sv, s, arg)
    case Pass => DoPass(sv, s, env)
    case Quit => EndSession(sv, s)
    case _ => sv
  }

  /** Commands that need the login. */
  function DoCommand(sv: Server, s: Sess, v: Verb, arg: string, env: Env): Server {
    var path := PathArg(s.place.cwd, arg, false);
    match v
    case Cwd => DoCwd(sv, s, PathArg(s.place.cwd, arg, true), env)
    case Cdup => DoCwd(sv, s, PathArg(s.place.cwd, "..", true), env)
    case Pasv => DoPasv(sv, s, env)
    case Listing => Transfer(sv, s, List, ListPath(s.place.cwd, NoFlags(arg)), env)
    case Retr => Transfer(sv, s, Fetch, path, env)
    case Stor => Transfer(sv, s, Store, path, env)
    case Size => FileOp(sv, s, Stat, path, env)
    case Dele => FileOp(sv, s, Delete, path, env)
    case Mkd => FileOp(sv, s, MakeDir, path, env)
    case Rmd => FileOp(sv, s, RemoveDir, path, env)
    case Rnfr => DoRnfr(sv, s, path, env)
    case Rnto => DoRnto(sv, s, path, env)
    case Abor => ClosePasv(sv, s)
    case _ => sv
  }

  /** One line of a session. */
  function DoLine(sv: Server, s: Sess, v: Verb, arg: string, env: Env): Server {
    if BeforeLogin(v) then DoLogin(sv, s, v, arg, env)
    else if !s.login.authed then sv
    else DoCommand(sv, s, v, arg, env)
  }

  function Accepted(sv: Server, peer: int): Server {
    sv.(served := sv.served + 1,
        sess := Some(Sess(sv.served + 1, Login(false, false, "", 0), Place("/", false, ""), -1, peer)))
  }

  function Next(sv: Server, e: Event): Server {
    match e
    case Connect(peer) => if sv.sess.Some? then sv else Accepted(sv, peer)
    case Hangup => if sv.sess.None? then sv else EndSession(sv, sv.sess.value)
    case Line(text, env) =>
      if sv.sess.None? then sv
      else DoLine(sv, sv.sess.value, VerbOf(Command(text, 7)), Argument(text), env)
  }

  function Run(es: seq<Event>): Server {
    if es == [] then INITIAL else Next(Run(es[..|es|-1]), es[|es|-1])
  }

  // ---------- what every run keeps ----------

  /** A path in normal form below the root, shorter than `size`, that is not blocked. */
  ghost predicate AllowedIn(p: string, size: nat) {
    !Blocked(p) && |p| < size && exists stack :: Canonical(stack, size) && p == Path(stack)
  }

  ghost predicate Allowed(p: string) { AllowedIn(p, VIRT) }

  /** What a client may name: such a path, the root excepted. */
  ghost predicate File(p: string) { Allowed(p) && p != "/" }

  /** The temporary file of such a path. */
  ghost predicate Temp(p: string) { exists q :: File(q) && p == q + TMP }

  /** Directories are listed, temporary files made and removed, files moved from their temporary file, sources
      renamed; everything else happens to files a client may name. */
  ghost predicate OpOk(op: Op) {
    match op.kind
    case OpenDir | List => Allowed(op.path)
    case Create | Discard | Stranded => Temp(op.path) && AllowedIn(op.path, VIRT + |TMP|)
    case Store => File(op.path) && op.from == op.path + TMP
    case Rename => File(op.path) && File(op.from)
    case _ => File(op.path)
  }

  ghost predicate SessOk(s: Sess) {
    && s.login.fails < 3
    && |s.place.cwd| < CWD_SIZE && (exists stack :: Canonical(stack, VIRT) && s.place.cwd == Path(stack))
    && (s.place.haveRnfr ==> File(s.place.rnfr))
  }

  ghost predicate ListenersOk(sv: Server) {
    sv.listeners == if sv.sess.Some? && sv.sess.value.pasv >= 0 then {sv.sess.value.pasv} else {}
  }

  ghost predicate Inv(sv: Server) {
    && (sv.sess.Some? ==> SessOk(sv.sess.value))
    && ListenersOk(sv)
    && forall i | 0 <= i < |sv.log| :: OpOk(sv.log[i])
  }

  lemma PathArgAllowed(cwd: string, arg: string, allowRoot: bool)
    ensures var r := PathArg(cwd, arg, allowRoot);
      r.Some? ==> Allowed(r.value) && (r.value == "/" ==> allowRoot)
  {
    ResolveCanonical(cwd, arg, VIRT);
  }

  lemma ListPathAllowed(s: Sess, arg: string)
    requires SessOk(s)
    ensures var r := ListPath(s.place.cwd, arg); r.Some? ==> Allowed(r.value)
  {
    ResolveCanonical(s.place.cwd, arg, VIRT);
  }

  /** The session is there, logged in, and everything is in order. */
  ghost predicate Ready(sv: Server, s: Sess) { Inv(sv) && sv.sess == Some(s) && s.login.authed }

  /** A path that a command may use, if it has one. */
  ghost predicate Usable(path: Option<string>, rootToo: bool) {
    path.Some? ==> Allowed(path.value) && (rootToo || path.value != "/")
  }

  lemma LogKeepsInv(sv: Server, op: Op)
    requires Inv(sv) && OpOk(op)
    ensures Inv(sv.(log := sv.log + [op]))
  {
  }

  lemma ClosePasvKeepsInv(sv: Server, s: Sess)
    requires Inv(sv) && sv.sess == Some(s)
    ensures Inv(ClosePasv(sv, s)) && ClosePasv(sv, s).listeners == {}
  {
  }

  /** A path with the ending of a temporary file is in normal form again. */
  lemma TempAllowed(p: string)
    requires File(p)
    ensures AllowedIn(p + TMP, VIRT + |TMP|) && Temp(p + TMP)
  {
    TempBlockedIff(p);
    var stack :| Canonical(stack, VIRT) && p == Path(stack);
    var n := |stack| - 1;
    var name := stack[n] + TMP;
    var longer := stack[..n] + [name];
    assert longer[..|longer|-1] == stack[..n];
    assert Text(longer) == Text(stack) + TMP;
    forall i | 0 <= i < |longer| ensures Name(longer[i]) {
      assert Name(stack[i]);
      if i == n { NameLonger(stack[n]); }
    }
    assert Canonical(longer, VIRT + |TMP|);
  }

  lemma NameLonger(c: string)
    requires Name(c)
    ensures Name(c + TMP)
  {
  }

  lemma UploadOk(s: Sess, path: string, complete: bool, env: Env)
    requires File(path)
    ensures forall i | 0 <= i < |UploadOps(s, path, complete, env)| :: OpOk(UploadOps(s, path, complete, env)[i])
  {
    TempAllowed(path);
  }

  lemma OpsKeepInv(sv: Server, ops: seq<Op>)
    requires Inv(sv) && forall i | 0 <= i < |ops| :: OpOk(ops[i])
    ensures Inv(sv.(log := sv.log + ops))
  {
  }

  lemma TransferOpsOk(s: Sess, kind: Kind, path: string, accepted: bool, env: Env)
    requires Allowed(path) && (kind == List || File(path)) && kind in {List, Fetch, Store}
    ensures var ops := TransferOps(s, kind, path, accepted, env); forall i | 0 <= i < |ops| :: OpOk(ops[i])
  {
    if kind == Store {
      TempAllowed(path);
      UploadOk(s, path, accepted && env.complete, env);
    }
  }

  lemma TransferKeepsInv(sv: Server, s: Sess, kind: Kind, path: Option<string>, env: Env)
    requires Ready(sv, s) && Usable(path, kind == List) && kind in {List, Fetch, Store}
    ensures Inv(Transfer(sv, s, kind, path, env))
  {
    ClosePasvKeepsInv(sv, s);
    if path.Some? {
      var accepted := s.pasv >= 0 && env.caller == Some(s.peer);
      TransferOpsOk(s, kind, path.value, accepted, env);
      OpsKeepInv(ClosePasv(sv, s), TransferOps(s, kind, path.value, accepted, env));
    }
  }

  lemma FileOpKeepsInv(sv: Server, s: Sess, kind: Kind, path: Option<string>, env: Env)
    requires Ready(sv, s) && Usable(path, false) && kind in {Stat, Delete, MakeDir, RemoveDir}
    ensures Inv(FileOp(sv, s, kind, path, env))
  {
    if path.Some? { LogKeepsInv(sv, By(s, kind, path.value, "")); }
  }

  lemma RenameKeepsInv(sv: Server, s: Sess, path: Option<string>, env: Env)
    requires Ready(sv, s) && Usable(path, false)
    ensures Inv(DoRnfr(sv, s, path, env)) && Inv(DoRnto(sv, s, path, env))
  {
    if path.Some? {
      LogKeepsInv(sv, By(s, Select, path.value, ""));
      if s.place.haveRnfr { LogKeepsInv(sv, By(s, Rename, path.value, s.place.rnfr)); }
    }
  }

  lemma CwdKeepsInv(sv: Server, s: Sess, path: Option<string>, env: Env)
    requires Ready(sv, s) && Usable(path, true)
    ensures Inv(DoCwd(sv, s, path, env))
  {
  }

  lemma OpenedKeepsInv(sv: Server, s: Sess, n: nat)
    requires Inv(sv) && sv.sess == Some(s) && sv.listeners == {}
    ensures Inv(sv.(sess := Some(s.(pasv := n)), listeners := sv.listeners + {n as int}))
  {
  }

  lemma PasvKeepsInv(sv: Server, s: Sess, env: Env)
    requires Ready(sv, s)
    ensures Inv(DoPasv(sv, s, env))
  {
    ClosePasvKeepsInv(sv, s);
    if env.listener.Some? { OpenedKeepsInv(ClosePasv(sv, s), s.(pasv := -1), env.listener.value); }
  }

  lemma CommandKeepsInv(sv: Server, s: Sess, v: Verb, arg: string, env: Env)
    requires Ready(sv, s)
    ensures Inv(DoCommand(sv, s, v, arg, env))
  {
    var cwd := s.place.cwd;
    var path := PathArg(cwd, arg, false);
    PathArgAllowed(cwd, arg, false);
    match v
    case Cwd => PathArgAllowed(cwd, arg, true); CwdKeepsInv(sv, s, PathArg(cwd, arg, true), env);
    case Cdup => PathArgAllowed(cwd, "..", true); CwdKeepsInv(sv, s, PathArg(cwd, "..", true), env);
    case Pasv => PasvKeepsInv(sv, s, env);
    case Listing =>
      ListPathAllowed(s, NoFlags(arg));
      TransferKeepsInv(sv, s, List, ListPath(cwd, NoFlags(arg)), env);
    case Retr => TransferKeepsInv(sv, s, Fetch, path, env);
    case Stor => TransferKeepsInv(sv, s, Store, path, env);
    case Size => FileOpKeepsInv(sv, s, Stat, path, env);
    case Dele => FileOpKeepsInv(sv, s, Delete, path, env);
    case Mkd => FileOpKeepsInv(sv, s, MakeDir, path, env);
    case Rmd => FileOpKeepsInv(sv, s, RemoveDir, path, env);
    case Rnfr => RenameKeepsInv(sv, s, path, env);
    case Rnto => RenameKeepsInv(sv, s, path, env);
    case Abor => ClosePasvKeepsInv(sv, s);
    case _ =>
  }

  lemma LoginKeepsInv(sv: Server, s: Sess, v: Verb, arg: string, env: Env)
    requires Inv(sv) && sv.sess == Some(s)
    ensures Inv(DoLogin(sv, s, v, arg, env))
  {
    ClosePasvKeepsInv(sv, s);
  }

  lemma {:induction false} RunKeepsInv(es: seq<Event>)
    ensures Inv(Run(es))
  {
    if es != [] {
      var sv, e := Run(es[..|es|-1]), es[|es|-1];
      RunKeepsInv(es[..|es|-1]);
      match e
      case Connect(_) => assert Path([]) == "/" && Canonical([], VIRT);
      case Hangup =>
      case Line(text, env) =>
        if sv.sess.Some? {
          var s, v := sv.sess.value, VerbOf(Command(text, 7));
          LoginKeepsInv(sv, s, v, Argument(text), env);
          if s.login.authed { CommandKeepsInv(sv, s, v, Argument(text), env); }
        }
    }
  }

  // ---------- main results ----------

  /** In every run, every file operation was made on a path in normal form below the root that is not blocked; a
      rename was from such a path too. */
  lemma OperationsStayInside(es: seq<Event>, i: nat)
    requires i < |Run(es).log|
    ensures OpOk(Run(es).log[i])
  {
    RunKeepsInv(es);
  }

  /** In every run at most one passive listener is open, and none without a session. */
  lemma ListenersAreClosed(es: seq<Event>)
    ensures |Run(es).listeners| <= 1 && (Run(es).sess == None ==> Run(es).listeners == {})
  {
    RunKeepsInv(es);
  }

  /** r's log is sv's and operations of session s. */
  ghost predicate OpsOf(sv: Server, s: Sess, r: Server) {
    && sv.log <= r.log
    && forall i | |sv.log| <= i < |r.log| ::
      r.log[i].sid == s.sid && r.log[i].user == s.login.user && r.log[i].peer == s.peer
  }

  /** What an event adds to the log are operations of a session that is logged in, under its name and for its
      address. */
  lemma LoggedInToOperate(sv: Server, e: Event)
    ensures var r := Next(sv, e);
      r.log == sv.log || (sv.sess.Some? && sv.sess.value.login.authed && OpsOf(sv, sv.sess.value, r))
  {
    if e.Line? && sv.sess.Some? {
      LineLogsOwn(sv, sv.sess.value, VerbOf(Command(e.text, 7)), Argument(e.text), e.env);
    }
  }

  lemma TransferLogsOwn(sv: Server, s: Sess, kind: Kind, path: Option<string>, env: Env)
    ensures OpsOf(sv, s, Transfer(sv, s, kind, path, env))
  {
    if path.Some? && env.fs {
      var ops := TransferOps(s, kind, path.value, s.pasv >= 0 && env.caller == Some(s.peer), env);
      assert forall i | 0 <= i < |ops| :: ops[i].sid == s.sid && ops[i].user == s.login.user && ops[i].peer == s.peer;
    }
  }

  /** The commands that transfer nothing. */
  lemma {:induction false} OthersLogOwn(sv: Server, s: Sess, v: Verb, arg: string, env: Env)
    requires v !in {Listing, Retr, Stor}
    ensures OpsOf(sv, s, DoCommand(sv, s, v, arg, env))
  {
  }

  lemma {:induction false} CommandLogsOwn(sv: Server, s: Sess, v: Verb, arg: string, env: Env)
    ensures OpsOf(sv, s, DoCommand(sv, s, v, arg, env))
  {
    match v
    case Listing => TransferLogsOwn(sv, s, List, ListPath(s.place.cwd, NoFlags(arg)), env);
    case Retr => TransferLogsOwn(sv, s, Fetch, PathArg(s.place.cwd, arg, false), env);
    case Stor => TransferLogsOwn(sv, s, Store, PathArg(s.place.cwd, arg, false), env);
    case _ => OthersLogOwn(sv, s, v, arg, env);
  }

  lemma {:induction false} LineLogsOwn(sv: Server, s: Sess, v: Verb, arg: string, env: Env)
    ensures var r := DoLine(sv, s, v, arg, env);
      r.log == sv.log || (s.login.authed && OpsOf(sv, s, r))
  {
    CommandLogsOwn(sv, s, v, arg, env);
  }

  // ---------- the small loops ----------

  /** The comparison of secrets: always to the end of the shorter text. */
  method CtEq(a: string, b: string) returns (eq: bool)
    ensures eq <==> a == b
  {
    var d := |a| != |b|;
    var n := if |a| < |b| then |a| else |b|;
    for i := 0 to n
      invariant d <==> |a| != |b| || a[..i] != b[..i]
    {
      assert a[..i + 1] == a[..i] + [a[i]] && b[..i + 1] == b[..i] + [b[i]];
      d := d || a[i] != b[i];
    }
    assert a[..|a|] == a && b[..|b|] == b;
    eq := !d;
  }

  method ParseLine(line: string) returns (cmd: string, arg: string)
    ensures cmd == Command(line, 7) && arg == Argument(line)
  {
    var k;
    ghost var rest;
    cmd, k, rest := TakeCommand(line);
    k := PassWord(line, k, rest);
    k := PassSpaces(line, k, DropWord(rest));
    arg := line[k..];
    assert arg == DropSpaces(DropWord(rest));
  }

  method TakeCommand(line: string) returns (cmd: string, k: nat, ghost rest: string)
    ensures cmd == Command(line, 7) && Tail(line, k, rest) && DropWord(rest) == DropWord(line)
  {
    cmd, k, rest := "", 0, line;
    while k < |line| && line[k] != ' ' && k < 7
      invariant k <= 7 && Tail(line, k, rest) && DropWord(rest) == DropWord(line)
      invariant cmd + Command(rest, 7 - k) == Command(line, 7)
      decreases |rest|
    {
      assert rest[0] == line[k + 0];
      CommandStep(cmd, rest, 7 - k);
      cmd, k, rest := cmd + [Upper(line[k])], k + 1, rest[1..];
    }
    assert k < |line| ==> rest[0] == line[k + 0];
    assert cmd + "" == cmd;
  }

  lemma CommandStep(cmd: string, rest: string, room: nat)
    requires rest != "" && rest[0] != ' ' && room > 0
    ensures cmd + Command(rest, room) == cmd + [Upper(rest[0])] + Command(rest[1..], room - 1)
  {
  }

  method PassWord(line: string, p: nat, ghost rest: string) returns (k: nat)
    requires Tail(line, p, rest)
    ensures Tail(line, k, DropWord(rest))
  {
    k := p;
    ghost var more := rest;
    while k < |line| && line[k] != ' '
      invariant Tail(line, k, more) && DropWord(more) == DropWord(rest)
      decreases |more|
    {
      assert more[0] == line[k + 0];
      k, more := k + 1, more[1..];
    }
    assert k < |line| ==> more[0] == line[k + 0];
  }

  method PassSpaces(line: string, p: nat, ghost rest: string) returns (k: nat)
    requires Tail(line, p, rest)
    ensures Tail(line, k, DropSpaces(rest))
  {
    k := p;
    ghost var more := rest;
    while k < |line| && line[k] == ' '
      invariant Tail(line, k, more) && DropSpaces(more) == DropSpaces(rest)
      decreases |more|
    {
      assert more[0] == line[k + 0];
      k, more := k + 1, more[1..];
    }
    assert k < |line| ==> more[0] == line[k + 0];
  }
}
