/** The FTP server's variables and the commands that change them. */
module FtpServer {
  import opened CText
  import opened FsGuard
  import opened Options
  import opened FtpPath
  import FtpResolver
  import opened FtpSession

  class Connection {
    // across sessions
    var globFails: nat
    var globLockUntil: int
    var served: nat
    // the session
    var connected: bool
    var sid: nat
    var authed: bool
    var userGiven: bool
    var haveRnfr: bool
    var fails: nat
    var user: string
    var cwd: string
    var rnfr: string
    var pasv: int
    var peerIp: int
    // kept only for the statements
    ghost var tries: seq<Try>
    ghost var listeners: set<int>
    ghost var log: seq<Op>

    ghost function Session(): Sess
      reads this
    {
      Sess(sid, Login(authed, userGiven, user, fails), Place(cwd, haveRnfr, rnfr), pasv, peerIp)
    }

    ghost function Now(): Server
      reads this
    {
      var sess := if connected then Some(Session()) else None;
      Server(Guard(globFails, globLockUntil, tries), served, sess, listeners, log)
    }

    constructor ()
      ensures Now() == INITIAL
    {
      globFails, globLockUntil, served, sid, connected := 0, 0, 0, 0, false;
      authed, userGiven, haveRnfr, fails := false, false, false, 0;
      user, cwd, rnfr, pasv, peerIp := "", "/", "", -1, 0;
      tries, listeners, log := [], {}, [];
    }

    method Accept(peer: int)
      requires !connected
      modifies this
      ensures Now() == Accepted(old(Now()), peer)
    {
      ForgetLogin();
      ForgetPlace();
      served := served + 1;
      connected, sid, pasv, peerIp := true, served, -1, peer;
    }

    method ForgetLogin()
      modifies this`authed, this`userGiven, this`fails, this`user
      ensures Session().login == Login(false, false, "", 0)
    {
      authed, userGiven, fails, user := false, false, 0, "";
    }

    method ForgetPlace()
      modifies this`haveRnfr, this`cwd, this`rnfr
      ensures Session().place == Place("/", false, "")
    {
      haveRnfr, cwd, rnfr := false, "/", "";
    }

    method Close()
      requires connected
      modifies this
      ensures Now() == EndSession(old(Now()), old(Session()))
    {
      CloseListener();
      connected := false;
    }

    method CloseListener()
      requires connected
      modifies this`pasv, this`listeners
      ensures Now() == ClosePasv(old(Now()), old(Session()))
    {
      listeners := listeners - {pasv};
      pasv := -1;
    }

    method OpenPasv(env: Env)
      requires connected
      modifies this`pasv, this`listeners
      ensures Now() == DoPasv(old(Now()), old(Session()), env)
    {
      CloseListener();
      if env.listener.Some? {
        pasv := env.listener.value;
        listeners := listeners + {pasv};
      }
    }

    /** The path an argument names, as the resolver leaves it in its buffer. */
    method ReadPath(arg: string) returns (r: Option<string>)
      ensures r == Resolve(cwd, arg, VIRT)
    {
      var virt := new char[VIRT];
      var ok := FtpResolver.ResolveInto(cwd, arg, virt);
      if !ok { return None; }
      ghost var v := Resolve(cwd, arg, VIRT).value;
      ResolveNulFree(cwd, arg, VIRT);
      CStrUnique(virt[..], |v|);
      r := Some(CStr(virt[..]));
    }

    method ReadArg(arg: string, allowRoot: bool) returns (r: Option<string>)
      ensures r == PathArg(cwd, arg, allowRoot)
    {
      if arg == "" { return None; }
      r := ReadPath(arg);
      if r.None? { return; }
      var blocked := IsBlocked(r.value);
      if blocked || (!allowRoot && r.value == "/") { r := None; }
    }

    /** The directory to be listed: the current one if none is given. */
    method ReadDir(arg: string) returns (r: Option<string>)
      ensures r == ListPath(cwd, arg)
    {
      if arg == "" { r := Some(cwd); } else { r := ReadPath(arg); }
      if r.None? { return; }
      var blocked := IsBlocked(r.value);
      if blocked { r := None; }
    }

    /** Takes the caller if it is the session's own peer; the listener goes in any case. */
    method DataAccept(env: Env) returns (accepted: bool)
      requires connected
      modifies this`pasv, this`listeners
      ensures Now() == ClosePasv(old(Now()), old(Session()))
      ensures accepted <==> old(pasv) >= 0 && env.caller == Some(peerIp)
    {
      var open := pasv >= 0;
      CloseListener();
      accepted := open && env.caller.Some? && env.caller.value == peerIp;
    }

    /** Opens what is to be sent, or the temporary file of an upload, before it takes a data connection. */
    method Transfer(kind: Kind, path: Option<string>, env: Env)
      requires connected
      modifies this`pasv, this`listeners, this`log
      ensures Now() == FtpSession.Transfer(old(Now()), old(Session()), kind, path, env)
    {
      if path.None? || !env.fs { return; }
      log := log + [By(Session(), Opening(kind), if kind == Store then path.value + TMP else path.value, "")];
      var accepted := DataAccept(env);
      if kind == Store {
        FinishUpload(path.value, accepted && env.complete, env);
      } else if accepted {
        log := log + [By(Session(), kind, path.value, "")];
      }
    }

    /** A complete upload takes the place of the old file; otherwise the temporary file goes. */
    method FinishUpload(path: string, complete: bool, env: Env)
      modifies this`log
      ensures log == old(log) + UploadOps(Session(), path, complete, env)
    {
      var ok := complete;
      if ok {
        if env.cleared { log := log + [By(Session(), Delete, path, "")]; }
        ok := env.moved;
        if ok { log := log + [By(Session(), Store, path, path + TMP)]; }
      }
      if !ok { log := log + [By(Session(), if env.unlinked then Discard else Stranded, path + TMP, "")]; }
    }

    method FileOp(kind: Kind, path: Option<string>, env: Env)
      requires connected
      modifies this`log
      ensures Now() == FtpSession.FileOp(old(Now()), old(Session()), kind, path, env)
    {
      if path.Some? && env.fs { log := log + [By(Session(), kind, path.value, "")]; }
    }

    method ChangeDir(path: Option<string>, env: Env)
      requires connected
      modifies this`cwd
      ensures Now() == DoCwd(old(Now()), old(Session()), path, env)
    {
      if path.Some? && env.fs && |path.value| < CWD_SIZE { cwd := path.value; }
    }

    method RenameFrom(path: Option<string>, env: Env)
      requires connected
      modifies this`haveRnfr, this`rnfr, this`log
      ensures Now() == DoRnfr(old(Now()), old(Session()), path, env)
    {
      haveRnfr := false;
      if path.Some? && env.fs {
        rnfr := path.value;
        haveRnfr := true;
        log := log + [By(Session(), Select, path.value, "")];
      }
    }

    method RenameTo(path: Option<string>, env: Env)
      requires connected
      modifies this`haveRnfr, this`log
      ensures Now() == DoRnto(old(Now()), old(Session()), path, env)
    {
      var was := haveRnfr;
      haveRnfr := false;
      if was && path.Some? && env.fs { log := log + [By(Session(), Rename, path.value, rnfr)]; }
    }

    /** The password check with its two limits. */
    method DoPass(env: Env)
      requires connected
      modifies this
      ensures Now() == FtpSession.DoPass(old(Now()), old(Session()), env)
    {
      if env.now < globLockUntil {
        Close();
        return;
      }
      TryPass(env);
      if !authed && fails >= 3 { Close(); }
    }

    method TryPass(env: Env)
      requires connected
      modifies this`authed, this`fails, this`globFails, this`globLockUntil, this`tries
      ensures Now() == Tried(old(Now()), old(Session()), env)
    {
      var ok, renewed := CheckPass(env);
      CountTry(env, ok, renewed);
      authed := ok;
      if !ok { fails := fails + 1; }
    }

    /** A password stored the old way is accepted once more, and stored anew if a hash can be made. */
    method CheckPass(env: Env) returns (ok: bool, renewed: bool)
      requires connected
      ensures ok == PassOk(Session(), env) && renewed == (ok && env.unsalted && env.hashed)
    {
      ok, renewed := false, false;
      if env.user.Some? && userGiven {
        var same := CtEq(env.user.value, user);
        if !same { return; }
        ok := env.verified;
        if env.unsalted && ok { renewed := env.hashed; }
      }
    }

    /** The limit over all sessions. */
    method CountTry(env: Env, ok: bool, renewed: bool)
      requires renewed == (ok && env.unsalted && env.hashed)
      modifies this`globFails, this`globLockUntil, this`tries
      ensures Guard(globFails, globLockUntil, tries) == Checked(old(Guard(globFails, globLockUntil, tries)), env, ok)
    {
      tries := tries + [Try(env.now, ok, !ok && globFails + 1 >= 6, renewed)];
      if ok {
        globFails := 0;
        return;
      }
      globFails := globFails + 1;
      if globFails >= 6 {
        globLockUntil := env.now + env.delay + LOCK_US;
        globFails := 0;
      }
    }

    method HandleLogin(v: Verb, arg: string, env: Env)
      requires connected && BeforeLogin(v)
      modifies this
      ensures Now() == DoLogin(old(Now()), old(Session()), v, arg, env)
    {
      if v == User {
        if arg != "" {
          user := Clip(arg, 40);
          userGiven := true;
          authed := false;
        }
      } else if v == Pass {
        DoPass(env);
      } else if v == Quit {
        Close();
      }
    }

    method HandleCommand(v: Verb, arg: string, env: Env)
      requires connected
      modifies this
      ensures Now() == DoCommand(old(Now()), old(Session()), v, arg, env)
    {
      match v
      case Cwd => HandleDir(arg, env);
      case Cdup => HandleDir("..", env);
      case Pasv => OpenPasv(env);
      case Listing => HandleList(arg, env);
      case Abor => CloseListener();
      case Retr | Stor | Size | Dele | Mkd | Rmd | Rnfr | Rnto => HandleFile(v, arg, env);
      case _ =>
    }

    method HandleDir(target: string, env: Env)
      requires connected
      modifies this`cwd
      ensures Now() == DoCwd(old(Now()), old(Session()), PathArg(old(cwd), target, true), env)
    {
      var path := ReadArg(target, true);
      ChangeDir(path, env);
    }

    method HandleList(arg: string, env: Env)
      requires connected
      modifies this`pasv, this`listeners, this`log
      ensures Now() == FtpSession.Transfer(old(Now()), old(Session()), List, ListPath(old(cwd), NoFlags(arg)), env)
    {
      var path := ReadDir(NoFlags(arg));
      Transfer(List, path, env);
    }

    /** The commands whose argument is a file. */
    method HandleFile(v: Verb, arg: string, env: Env)
      requires connected && v in {Retr, Stor, Size, Dele, Mkd, Rmd, Rnfr, Rnto}
      modifies this
      ensures Now() == DoCommand(old(Now()), old(Session()), v, arg, env)
    {
      var path := ReadArg(arg, false);
      match v
      case Retr => Transfer(Fetch, path, env);
      case Stor => Transfer(Store, path, env);
      case Size => FileOp(Stat, path, env);
      case Dele => FileOp(Delete, path, env);
      case Mkd => FileOp(MakeDir, path, env);
      case Rmd => FileOp(RemoveDir, path, env);
      case Rnfr => RenameFrom(path, env);
      case Rnto => RenameTo(path, env);
    }

    /** One line of the session. */
    method Handle(text: string, env: Env)
      requires connected
      modifies this
      ensures Now() == Next(old(Now()), Line(text, env))
    {
      var cmd, arg := ParseLine(text);
      var v := VerbOf(cmd);
      if BeforeLogin(v) {
        HandleLogin(v, arg, env);
      } else if authed {
        HandleCommand(v, arg, env);
      }
    }
  }
}
