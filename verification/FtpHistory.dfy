/** Over whole runs of the FTP server: who operated and how they got in, what was renamed, how fast one can guess. */
module FtpHistory {
  import opened CText
  import opened FsGuard
  import opened Options
  import opened FtpSession

  // ---------- logins ----------

  /** Event j is a password command that passed: not while the door is closed, in a session that gave the name
      configured at that time, with the password stored at that time. */
  ghost predicate Passed(es: seq<Event>, j: nat)
    requires j < |es|
  {
    var sv, e := Run(es[..j]), es[j];
    && e.Line? && sv.sess.Some? && VerbOf(Command(e.text, 7)) == Pass
    && e.env.now >= sv.guard.lockUntil && e.env.verified
    && sv.sess.value.login.userGiven && e.env.user == Some(sv.sess.value.login.user)
  }

  /** Event m takes the login away: the end of the session, a new name, or a password command that does not pass. */
  ghost predicate Undone(es: seq<Event>, m: nat)
    requires m < |es|
  {
    match es[m]
    case Connect(_) => false
    case Hangup => true
    case Line(text, env) =>
      match VerbOf(Command(text, 7))
      case Quit => true
      case User => Argument(text) != ""
      case Pass => !Passed(es, m)
      case _ => false
  }

  /** The login of session s, in place after the events, goes back to event j. */
  ghost predicate LoggedInAt(es: seq<Event>, s: Sess, j: nat) {
    && j < |es| && Passed(es, j)
    && (forall m | j < m < |es| :: !Undone(es, m))
    && Run(es[..j]).sess.value.sid == s.sid && Run(es[..j]).sess.value.login.user == s.login.user
  }

  lemma PassedIsPrefix(es: seq<Event>, e: Event, j: nat)
    requires j < |es|
    ensures Passed(es + [e], j) <==> Passed(es, j)
    ensures Undone(es + [e], j) <==> Undone(es, j)
  {
    assert (es + [e])[..j] == es[..j];
  }

  lemma LoggedInLater(es: seq<Event>, e: Event, s: Sess, j: nat)
    requires LoggedInAt(es, s, j) && !Undone(es + [e], |es|)
    ensures LoggedInAt(es + [e], s, j)
  {
    PassedIsPrefix(es, e, j);
    assert (es + [e])[..j] == es[..j];
    forall m | j < m < |es + [e]| ensures !Undone(es + [e], m) {
      if m < |es| { PassedIsPrefix(es, e, m); }
    }
  }

  /** What one event does to a login: a session that is logged in afterwards either was so before, as the same
      session under the same name, and the event did not undo it, or the event is a password that passed. */
  lemma LoginAfter(es: seq<Event>, e: Event)
    ensures var sv, r := Run(es), Run(es + [e]);
      r.sess.Some? && r.sess.value.login.authed ==>
        && sv.sess.Some? && r.sess.value.sid == sv.sess.value.sid
        && r.sess.value.login.user == sv.sess.value.login.user
        && (Passed(es + [e], |es|) || (sv.sess.value.login.authed && !Undone(es + [e], |es|)))
  {
    assert (es + [e])[..|es|] == es;
    if e.Line? && Run(es).sess.Some? {
      var v := VerbOf(Command(e.text, 7));
      LoginOfLine(Run(es), Run(es).sess.value, v, Argument(e.text), e.env);
    }
  }

  lemma LoginOfLine(sv: Server, s: Sess, v: Verb, arg: string, env: Env)
    requires sv.sess == Some(s)
    ensures var r := DoLine(sv, s, v, arg, env);
      r.sess.Some? && r.sess.value.login.authed ==>
        && r.sess.value.sid == s.sid && r.sess.value.login.user == s.login.user
        && if v == Pass then env.now >= sv.guard.lockUntil && PassOk(s, env)
           else s.login.authed && v != Quit && (v == User ==> arg == "")
  {
    if !BeforeLogin(v) && s.login.authed { LoginAfterCommand(sv, s, v, arg, env); }
  }

  lemma LoginAfterCommand(sv: Server, s: Sess, v: Verb, arg: string, env: Env)
    requires sv.sess == Some(s)
    ensures var r := DoCommand(sv, s, v, arg, env);
      r.sess.Some? && r.sess.value.sid == s.sid && r.sess.value.login == s.login
  {
  }

  /** A session that is logged in has given the configured name and the stored password, and since then there
      was no new name, no password that did not pass and no end of the session. */
  lemma {:induction false} LoginWasChecked(es: seq<Event>) returns (j: nat)
    requires Run(es).sess.Some? && Run(es).sess.value.login.authed
    ensures LoggedInAt(es, Run(es).sess.value, j)
  {
    var init, e := es[..|es|-1], es[|es|-1];
    assert init + [e] == es;
    LoginAfter(init, e);
    if Passed(es, |es| - 1) {
      j := |es| - 1;
    } else {
      j := LoginWasChecked(init);
      LoggedInLater(init, e, Run(init).sess.value, j);
    }
  }

  lemma OpAfter(es: seq<Event>, e: Event)
    ensures var sv, r := Run(es), Run(es + [e]);
      r.log == sv.log || (sv.sess.Some? && sv.sess.value.login.authed && OpsOf(sv, sv.sess.value, r))
  {
    assert (es + [e])[..|es|] == es;
    LoggedInToOperate(Run(es), e);
  }

  /** Operation i of the log was made by event k, by a session whose password was checked and passed at event j
      before it, under the name the operation was made with, and which kept its login in between. */
  ghost predicate LetIn(es: seq<Event>, op: Op, i: nat, j: nat, k: nat) {
    && j < k < |es|
    && |Run(es[..k]).log| <= i < |Run(es[..k+1]).log| && Run(es[..k+1]).log[i] == op
    && Passed(es, j) && es[j].env.user == Some(op.user) && Run(es[..j]).sess.value.sid == op.sid
    && forall m | j < m < k :: !Undone(es, m)
  }

  lemma LetInLater(es: seq<Event>, e: Event, op: Op, i: nat, j: nat, k: nat)
    requires LetIn(es, op, i, j, k)
    ensures LetIn(es + [e], op, i, j, k)
  {
    var more := es + [e];
    assert more[..j] == es[..j] && more[..k] == es[..k] && more[..k+1] == es[..k+1];
    PassedIsPrefix(es, e, j);
    forall m | j < m < k ensures !Undone(more, m) { PassedIsPrefix(es, e, m); }
  }

  lemma LetInNow(es: seq<Event>, e: Event, i: nat) returns (j: nat)
    requires |Run(es).log| <= i < |Run(es + [e]).log|
    ensures LetIn(es + [e], Run(es + [e]).log[i], i, j, |es|)
  {
    OpAfter(es, e);
    j := LoginWasChecked(es);
    var more := es + [e];
    assert more[..j] == es[..j] && more[..|es|] == es && more[..|es|+1] == more;
    PassedIsPrefix(es, e, j);
    forall m | j < m < |es| ensures !Undone(more, m) { PassedIsPrefix(es, e, m); }
  }

  /** For every file operation of a run there are such events. */
  lemma {:induction false} EveryOperationWasLetIn(es: seq<Event>, i: nat) returns (j: nat, k: nat)
    requires i < |Run(es).log|
    ensures LetIn(es, Run(es).log[i], i, j, k)
  {
    var init, e := es[..|es|-1], es[|es|-1];
    assert init + [e] == es;
    OpAfter(init, e);
    if i < |Run(init).log| {
      j, k := EveryOperationWasLetIn(init, i);
      LetInLater(init, e, Run(init).log[i], i, j, k);
      assert Run(es).log[i] == Run(init).log[i];
    } else {
      k := |init|;
      j := LetInNow(init, e, i);
    }
  }

  lemma OpStays(es: seq<Event>, e: Event, i: nat)
    requires i < |Run(es).log|
    ensures i < |Run(es + [e]).log| && Run(es + [e]).log[i] == Run(es).log[i]
  {
    OpAfter(es, e);
  }

  // ---------- renames ----------

  /** The event is a rename command, of either kind, of a session that is logged in. */
  predicate RenameCommand(sv: Server, e: Event) {
    e.Line? && sv.sess.Some? && sv.sess.value.login.authed && VerbOf(Command(e.text, 7)) in {Rnfr, Rnto}
  }

  /** Event m is a rename command, of either kind, that gets past the login. */
  ghost predicate Touches(es: seq<Event>, m: nat)
    requires m < |es|
  {
    RenameCommand(Run(es[..m]), es[m])
  }

  /** r's log is sv's and the selection of a path by session sid. */
  ghost predicate SelectOf(sv: Server, r: Server, sid: nat, path: string) {
    && |r.log| == |sv.log| + 1 && sv.log <= r.log
    && var op := r.log[|sv.log|]; op.kind == Select && op.sid == sid && op.path == path
  }

  /** The path was accepted as a source in session sid at event h, and no rename command has come since. */
  ghost predicate SourceAt(es: seq<Event>, sid: nat, path: string, h: nat) {
    && h < |es| && Touches(es, h) && VerbOf(Command(es[h].text, 7)) == Rnfr
    && SelectOf(Run(es[..h]), Run(es[..h+1]), sid, path)
    && forall m | h < m < |es| :: !Touches(es, m)
  }

  lemma TouchesIsPrefix(es: seq<Event>, e: Event, m: nat)
    requires m < |es|
    ensures Touches(es + [e], m) <==> Touches(es, m)
  {
    assert (es + [e])[..m] == es[..m];
  }

  lemma SourceLater(es: seq<Event>, e: Event, sid: nat, path: string, h: nat)
    requires SourceAt(es, sid, path, h) && !Touches(es + [e], |es|)
    ensures SourceAt(es + [e], sid, path, h)
  {
    TouchesIsPrefix(es, e, h);
    assert (es + [e])[..h] == es[..h] && (es + [e])[..h+1] == es[..h+1];
    forall m | h < m < |es + [e]| ensures !Touches(es + [e], m) {
      if m < |es| { TouchesIsPrefix(es, e, m); }
    }
  }

  /** A source waits after a line only if the line selected it, or it waited before and the line was no rename
      command. */
  lemma WaitsAfterLine(sv: Server, s: Sess, v: Verb, arg: string, env: Env)
    requires sv.sess == Some(s)
    ensures var r := DoLine(sv, s, v, arg, env);
      r.sess.Some? && r.sess.value.place.haveRnfr ==>
        && r.sess.value.sid == s.sid
        && if s.login.authed && v in {Rnfr, Rnto} then v == Rnfr && SelectOf(sv, r, s.sid, r.sess.value.place.rnfr)
           else s.place.haveRnfr && r.sess.value.place.rnfr == s.place.rnfr
  {
    if BeforeLogin(v) {
      PlaceAfterLogin(sv, s, v, arg, env);
    } else if s.login.authed && v !in {Rnfr, Rnto} {
      SourceAfterCommand(sv, s, v, arg, env);
    }
  }

  lemma PlaceAfterLogin(sv: Server, s: Sess, v: Verb, arg: string, env: Env)
    requires sv.sess == Some(s)
    ensures var r := DoLogin(sv, s, v, arg, env);
      r.sess.Some? ==> r.sess.value.sid == s.sid && r.sess.value.place == s.place
  {
  }

  lemma SourceAfterCommand(sv: Server, s: Sess, v: Verb, arg: string, env: Env)
    requires sv.sess == Some(s) && v !in {Rnfr, Rnto}
    ensures var r := DoCommand(sv, s, v, arg, env);
      && r.sess.Some? && r.sess.value.sid == s.sid
      && r.sess.value.place.haveRnfr == s.place.haveRnfr && r.sess.value.place.rnfr == s.place.rnfr
  {
  }

  lemma {:induction false} NoRename(sv: Server, s: Sess, v: Verb, arg: string, env: Env, i: nat)
    requires sv.sess == Some(s) && v != Rnto
    ensures var r := DoCommand(sv, s, v, arg, env);
      |sv.log| <= i < |r.log| ==> r.log[i].kind != Rename
  {
  }

  lemma {:induction false} RenameOfLine(sv: Server, s: Sess, v: Verb, arg: string, env: Env, i: nat)
    requires sv.sess == Some(s)
    ensures var r := DoLine(sv, s, v, arg, env);
      |sv.log| <= i < |r.log| && r.log[i].kind == Rename ==>
        s.place.haveRnfr && r.log[i].from == s.place.rnfr && r.log[i].sid == s.sid
  {
    if v != Rnto { NoRename(sv, s, v, arg, env, i); }
  }

  predicate Waits(sv: Server) { sv.sess.Some? && sv.sess.value.place.haveRnfr }

  lemma {:induction false} NextWaits(sv: Server, e: Event)
    requires Waits(Next(sv, e))
    ensures var r := Next(sv, e);
      var s := r.sess.value;
      if RenameCommand(sv, e) then VerbOf(Command(e.text, 7)) == Rnfr && SelectOf(sv, r, s.sid, s.place.rnfr)
      else Waits(sv) && sv.sess.value.sid == s.sid && sv.sess.value.place.rnfr == s.place.rnfr
  {
    if e.Line? && sv.sess.Some? {
      WaitsAfterLine(sv, sv.sess.value, VerbOf(Command(e.text, 7)), Argument(e.text), e.env);
    }
  }

  lemma {:induction false} RunStep(es: seq<Event>, e: Event)
    ensures Run(es + [e]) == Next(Run(es), e)
    ensures (es + [e])[..|es|] == es && (es + [e])[..|es| + 1] == es + [e]
    ensures Touches(es + [e], |es|) <==> RenameCommand(Run(es), e)
  {
    assert (es + [e])[..|es|] == es;
  }

  lemma {:induction false} WaitsAfter(es: seq<Event>, e: Event)
    requires Waits(Run(es + [e]))
    ensures var sv, s := Run(es), Run(es + [e]).sess.value;
      if Touches(es + [e], |es|) then SourceAt(es + [e], s.sid, s.place.rnfr, |es|)
      else Waits(sv) && sv.sess.value.sid == s.sid && sv.sess.value.place.rnfr == s.place.rnfr
  {
    RunStep(es, e);
    NextWaits(Run(es), e);
  }

  /** A source that waits in a session was accepted there, by the last rename command. */
  lemma {:induction false} SourceWasAccepted(es: seq<Event>) returns (h: nat)
    requires Waits(Run(es))
    ensures SourceAt(es, Run(es).sess.value.sid, Run(es).sess.value.place.rnfr, h)
  {
    var init, e := es[..|es|-1], es[|es|-1];
    assert init + [e] == es;
    WaitsAfter(init, e);
    if Touches(es, |init|) {
      h := |init|;
    } else {
      h := SourceWasAccepted(init);
      SourceLater(init, e, Run(es).sess.value.sid, Run(es).sess.value.place.rnfr, h);
    }
  }

  /** Operation i of the log is the rename made by event k, from the path that event h accepted as a source in
      the same session; between the two no rename command came, accepted or not. */
  ghost predicate RenamedFrom(es: seq<Event>, op: Op, i: nat, h: nat, k: nat) {
    && k < |es| && |Run(es[..k]).log| <= i < |Run(es[..k+1]).log| && Run(es[..k+1]).log[i] == op
    && SourceAt(es[..k], op.sid, op.from, h)
  }

  lemma RenamedNow(es: seq<Event>, e: Event, i: nat) returns (h: nat)
    requires |Run(es).log| <= i < |Run(es + [e]).log| && Run(es + [e]).log[i].kind == Rename
    ensures RenamedFrom(es + [e], Run(es + [e]).log[i], i, h, |es|)
  {
    OpAfter(es, e);
    var more := es + [e];
    assert more[..|es|] == es && more[..|es|+1] == more;
    RenameOfLine(Run(es), Run(es).sess.value, VerbOf(Command(e.text, 7)), Argument(e.text), e.env, i);
    h := SourceWasAccepted(es);
  }

  lemma RenamedLater(es: seq<Event>, e: Event, op: Op, i: nat, h: nat, k: nat)
    requires RenamedFrom(es, op, i, h, k)
    ensures RenamedFrom(es + [e], op, i, h, k)
  {
    assert (es + [e])[..k] == es[..k] && (es + [e])[..k+1] == es[..k+1];
  }

  /** In every run each rename uses up the source that the last rename command of its session was accepted for. */
  lemma {:induction false} EachSourceRenamedOnce(es: seq<Event>, i: nat) returns (h: nat, k: nat)
    requires i < |Run(es).log| && Run(es).log[i].kind == Rename
    ensures RenamedFrom(es, Run(es).log[i], i, h, k)
  {
    var init, e := es[..|es|-1], es[|es|-1];
    assert init + [e] == es;
    if i < |Run(init).log| {
      OpStays(init, e, i);
      h, k := EachSourceRenamedOnce(init, i);
      RenamedLater(init, e, Run(init).log[i], i, h, k);
    } else {
      k := |init|;
      h := RenamedNow(init, e, i);
    }
  }

  // ---------- uploads ----------

  /** The temporary file is removed, cannot be removed, or takes the place of the file it is for. */
  predicate DoneWith(op: Op, tmp: string) {
    || (op.kind in {Discard, Stranded} && op.path == tmp)
    || (op.kind == Store && op.from == tmp && op.path + TMP == tmp)
  }

  /** The temporary file made by operation i is done with next, or after the old file was removed. */
  ghost predicate Finished(log: seq<Op>, i: nat)
    requires i < |log|
  {
    var tmp := log[i].path;
    && i + 1 < |log|
    && (|| DoneWith(log[i+1], tmp)
        || (i + 2 < |log| && log[i+1].kind == Delete && log[i+1].path + TMP == tmp && DoneWith(log[i+2], tmp)))
  }

  /** r's log is sv's and operations among which every temporary file made is done with. */
  ghost predicate Finishes(sv: Server, r: Server) {
    sv.log <= r.log && forall i | |sv.log| <= i < |r.log| && r.log[i].kind == Create :: Finished(r.log, i)
  }

  lemma FinishedBehind(log: seq<Op>, ops: seq<Op>, i: nat)
    requires i < |ops| && Finished(ops, i)
    ensures Finished(log + ops, |log| + i)
  {
    assert forall k | 0 <= k < |ops| :: (log + ops)[|log| + k] == ops[k];
  }

  lemma UploadFinishes(s: Sess, path: string, accepted: bool, env: Env)
    ensures var ops := TransferOps(s, Store, path, accepted, env);
      ops != [] && Finished(ops, 0) && forall i | 0 < i < |ops| :: ops[i].kind != Create
  {
  }

  lemma OpsFinish(s: Sess, kind: Kind, path: string, accepted: bool, env: Env, i: nat)
    requires kind in {List, Fetch, Store}
    ensures var ops := TransferOps(s, kind, path, accepted, env);
      i < |ops| && ops[i].kind == Create ==> Finished(ops, i)
  {
    if kind == Store { UploadFinishes(s, path, accepted, env); }
  }

  lemma TransferFinishes(sv: Server, s: Sess, kind: Kind, path: Option<string>, env: Env)
    requires kind in {List, Fetch, Store}
    ensures Finishes(sv, Transfer(sv, s, kind, path, env))
  {
    if path.Some? && env.fs {
      var n, r, accepted := |sv.log|, Transfer(sv, s, kind, path, env), s.pasv >= 0 && env.caller == Some(s.peer);
      var ops := TransferOps(s, kind, path.value, accepted, env);
      assert r.log == sv.log + ops;
      forall i | n <= i < |r.log| && r.log[i].kind == Create ensures Finished(r.log, i) {
        assert r.log[i] == ops[i - n];
        OpsFinish(s, kind, path.value, accepted, env, i - n);
        FinishedBehind(sv.log, ops, i - n);
      }
    }
  }

  /** The commands that transfer nothing make no temporary file. */
  lemma {:induction false} OthersFinish(sv: Server, s: Sess, v: Verb, arg: string, env: Env)
    requires v !in {Listing, Retr, Stor}
    ensures var r := DoCommand(sv, s, v, arg, env);
      sv.log <= r.log && forall i | |sv.log| <= i < |r.log| :: r.log[i].kind != Create
  {
  }

  lemma {:induction false} CommandFinishes(sv: Server, s: Sess, v: Verb, arg: string, env: Env)
    ensures Finishes(sv, DoCommand(sv, s, v, arg, env))
  {
    match v
    case Listing => TransferFinishes(sv, s, List, ListPath(s.place.cwd, NoFlags(arg)), env);
    case Retr => TransferFinishes(sv, s, Fetch, PathArg(s.place.cwd, arg, false), env);
    case Stor => TransferFinishes(sv, s, Store, PathArg(s.place.cwd, arg, false), env);
    case _ => OthersFinish(sv, s, v, arg, env);
  }

  lemma {:induction false} NextFinishes(sv: Server, e: Event)
    ensures Finishes(sv, Next(sv, e))
  {
    if e.Line? && sv.sess.Some? {
      CommandFinishes(sv, sv.sess.value, VerbOf(Command(e.text, 7)), Argument(e.text), e.env);
    }
  }

  /** In every run the command that made a temporary file also moves or removes it, unless it cannot be removed; the
      old file is removed in between at most. */
  lemma {:induction false} UploadsFinish(es: seq<Event>, i: nat)
    requires i < |Run(es).log| && Run(es).log[i].kind == Create
    ensures Finished(Run(es).log, i)
  {
    var init, e := es[..|es|-1], es[|es|-1];
    NextFinishes(Run(init), e);
    if i < |Run(init).log| {
      UploadsFinish(init, i);
      assert forall k | 0 <= k < |Run(init).log| :: Run(es).log[k] == Run(init).log[k];
    }
  }

  // ---------- guessing ----------

  /** Failures since the last success or closed door. */
  function Streak(t: seq<Try>): nat {
    if t == [] then 0
    else if t[|t|-1].ok || t[|t|-1].locks then 0
    else 1 + Streak(t[..|t|-1])
  }

  ghost predicate ShortStreaks(t: seq<Try>) { forall k | 0 <= k <= |t| :: Streak(t[..k]) < 6 }

  /** A check that closes the door failed, and the next one is five minutes later. */
  ghost predicate LocksPause(t: seq<Try>, until: int) {
    forall k | 0 <= k < |t| && t[k].locks ::
      !t[k].ok && t[k].time + LOCK_US <= until && (k < |t| - 1 ==> t[k].time + LOCK_US <= t[k + 1].time)
  }

  ghost predicate GuardOk(g: Guard) {
    g.fails == Streak(g.tries) && g.fails < 6 && ShortStreaks(g.tries) && LocksPause(g.tries, g.lockUntil)
  }

  lemma StreakAdd(t: seq<Try>, x: Try)
    requires ShortStreaks(t) && Streak(t + [x]) < 6
    ensures ShortStreaks(t + [x])
  {
    var u := t + [x];
    forall k | 0 <= k <= |u| ensures Streak(u[..k]) < 6 {
      if k <= |t| { assert u[..k] == t[..k]; } else { assert u[..k] == u; }
    }
  }

  lemma PauseAdd(t: seq<Try>, x: Try, until: int, later: int)
    requires LocksPause(t, until) && until <= x.time && until <= later
    requires x.locks ==> !x.ok && x.time + LOCK_US <= later
    ensures LocksPause(t + [x], later)
  {
    var u := t + [x];
    forall k | 0 <= k < |u| && u[k].locks
      ensures !u[k].ok && u[k].time + LOCK_US <= later && (k < |u| - 1 ==> u[k].time + LOCK_US <= u[k + 1].time)
    {
      if k < |t| { assert u[k] == t[k]; if k < |t| - 1 { assert u[k + 1] == t[k + 1]; } }
    }
  }

  lemma CheckedKeepsGuard(g: Guard, env: Env, ok: bool)
    requires GuardOk(g) && env.now >= g.lockUntil
    ensures GuardOk(Checked(g, env, ok))
  {
    var r := Checked(g, env, ok);
    var x := r.tries[|g.tries|];
    assert r.tries == g.tries + [x] && (g.tries + [x])[..|g.tries|] == g.tries;
    StreakAdd(g.tries, x);
    PauseAdd(g.tries, x, g.lockUntil, r.lockUntil);
  }

  lemma {:induction false} RunKeepsGuard(es: seq<Event>)
    ensures GuardOk(Run(es).guard)
  {
    if es != [] {
      var sv, e := Run(es[..|es|-1]), es[|es|-1];
      RunKeepsGuard(es[..|es|-1]);
      if e.Line? && sv.sess.Some? {
        GuardOfLine(sv, sv.sess.value, VerbOf(Command(e.text, 7)), Argument(e.text), e.env);
      }
    }
  }

  lemma GuardOfLine(sv: Server, s: Sess, v: Verb, arg: string, env: Env)
    requires GuardOk(sv.guard)
    ensures GuardOk(DoLine(sv, s, v, arg, env).guard)
  {
    if v == Pass && env.now >= sv.guard.lockUntil { CheckedKeepsGuard(sv.guard, env, PassOk(s, env)); }
  }

  lemma {:induction false} StreakOfFailures(t: seq<Try>, i: nat, n: nat)
    requires i + n <= |t| && forall k | i <= k < i + n :: !t[k].ok && !t[k].locks
    ensures Streak(t[..i + n]) >= n
    decreases n
  {
    if n > 0 {
      StreakOfFailures(t, i, n - 1);
      var u := t[..i + n];
      assert u[..|u|-1] == t[..i + n - 1];
    }
  }

  lemma LockAmongSix(t: seq<Try>, i: nat)
    requires i + 6 <= |t| && (forall k | i <= k < i + 6 :: !t[k].ok) && Streak(t[..i + 6]) < 6
    ensures exists j :: i <= j < i + 6 && t[j].locks
  {
    if forall k | i <= k < i + 6 :: !t[k].locks { StreakOfFailures(t, i, 6); }
  }

  /** Over all sessions together, seven failed checks in a row cannot be made in less than five minutes. */
  lemma SevenFailuresTakeFiveMinutes(es: seq<Event>, i: nat) returns (j: nat)
    requires i + 6 < |Run(es).guard.tries|
    requires forall k | i <= k < i + 7 :: !Run(es).guard.tries[k].ok
    ensures i <= j < i + 6
    ensures Run(es).guard.tries[j].time + LOCK_US <= Run(es).guard.tries[j + 1].time
  {
    RunKeepsGuard(es);
    var t := Run(es).guard.tries;
    LockAmongSix(t, i);
    j :| i <= j < i + 6 && t[j].locks;
  }
}
