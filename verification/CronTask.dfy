/** Starting and stopping the cron task: the lock sections of its loop and of its callers as steps of one
    machine, interleaved in any order. */
module CronTask {
  const CLOCK_SET: int := 1700000000

  datatype Pc = Polling | Checking | Retired

  /** One task: where it is, whether it got its buffer, the last minute it saw and the minutes it ran jobs in. */
  datatype Task = Task(pc: Pc, buffer: bool, last: int, minutes: seq<int>)

  /** `s_run` and `s_task` (0 for none); tasks are numbered in the order they were created. */
  datatype State = State(run: bool, task: nat, born: nat, tasks: map<nat, Task>)

  datatype Event =
    | Start(created: bool, buffer: bool)
    | Stop
    | Poll(t: nat, now: int)
    | Check(t: nat)

  const INITIAL: State := State(false, 0, 0, map[])

  predicate Enabled(s: State, e: Event) {
    match e
    case Poll(t, _) => t in s.tasks && s.tasks[t].pc == Polling
    case Check(t) => t in s.tasks && s.tasks[t].pc == Checking
    case _ => true
  }

  /** Reloads the table and, under the lock, asks for a task and creates one if there is none. */
  function StartStep(s: State, created: bool, buffer: bool): State {
    if s.task != 0 then s.(run := true)
    else if created then
      State(true, s.born + 1, s.born + 1, s.tasks[s.born + 1 := Task(Polling, buffer, 0, [])])
    else s.(run := false)
  }

  /** One look at the clock; a new minute runs the jobs due in it. */
  function Polled(k: Task, now: int): Task {
    if k.buffer && now > CLOCK_SET && now / 60 != k.last then
      Task(Checking, k.buffer, now / 60, k.minutes + [now / 60])
    else k.(pc := Checking)
  }

  /** A minute is 60 seconds, and a clock that has not been set shows none. */
  lemma PollMeans(k: Task, now: int, minute: int)
    requires 60 * minute <= now < 60 * minute + 60
    ensures var r := Polled(k, now);
      var runs := k.buffer && now > 1_700_000_000 && minute != k.last;
      && r == Task(Checking, k.buffer, if runs then minute else k.last, k.minutes + if runs then [minute] else [])
  {
  }

  function CheckStep(s: State, t: nat): State
    requires t in s.tasks
  {
    if s.run then s.(tasks := s.tasks[t := s.tasks[t].(pc := Polling)])
    else s.(task := 0, tasks := s.tasks[t := s.tasks[t].(pc := Retired)])
  }

  function Next(s: State, e: Event): State
    requires Enabled(s, e)
  {
    match e
    case Start(created, buffer) => StartStep(s, created, buffer)
    case Stop => s.(run := false)
    case Poll(t, now) => s.(tasks := s.tasks[t := Polled(s.tasks[t], now)])
    case Check(t) => CheckStep(s, t)
  }

  /** Events a run cannot take are skipped. */
  function Run(es: seq<Event>): State {
    if es == [] then INITIAL
    else
      var s, e := Run(es[..|es|-1]), es[|es|-1];
      if Enabled(s, e) then Next(s, e) else s
  }

  // ---------- at most one task ----------

  /** The one task that has not retired is the one in `s_task`; while running is asked for there is one. */
  ghost predicate Inv(s: State) {
    && (s.run ==> s.task != 0)
    && (s.task != 0 ==> s.task in s.tasks && s.tasks[s.task].pc != Retired)
    && (forall t | t in s.tasks :: 0 < t <= s.born && (s.tasks[t].pc != Retired ==> t == s.task))
  }

  lemma NextKeepsInv(s: State, e: Event)
    requires Inv(s) && Enabled(s, e)
    ensures Inv(Next(s, e))
  {
    if e.Poll? { assert e.t == s.task; }
    if e.Check? { assert e.t == s.task; }
  }

  /** In every run at most one task is alive, it is the one in `s_task`, and while running is asked for it is. */
  lemma {:induction false} AtMostOneTask(es: seq<Event>)
    ensures Inv(Run(es))
  {
    if es != [] {
      var s, e := Run(es[..|es|-1]), es[|es|-1];
      AtMostOneTask(es[..|es|-1]);
      if Enabled(s, e) { NextKeepsInv(s, e); }
    }
  }

  /** A stop that no start follows ends the run: at its next check it retires, and none is left. */
  lemma StopRetires(es: seq<Event>)
    requires !Run(es).run && Run(es).task != 0
    ensures var s := Run(es);
      forall now :: Enabled(s, Check(s.task)) || Enabled(s, Poll(s.task, now))
    ensures var s := Run(es); Enabled(s, Check(s.task)) ==>
      var r := Next(s, Check(s.task)); r.task == 0 && forall t | t in r.tasks :: r.tasks[t].pc == Retired
  {
    AtMostOneTask(es);
  }

  // ---------- minutes ----------

  /** The minutes a task reads off the clock, once the clock has been set. */
  function Readings(es: seq<Event>, t: nat): seq<int> {
    if es == [] then []
    else
      var init, e := es[..|es|-1], es[|es|-1];
      if e.Poll? && e.t == t && Enabled(Run(init), e) && e.now > CLOCK_SET then Readings(init, t) + [e.now / 60]
      else Readings(init, t)
  }

  /** One for every stretch of equal numbers. */
  function Stretches(r: seq<int>): seq<int> {
    if r == [] then []
    else if |r| > 1 && r[|r|-2] == r[|r|-1] then Stretches(r[..|r|-1])
    else Stretches(r[..|r|-1]) + [r[|r|-1]]
  }

  ghost predicate Distinct(m: seq<int>) { forall i, j | 0 <= i < j < |m| :: m[i] != m[j] }

  /** No number comes back after another one. */
  ghost predicate Together(r: seq<int>) { forall i, j, k | 0 <= i < j < k < |r| && r[i] == r[k] :: r[j] == r[i] }

  lemma {:induction false} StretchesHave(r: seq<int>, m: int)
    ensures m in Stretches(r) <==> m in r
  {
    if r != [] {
      var init := r[..|r|-1];
      StretchesHave(init, m);
      assert r == init + [r[|r|-1]];
      if |r| > 1 && r[|r|-2] == r[|r|-1] { assert init[|r|-2] == r[|r|-1]; }
    }
  }

  lemma TogetherLess(r: seq<int>)
    requires r != [] && Together(r)
    ensures Together(r[..|r|-1])
  {
    var init := r[..|r|-1];
    forall i, j, k | 0 <= i < j < k < |init| && init[i] == init[k] ensures init[j] == init[i] {
      assert r[i] == r[k];
    }
  }

  lemma TogetherAgain(r: seq<int>)
    requires |r| > 1 && r[|r|-2] == r[|r|-1] && Together(r[..|r|-1])
    ensures Together(r)
  {
    var init := r[..|r|-1];
    forall i, j, k | 0 <= i < j < k < |r| && r[i] == r[k] ensures r[j] == r[i] {
      var l := if k == |r| - 1 then k - 1 else k;
      assert init[l] == r[k] && init[i] == r[i] && init[j] == r[j];
      if j < l { assert init[j] == init[i]; }
    }
  }

  /** A number behind a different one keeps a row together if and only if it is new. */
  lemma TogetherNew(r: seq<int>)
    requires r != [] && (|r| > 1 ==> r[|r|-2] != r[|r|-1])
    ensures Together(r) <==> Together(r[..|r|-1]) && r[|r|-1] !in r[..|r|-1]
  {
    var init, m := r[..|r|-1], r[|r|-1];
    if Together(r) {
      TogetherLess(r);
      if m in init { assert false; }
    } else if Together(init) && m !in init {
      forall i, j, k | 0 <= i < j < k < |r| && r[i] == r[k] ensures r[j] == r[i] {
        assert init[i] == r[i] && init[j] == r[j];
        assert k < |init| && init[k] == r[k];
      }
      assert false;
    }
  }

  lemma DistinctNew(m: seq<int>, x: int)
    ensures Distinct(m + [x]) <==> Distinct(m) && x !in m
  {
    var n := m + [x];
    assert n[|m|] == x;
    assert forall i | 0 <= i < |m| :: n[i] == m[i];
    if Distinct(n) {
      forall i, j | 0 <= i < j < |m| ensures m[i] != m[j] { assert n[i] != n[j]; }
      forall i | 0 <= i < |m| ensures m[i] != x { assert n[i] != n[|m|]; }
    }
  }

  lemma {:induction false} StretchesDistinct(r: seq<int>)
    ensures Distinct(Stretches(r)) <==> Together(r)
  {
    if r != [] {
      var init, m := r[..|r|-1], r[|r|-1];
      StretchesDistinct(init);
      if |r| > 1 && r[|r|-2] == m {
        if Together(r) { TogetherLess(r); }
        if Together(init) { TogetherAgain(r); }
      } else {
        TogetherNew(r);
        StretchesHave(init, m);
        DistinctNew(Stretches(init), m);
      }
    }
  }

  lemma {:induction false} NoReadingsBefore(es: seq<Event>, t: nat)
    requires t !in Run(es).tasks
    ensures Readings(es, t) == []
  {
    if es != [] { NoReadingsBefore(es[..|es|-1], t); }
  }

  /** What a task has run and remembers, from what it has read. */
  ghost predicate Ran(k: Task, r: seq<int>) {
    && k.minutes == (if k.buffer then Stretches(r) else [])
    && (k.buffer ==> k.last == if r == [] then 0 else r[|r|-1])
    && (forall m | m in r :: m > 0)
  }

  lemma PolledRan(k: Task, r: seq<int>, now: int)
    requires Ran(k, r)
    ensures Ran(Polled(k, now), if now > CLOCK_SET then r + [now / 60] else r)
  {
    if now > CLOCK_SET {
      var r' := r + [now / 60];
      assert r'[..|r'|-1] == r;
      if r != [] { assert r'[|r|-1] == r[|r|-1] && r[|r|-1] in r; }
    }
  }

  lemma {:induction false} RunRan(es: seq<Event>, t: nat)
    requires t in Run(es).tasks
    ensures Ran(Run(es).tasks[t], Readings(es, t))
  {
    var init, e := es[..|es|-1], es[|es|-1];
    var s := Run(init);
    AtMostOneTask(init);
    if t in s.tasks {
      RunRan(init, t);
      if e.Poll? && e.t == t && Enabled(s, e) { PolledRan(s.tasks[t], Readings(init, t), e.now); }
    } else {
      NoReadingsBefore(init, t);
    }
  }

  /** A task with a buffer runs a minute once for every stretch of readings of it; one without runs none. */
  lemma MinutesRun(es: seq<Event>, t: nat)
    requires t in Run(es).tasks
    ensures Run(es).tasks[t].minutes == if Run(es).tasks[t].buffer then Stretches(Readings(es, t)) else []
  {
    RunRan(es, t);
  }

  /** A task runs no minute twice if and only if no minute it reads comes back after another one. */
  lemma MinuteOnceIff(es: seq<Event>, t: nat)
    requires t in Run(es).tasks && Run(es).tasks[t].buffer
    ensures Distinct(Run(es).tasks[t].minutes) <==> Together(Readings(es, t))
  {
    MinutesRun(es, t);
    StretchesDistinct(Readings(es, t));
  }

  ghost predicate Apart(a: seq<int>, b: seq<int>) { forall m | m in a :: m !in b }

  /** Two tasks run no minute both if and only if one has no buffer or no minute is read by both. */
  lemma NoneSharedIff(es: seq<Event>, t: nat, u: nat)
    requires t in Run(es).tasks && u in Run(es).tasks
    ensures var k, l := Run(es).tasks[t], Run(es).tasks[u];
      Apart(k.minutes, l.minutes) <==> (k.buffer && l.buffer ==> Apart(Readings(es, t), Readings(es, u)))
  {
    MinutesRun(es, t);
    MinutesRun(es, u);
    var a, b := Readings(es, t), Readings(es, u);
    forall m ensures m in Stretches(a) <==> m in a { StretchesHave(a, m); }
    forall m ensures m in Stretches(b) <==> m in b { StretchesHave(b, m); }
  }

  /** No minute's jobs are run twice, by one task or by two. */
  ghost predicate EachMinuteOnce(tasks: map<nat, Task>) {
    && (forall t | t in tasks :: Distinct(tasks[t].minutes))
    && (forall t, u | t in tasks && u in tasks && t != u :: Apart(tasks[t].minutes, tasks[u].minutes))
  }

  /** No task with a buffer sees a minute come back, and no two of them see the same one. */
  ghost predicate MinutesReadOnce(es: seq<Event>, tasks: map<nat, Task>) {
    && (forall t | t in tasks && tasks[t].buffer :: Together(Readings(es, t)))
    && (forall t, u | t in tasks && u in tasks && t != u && tasks[t].buffer && tasks[u].buffer
         :: Apart(Readings(es, t), Readings(es, u)))
  }

  /** In a whole run, restarts included, no minute's jobs run twice if and only if no task sees a minute come back
      and none is started within a minute an earlier one has read. */
  lemma EachMinuteOnceIff(es: seq<Event>)
    ensures EachMinuteOnce(Run(es).tasks) <==> MinutesReadOnce(es, Run(es).tasks)
  {
    var tasks := Run(es).tasks;
    if EachMinuteOnce(tasks) {
      forall t | t in tasks && tasks[t].buffer ensures Together(Readings(es, t)) { MinuteOnceIff(es, t); }
      forall t, u | t in tasks && u in tasks && t != u && tasks[t].buffer && tasks[u].buffer
        ensures Apart(Readings(es, t), Readings(es, u))
      {
        NoneSharedIff(es, t, u);
      }
    }
    if MinutesReadOnce(es, tasks) {
      forall t | t in tasks ensures Distinct(tasks[t].minutes) {
        if tasks[t].buffer { MinuteOnceIff(es, t); } else { MinutesRun(es, t); }
      }
      forall t, u | t in tasks && u in tasks && t != u ensures Apart(tasks[t].minutes, tasks[u].minutes) {
        NoneSharedIff(es, t, u);
      }
    }
  }

  /** The clock readings of a run do not go back. */
  ghost predicate Steady(es: seq<Event>) {
    forall i, j | 0 <= i < j < |es| && es[i].Poll? && es[j].Poll? :: es[i].now <= es[j].now
  }

  ghost predicate Rising(r: seq<int>) { forall i, j | 0 <= i < j < |r| :: r[i] <= r[j] }

  lemma {:induction false} SteadyReadings(es: seq<Event>, t: nat, clock: int)
    requires Steady(es)
    requires forall i | 0 <= i < |es| && es[i].Poll? :: es[i].now <= clock
    ensures Rising(Readings(es, t))
    ensures forall m | m in Readings(es, t) :: m <= clock / 60
  {
    if es != [] {
      var init, e := es[..|es|-1], es[|es|-1];
      SteadyReadings(init, t, if e.Poll? then e.now else clock);
      assert forall i | 0 <= i < |Readings(init, t)| :: Readings(init, t)[i] in Readings(init, t);
    }
  }

  /** While the clock does not go back, no task runs the jobs of one minute twice. */
  lemma NoMinuteTwice(es: seq<Event>, t: nat)
    requires Steady(es) && t in Run(es).tasks
    ensures Distinct(Run(es).tasks[t].minutes)
  {
    var clock := LastReading(es);
    SteadyReadings(es, t, clock);
    if Run(es).tasks[t].buffer { MinuteOnceIff(es, t); } else { MinutesRun(es, t); }
  }

  lemma {:induction false} LastReading(es: seq<Event>) returns (clock: int)
    ensures forall i | 0 <= i < |es| && es[i].Poll? :: es[i].now <= clock
  {
    clock := 0;
    if es != [] {
      var c := LastReading(es[..|es|-1]);
      var e := es[|es|-1];
      clock := if e.Poll? && e.now > c then e.now else c;
    }
  }

  lemma RunStep(es: seq<Event>, e: Event)
    ensures Run(es + [e]) == if Enabled(Run(es), e) then Next(Run(es), e) else Run(es)
  {
    assert (es + [e])[..|es|] == es;
  }

  /** Inputs of both kinds: a clock set back past the minute before, and a task created within the minute in which
      the first has retired, which starts with no memory of it. */
  lemma MinuteTwiceOtherwise()
    ensures exists es: seq<Event> :: 1 in Run(es).tasks && |Run(es).tasks[1].minutes| == 3
              && Run(es).tasks[1].minutes[0] == Run(es).tasks[1].minutes[2]
    ensures exists es: seq<Event> :: Steady(es) && 1 in Run(es).tasks && 2 in Run(es).tasks
              && Run(es).tasks[1].minutes == Run(es).tasks[2].minutes != []
  {
    var a, b := 1700000040, 1700000100;
    var e0 := Start(true, true);
    var es := [e0];
    assert es[..0] == [];
    assert Run([]) == INITIAL;
    RunStep(es, Poll(1, a));
    RunStep(es + [Poll(1, a)], Check(1));
    var once := es + [Poll(1, a)] + [Check(1)];
    RunStep(once, Poll(1, b));
    RunStep(once + [Poll(1, b)], Check(1));
    RunStep(once + [Poll(1, b)] + [Check(1)], Poll(1, a));
    assert Run(once + [Poll(1, b)] + [Check(1)] + [Poll(1, a)]).tasks[1].minutes == [a / 60, b / 60, a / 60];
    var stop := es + [Poll(1, a)] + [Stop];
    RunStep(es + [Poll(1, a)], Stop);
    RunStep(stop, Check(1));
    RunStep(stop + [Check(1)], e0);
    RunStep(stop + [Check(1)] + [e0], Poll(2, a));
    var again := stop + [Check(1)] + [e0] + [Poll(2, a)];
    assert Run(again).tasks[1].minutes == Run(again).tasks[2].minutes == [a / 60];
    assert Steady(again);
  }

  // ---------- the code ----------

  /** The two variables behind the lock, and what runs beside their callers. */
  class Service {
    var sRun: bool
    var sTask: nat
    var born: nat
    var tasks: map<nat, Task>

    ghost function Now(): State
      reads this
    {
      State(sRun, sTask, born, tasks)
    }

    constructor ()
      ensures Now() == INITIAL
    {
      sRun, sTask, born, tasks := false, 0, 0, map[];
    }

    /** The lock section of a start; `created` is what creating a task answers if it comes to that. */
    method Start(created: bool, buffer: bool) returns (running: bool)
      modifies this
      ensures Now() == Next(old(Now()), Event.Start(created, buffer)) && running == Now().run
    {
      sRun := true;
      if sTask == 0 {
        if created {
          born := born + 1;
          tasks := tasks[born := Task(Polling, buffer, 0, [])];
          sTask := born;
        } else {
          sTask := 0;
          sRun := false;
        }
      }
      running := sRun;
    }

    method Stop()
      modifies this
      ensures Now() == Next(old(Now()), Event.Stop)
    {
      sRun := false;
    }

    /** The first half of its loop. */
    method Poll(t: nat, now: int)
      requires Enabled(Now(), Event.Poll(t, now))
      modifies this
      ensures Now() == Next(old(Now()), Event.Poll(t, now))
    {
      var k := tasks[t];
      if k.buffer && now > CLOCK_SET {
        var minute := now / 60;
        if minute != k.last {
          k := k.(last := minute, minutes := k.minutes + [minute]);
        }
      }
      tasks := tasks[t := k.(pc := Checking)];
    }

    /** The second half, under the lock. */
    method Check(t: nat) returns (retired: bool)
      requires Enabled(Now(), Event.Check(t))
      modifies this
      ensures Now() == Next(old(Now()), Event.Check(t)) && retired == !old(sRun)
    {
      retired := !sRun;
      if !sRun { sTask := 0; }
      tasks := tasks[t := tasks[t].(pc := if retired then Retired else Polling)];
    }
  }
}
