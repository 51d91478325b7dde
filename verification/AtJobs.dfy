/** One-shot jobs: the lock sections of `at` and of its worker, interleaved in any order. */
module AtJobs {
  const AT_MAX: nat := 8

  datatype Job = Job(used: bool, id: nat, due: int, cmd: string)

  const FREE: Job := Job(false, 0, 0, "")

  /** Asleep, holding a job it took at some time, or about to look for more work. */
  datatype Pc = Sleeping | Holding(id: nat, cmd: string, time: int) | Looking | Retired

  /** One task: whether it got its output buffer when it started, and where it is. */
  datatype Task = Task(buffer: bool, pc: Pc)

  /** What became of a job that got an id. */
  datatype Fate = Waiting | Held | Done | Lost | Removed | Refused

  datatype Ask = Ask(due: int, cmd: string)

  datatype Ran = Ran(id: nat, cmd: string, time: int)

  /** What was asked for, what became of it and which task took it; kept only for the statements below. */
  datatype History = History(asked: map<nat, Ask>, fate: map<nat, Fate>, taker: map<nat, nat>, log: seq<Ran>)

  /** `s_at`, `s_at_next`, `s_at_task` (0 for none), and all workers ever created. */
  datatype State = State(jobs: seq<Job>, next: nat, task: nat, born: nat, tasks: map<nat, Task>, h: History)

  datatype Event =
    | Add(due: int, cmd: string, created: bool, buffer: bool)
    | Delete(id: int)
    | Take(t: nat, time: int)
    | Execute(t: nat)
    | Look(t: nat)

  const INITIAL: State :=
    State([FREE, FREE, FREE, FREE, FREE, FREE, FREE, FREE], 1, 0, 0, map[], History(map[], map[], map[], []))

  // ---------- steps ----------

  /** The first slot that is (or is not) as asked for; the number of slots if there is none. */
  function FirstFree(jobs: seq<Job>): (i: nat)
    ensures i <= |jobs| && (forall k | 0 <= k < i :: jobs[k].used) && (i < |jobs| ==> !jobs[i].used)
  {
    if jobs == [] || !jobs[0].used then 0 else 1 + FirstFree(jobs[1..])
  }

  function FirstDue(jobs: seq<Job>, time: int): (i: nat)
    ensures i <= |jobs| && (forall k | 0 <= k < i :: !(jobs[k].used && jobs[k].due <= time))
    ensures i < |jobs| ==> jobs[i].used && jobs[i].due <= time
  {
    if jobs == [] || (jobs[0].used && jobs[0].due <= time) then 0 else 1 + FirstDue(jobs[1..], time)
  }

  function FirstWithId(jobs: seq<Job>, id: int): (i: nat)
    ensures i <= |jobs| && (forall k | 0 <= k < i :: !(jobs[k].used && jobs[k].id == id))
    ensures i < |jobs| ==> jobs[i].used && jobs[i].id == id
  {
    if jobs == [] || (jobs[0].used && jobs[0].id == id) then 0 else 1 + FirstWithId(jobs[1..], id)
  }

  predicate AnyUsed(jobs: seq<Job>) { exists k :: 0 <= k < |jobs| && jobs[k].used }

  predicate Enabled(s: State, e: Event) {
    match e
    case Take(t, _) => t in s.tasks && s.tasks[t].pc == Sleeping
    case Execute(t) => t in s.tasks && s.tasks[t].pc.Holding?
    case Look(t) => t in s.tasks && s.tasks[t].pc == Looking
    case _ => true
  }

  /** Places the job, and starts a task if none is there; if that fails the job is taken back. */
  function AddStep(s: State, due: int, cmd: string, created: bool, buffer: bool): State {
    var i := FirstFree(s.jobs);
    if i == |s.jobs| then s
    else
      var ok := s.task != 0 || created;
      var h := s.h.(asked := s.h.asked[s.next := Ask(due, cmd)],
          fate := s.h.fate[s.next := if ok then Waiting else Refused]);
      var s1 := s.(jobs := s.jobs[i := Job(ok, s.next, due, cmd)], next := s.next + 1, h := h);
      if s.task != 0 || !ok then s1
      else s1.(task := s.born + 1, born := s.born + 1, tasks := s.tasks[s.born + 1 := Task(buffer, Sleeping)])
  }

  function DeleteStep(s: State, id: int): State {
    var i := FirstWithId(s.jobs, id);
    if i == |s.jobs| then s
    else
      s.(jobs := s.jobs[i := s.jobs[i].(used := false)], h := s.h.(fate := s.h.fate[s.jobs[i].id := Removed]))
  }

  function At(tasks: map<nat, Task>, t: nat, pc: Pc): map<nat, Task>
    requires t in tasks
  {
    tasks[t := tasks[t].(pc := pc)]
  }

  /** Takes the first job that is due out of the table. */
  function TakeStep(s: State, t: nat, time: int): State
    requires t in s.tasks
  {
    var i := FirstDue(s.jobs, time);
    if i == |s.jobs| then s.(tasks := At(s.tasks, t, Looking))
    else
      var j := s.jobs[i];
      s.(jobs := s.jobs[i := j.(used := false)], tasks := At(s.tasks, t, Holding(j.id, j.cmd, time)),
         h := s.h.(fate := s.h.fate[j.id := Held], taker := s.h.taker[j.id := t]))
  }

  /** Runs the job taken, unless the task has no buffer for its output. */
  function ExecuteStep(s: State, t: nat): State
    requires Enabled(s, Execute(t))
  {
    var k := s.tasks[t].pc;
    s.(tasks := At(s.tasks, t, Looking),
       h := if s.tasks[t].buffer then s.h.(fate := s.h.fate[k.id := Done], log := s.h.log + [Ran(k.id, k.cmd, k.time)])
            else s.h.(fate := s.h.fate[k.id := Lost]))
  }

  /** Sleeps again if any job is left, and retires if none is. */
  function LookStep(s: State, t: nat): State
    requires t in s.tasks
  {
    if AnyUsed(s.jobs) then s.(tasks := At(s.tasks, t, Sleeping))
    else s.(task := 0, tasks := At(s.tasks, t, Retired))
  }

  function Next(s: State, e: Event): State
    requires Enabled(s, e)
  {
    match e
    case Add(due, cmd, created, buffer) => AddStep(s, due, cmd, created, buffer)
    case Delete(id) => DeleteStep(s, id)
    case Take(t, time) => TakeStep(s, t, time)
    case Execute(t) => ExecuteStep(s, t)
    case Look(t) => LookStep(s, t)
  }

  function Run(es: seq<Event>): State {
    if es == [] then INITIAL
    else
      var s, e := Run(es[..|es|-1]), es[|es|-1];
      if Enabled(s, e) then Next(s, e) else s
  }

  // ---------- what every run keeps ----------

  ghost predicate HasSlot(jobs: seq<Job>, id: nat) { exists i :: 0 <= i < |jobs| && jobs[i].used && jobs[i].id == id }

  ghost predicate IsHeld(s: State, id: nat) {
    s.task in s.tasks && s.tasks[s.task].pc.Holding? && s.tasks[s.task].pc.id == id
  }

  ghost predicate InLog(log: seq<Ran>, id: nat) { exists i :: 0 <= i < |log| && log[i].id == id }

  /** The one task that has not retired is the one in `s_at_task`, and a job in the table has it. */
  ghost predicate TaskInv(s: State) {
    && |s.jobs| == AT_MAX && s.next > 0
    && (s.task != 0 ==> s.task in s.tasks && s.tasks[s.task].pc != Retired)
    && (forall t | t in s.tasks :: 0 < t <= s.born && (s.tasks[t].pc != Retired ==> t == s.task))
    && (AnyUsed(s.jobs) ==> s.task != 0)
  }

  /** Every id given out has exactly one fate, and the fate says where the job is. */
  ghost predicate FateInv(s: State) {
    && s.h.asked.Keys == s.h.fate.Keys
    && (forall id: nat :: id in s.h.fate <==> 0 < id < s.next)
    && (forall id | id in s.h.fate :: s.h.fate[id] == Waiting <==> HasSlot(s.jobs, id))
    && (forall id | id in s.h.fate :: s.h.fate[id] == Held <==> IsHeld(s, id))
    && (forall id | id in s.h.fate :: s.h.fate[id] == Done <==> InLog(s.h.log, id))
  }

  /** What is in the table, in a task's hands or in the log is what was asked for. */
  ghost predicate JobInv(s: State) {
    && (forall i | 0 <= i < |s.jobs| && s.jobs[i].used ::
          s.jobs[i].id in s.h.fate && s.jobs[i].id in s.h.asked
              && s.h.asked[s.jobs[i].id] == Ask(s.jobs[i].due, s.jobs[i].cmd))
    && (forall i, k | 0 <= i < k < |s.jobs| && s.jobs[i].used && s.jobs[k].used :: s.jobs[i].id != s.jobs[k].id)
    && (s.task in s.tasks && s.tasks[s.task].pc.Holding? ==>
          var k := s.tasks[s.task].pc;
          k.id in s.h.asked && s.h.asked[k.id].cmd == k.cmd && s.h.asked[k.id].due <= k.time)
  }

  ghost predicate LogInv(h: History) {
    && (forall i | 0 <= i < |h.log| ::
          h.log[i].id in h.asked && h.asked[h.log[i].id].cmd == h.log[i].cmd
              && h.asked[h.log[i].id].due <= h.log[i].time)
    && (forall i, k | 0 <= i < k < |h.log| :: h.log[i].id != h.log[k].id)
  }

  /** Of each job that was taken: by whom, and whether that task can run it. */
  ghost predicate TakerInv(s: State) {
    && s.h.taker.Keys <= s.h.fate.Keys
    && forall id | id in s.h.fate ::
      && (id in s.h.taker <==> s.h.fate[id] in {Held, Done, Lost})
      && (id in s.h.taker ==> s.h.taker[id] in s.tasks && FateFits(s, id, s.h.taker[id]))
  }

  ghost predicate FateFits(s: State, id: nat, t: nat)
    requires id in s.h.fate && t in s.tasks
  {
    && (s.h.fate[id] == Held ==> t == s.task)
    && (s.h.fate[id] == Done ==> s.tasks[t].buffer)
    && (s.h.fate[id] == Lost ==> !s.tasks[t].buffer)
  }

  ghost predicate Inv(s: State) { TaskInv(s) && FateInv(s) && JobInv(s) && LogInv(s.h) && TakerInv(s) }

  lemma AddKeepsTaskInv(s: State, due: int, cmd: string, created: bool, buffer: bool)
    requires Inv(s)
    ensures TaskInv(AddStep(s, due, cmd, created, buffer))
  {
    var i := FirstFree(s.jobs);
    var r := AddStep(s, due, cmd, created, buffer);
    if i < |s.jobs| && s.task == 0 && !created {
      forall k | 0 <= k < |r.jobs| ensures !r.jobs[k].used { assert k != i ==> r.jobs[k] == s.jobs[k]; }
    }
  }

  lemma AddKeepsFateInv(s: State, due: int, cmd: string, created: bool, buffer: bool)
    requires Inv(s)
    ensures FateInv(AddStep(s, due, cmd, created, buffer))
  {
    var i := FirstFree(s.jobs);
    if i < |s.jobs| {
      var r := AddStep(s, due, cmd, created, buffer);
      forall id | id in r.h.fate
        ensures r.h.fate[id] == Waiting <==> HasSlot(r.jobs, id)
        ensures r.h.fate[id] == Held <==> IsHeld(r, id)
        ensures r.h.fate[id] == Done <==> InLog(r.h.log, id)
      {
        if id != s.next {
          SlotElsewhere(s.jobs, r.jobs, i, id);
          assert r.h.fate[id] == s.h.fate[id];
        } else {
          NewId(s, r, i);
        }
      }
    }
  }

  /** The id about to be given out is nowhere yet. */
  lemma NewId(s: State, r: State, i: nat)
    requires Inv(s) && i < |s.jobs| && |r.jobs| == |s.jobs| && r.jobs == s.jobs[i := r.jobs[i]]
    requires r.jobs[i].id == s.next && r.h.log == s.h.log
    requires if s.task == 0 then r.task in r.tasks ==> r.tasks[r.task].pc == Sleeping
             else r.task == s.task && r.tasks == s.tasks
    ensures HasSlot(r.jobs, s.next) == r.jobs[i].used && !IsHeld(r, s.next) && !InLog(r.h.log, s.next)
  {
    assert forall k | 0 <= k < |s.jobs| && s.jobs[k].used :: s.jobs[k].id < s.next;
    assert r.jobs[i].used ==> HasSlot(r.jobs, s.next);
  }

  lemma AddKeepsJobInv(s: State, due: int, cmd: string, created: bool, buffer: bool)
    requires TaskInv(s) && FateInv(s) && JobInv(s)
    ensures JobInv(AddStep(s, due, cmd, created, buffer))
  {
  }

  lemma AddKeepsLogInv(s: State, due: int, cmd: string, created: bool, buffer: bool)
    requires TaskInv(s) && FateInv(s) && LogInv(s.h)
    ensures LogInv(AddStep(s, due, cmd, created, buffer).h)
  {
  }

  lemma AddKeepsTakerInv(s: State, due: int, cmd: string, created: bool, buffer: bool)
    requires TaskInv(s) && FateInv(s) && TakerInv(s)
    ensures TakerInv(AddStep(s, due, cmd, created, buffer))
  {
    var r := AddStep(s, due, cmd, created, buffer);
    assert s.next !in s.h.taker && r.h.taker == s.h.taker;
    forall id | id in r.h.fate && id != s.next && id in r.h.taker
      ensures r.h.taker[id] in r.tasks && FateFits(r, id, r.h.taker[id])
    {
      assert FateFits(s, id, s.h.taker[id]);
      assert s.h.fate[id] == Held ==> IsHeld(s, id);
    }
  }

  lemma AddKeepsInv(s: State, due: int, cmd: string, created: bool, buffer: bool)
    requires Inv(s)
    ensures Inv(AddStep(s, due, cmd, created, buffer))
  {
    AddKeepsTaskInv(s, due, cmd, created, buffer);
    AddKeepsFateInv(s, due, cmd, created, buffer);
    AddKeepsJobInv(s, due, cmd, created, buffer);
    AddKeepsLogInv(s, due, cmd, created, buffer);
    AddKeepsTakerInv(s, due, cmd, created, buffer);
  }

  /** Changing one slot changes nothing for an id that neither was nor is in it. */
  lemma SlotElsewhere(a: seq<Job>, b: seq<Job>, i: nat, id: nat)
    requires |a| == |b| && i < |a| && b == a[i := b[i]]
    requires !(a[i].used && a[i].id == id) && !(b[i].used && b[i].id == id)
    ensures HasSlot(a, id) <==> HasSlot(b, id)
  {
    if k :| 0 <= k < |a| && a[k].used && a[k].id == id { assert b[k] == a[k]; }
    if k :| 0 <= k < |b| && b[k].used && b[k].id == id { assert b[k] == a[k]; }
  }

  /** Freeing a slot takes away its id and no other. */
  lemma FreeSlot(s: State, i: nat)
    requires JobInv(s) && i < |s.jobs| && s.jobs[i].used
    ensures var b := s.jobs[i := s.jobs[i].(used := false)];
      forall id: nat :: HasSlot(b, id) <==> HasSlot(s.jobs, id) && id != s.jobs[i].id
  {
    var b := s.jobs[i := s.jobs[i].(used := false)];
    forall id: nat ensures HasSlot(b, id) <==> HasSlot(s.jobs, id) && id != s.jobs[i].id {
      if id != s.jobs[i].id { SlotElsewhere(s.jobs, b, i, id); }
    }
  }

  lemma DeleteKeepsTakerInv(s: State, id: int)
    requires FateInv(s) && JobInv(s) && TakerInv(s)
    ensures TakerInv(DeleteStep(s, id))
  {
    var i := FirstWithId(s.jobs, id);
    if i < |s.jobs| { assert HasSlot(s.jobs, s.jobs[i].id); }
  }

  lemma DeleteKeepsFateInv(s: State, id: int)
    requires TaskInv(s) && FateInv(s) && JobInv(s)
    ensures TaskInv(DeleteStep(s, id)) && FateInv(DeleteStep(s, id))
  {
    var i := FirstWithId(s.jobs, id);
    if i < |s.jobs| { FreeSlot(s, i); assert HasSlot(s.jobs, s.jobs[i].id); }
  }

  lemma DeleteKeepsJobInv(s: State, id: int)
    requires TaskInv(s) && JobInv(s)
    ensures JobInv(DeleteStep(s, id))
  {
  }

  lemma DeleteKeepsInv(s: State, id: int)
    requires Inv(s)
    ensures Inv(DeleteStep(s, id))
  {
    DeleteKeepsTakerInv(s, id);
    DeleteKeepsFateInv(s, id);
    DeleteKeepsJobInv(s, id);
  }

  lemma TakeKeepsTakerInv(s: State, t: nat, time: int)
    requires TaskInv(s) && FateInv(s) && JobInv(s) && TakerInv(s) && Enabled(s, Take(t, time))
    ensures TakerInv(TakeStep(s, t, time))
  {
    var i := FirstDue(s.jobs, time);
    if i < |s.jobs| { assert HasSlot(s.jobs, s.jobs[i].id); }
  }

  lemma TakeKeepsFateInv(s: State, t: nat, time: int)
    requires TaskInv(s) && FateInv(s) && JobInv(s) && Enabled(s, Take(t, time))
    ensures TaskInv(TakeStep(s, t, time)) && FateInv(TakeStep(s, t, time))
  {
    var i := FirstDue(s.jobs, time);
    if i < |s.jobs| { FreeSlot(s, i); assert HasSlot(s.jobs, s.jobs[i].id); }
  }

  lemma TakeKeepsJobInv(s: State, t: nat, time: int)
    requires TaskInv(s) && JobInv(s) && Enabled(s, Take(t, time))
    ensures JobInv(TakeStep(s, t, time))
  {
  }

  lemma TakeKeepsInv(s: State, t: nat, time: int)
    requires Inv(s) && Enabled(s, Take(t, time))
    ensures Inv(TakeStep(s, t, time))
  {
    TakeKeepsTakerInv(s, t, time);
    TakeKeepsFateInv(s, t, time);
    TakeKeepsJobInv(s, t, time);
  }

  lemma ExecuteKeepsTakerInv(s: State, t: nat)
    requires TaskInv(s) && FateInv(s) && JobInv(s) && TakerInv(s) && Enabled(s, Execute(t))
    ensures TakerInv(ExecuteStep(s, t)) && TaskInv(ExecuteStep(s, t))
  {
    var r, k := ExecuteStep(s, t), s.tasks[t].pc;
    assert t == s.task && IsHeld(s, k.id) && FateFits(s, k.id, s.h.taker[k.id]);
    forall id | id in r.h.taker
      ensures r.h.taker[id] in r.tasks && FateFits(r, id, r.h.taker[id])
    {
      assert FateFits(s, id, s.h.taker[id]);
      assert s.h.fate[id] == Held ==> IsHeld(s, id);
    }
  }

  lemma ExecuteKeepsFateInv(s: State, t: nat)
    requires TaskInv(s) && FateInv(s) && JobInv(s) && Enabled(s, Execute(t))
    ensures FateInv(ExecuteStep(s, t))
  {
    var r, k := ExecuteStep(s, t), s.tasks[t].pc;
    assert t == s.task && IsHeld(s, k.id) && !InLog(s.h.log, k.id);
    forall id | id in r.h.fate ensures r.h.fate[id] == Done <==> InLog(r.h.log, id) {
      LogGrows(s.h.log, r.h.log, Ran(k.id, k.cmd, k.time), id);
    }
  }

  lemma ExecuteKeepsLogInv(s: State, t: nat)
    requires TaskInv(s) && FateInv(s) && JobInv(s) && LogInv(s.h) && Enabled(s, Execute(t))
    ensures LogInv(ExecuteStep(s, t).h) && JobInv(ExecuteStep(s, t))
  {
    var k := s.tasks[t].pc;
    assert t == s.task && IsHeld(s, k.id) && !InLog(s.h.log, k.id);
  }

  lemma ExecuteKeepsInv(s: State, t: nat)
    requires Inv(s) && Enabled(s, Execute(t))
    ensures Inv(ExecuteStep(s, t))
  {
    ExecuteKeepsTakerInv(s, t);
    ExecuteKeepsFateInv(s, t);
    ExecuteKeepsLogInv(s, t);
  }

  lemma LogGrows(a: seq<Ran>, b: seq<Ran>, e: Ran, id: nat)
    ensures b == a + [e] ==> (InLog(b, id) <==> InLog(a, id) || id == e.id)
  {
    if b == a + [e] {
      assert b[|a|] == e;
      if i :| 0 <= i < |a| && a[i].id == id { assert b[i].id == id; }
    }
  }

  lemma LookKeepsTakerInv(s: State, t: nat)
    requires TaskInv(s) && FateInv(s) && TakerInv(s) && Enabled(s, Look(t))
    ensures TaskInv(LookStep(s, t)) && TakerInv(LookStep(s, t))
  {
  }

  lemma LookKeepsFateInv(s: State, t: nat)
    requires TaskInv(s) && FateInv(s) && JobInv(s) && Enabled(s, Look(t))
    ensures FateInv(LookStep(s, t)) && JobInv(LookStep(s, t))
  {
  }

  lemma LookKeepsInv(s: State, t: nat)
    requires Inv(s) && Enabled(s, Look(t))
    ensures Inv(LookStep(s, t))
  {
    LookKeepsTakerInv(s, t);
    LookKeepsFateInv(s, t);
  }

  lemma {:induction false} RunKeepsInv(es: seq<Event>)
    ensures Inv(Run(es))
  {
    if es != [] {
      var s, e := Run(es[..|es|-1]), es[|es|-1];
      RunKeepsInv(es[..|es|-1]);
      if Enabled(s, e) {
        match e
        case Add(due, cmd, created, buffer) => AddKeepsInv(s, due, cmd, created, buffer);
        case Delete(id) => DeleteKeepsInv(s, id);
        case Take(t, time) => TakeKeepsInv(s, t, time);
        case Execute(t) => ExecuteKeepsInv(s, t);
        case Look(t) => LookKeepsInv(s, t);
      }
    }
  }

  // ---------- main results ----------

  /** In every run: at most one task is alive, and no job in the table is left without it. */
  lemma NoJobOrphaned(es: seq<Event>, i: nat)
    requires i < |Run(es).jobs| && Run(es).jobs[i].used
    ensures var s := Run(es);
      && s.task in s.tasks && s.tasks[s.task].pc != Retired
      && forall t | t in s.tasks && t != s.task :: s.tasks[t].pc == Retired
  {
    RunKeepsInv(es);
  }

  /** In every run each job is executed at most once, with its own command and not before it is due, and a job
      that was deleted is never executed. */
  lemma ExecutedAtMostOnce(es: seq<Event>, i: nat)
    requires i < |Run(es).h.log|
    ensures var s, r := Run(es), Run(es).h.log[i];
      && r.id in s.h.asked && r.cmd == s.h.asked[r.id].cmd && s.h.asked[r.id].due <= r.time
      && (forall k | 0 <= k < |s.h.log| && k != i :: s.h.log[k].id != r.id)
      && r.id in s.h.fate && s.h.fate[r.id] == Done && !HasSlot(s.jobs, r.id)
  {
    RunKeepsInv(es);
    assert InLog(Run(es).h.log, Run(es).h.log[i].id);
  }

  /** A job that was taken and is no longer held was executed if its worker has a buffer, and is lost if not. */
  lemma LostIff(es: seq<Event>, id: nat)
    requires id in Run(es).h.taker && !IsHeld(Run(es), id)
    ensures var s := Run(es);
      && s.h.taker[id] in s.tasks && id in s.h.fate
      && (s.h.fate[id] == Lost <==> !s.tasks[s.h.taker[id]].buffer)
      && (s.h.fate[id] == Done <==> s.tasks[s.h.taker[id]].buffer)
  {
    RunKeepsInv(es);
  }

  /** Jobs are lost in a run if and only if a worker without a buffer got as far as taking one. */
  lemma AnyLostIff(es: seq<Event>)
    ensures var s := Run(es);
      (exists id :: id in s.h.fate && s.h.fate[id] == Lost) <==>
      (exists id :: id in s.h.taker && s.h.taker[id] in s.tasks && !s.tasks[s.h.taker[id]].buffer && !IsHeld(s, id))
  {
    RunKeepsInv(es);
    var s := Run(es);
    if id :| id in s.h.fate && s.h.fate[id] == Lost { assert id in s.h.taker; }
    if id :| id in s.h.taker && s.h.taker[id] in s.tasks && !s.tasks[s.h.taker[id]].buffer && !IsHeld(s, id) {
      LostIff(es, id);
    }
  }

  lemma RunStep(es: seq<Event>, e: Event)
    ensures Run(es + [e]) == if Enabled(Run(es), e) then Next(Run(es), e) else Run(es)
  {
    assert (es + [e])[..|es|] == es;
  }

  /** The first slot's job, if due, ends lost in the hands of a task without a buffer. */
  lemma LostWithoutBuffer(s: State, t: nat, time: int)
    requires s.jobs != [] && s.jobs[0].used && s.jobs[0].due <= time
    requires t in s.tasks && s.tasks[t] == Task(false, Sleeping)
    ensures Enabled(s, Take(t, time))
    ensures var r := Next(s, Take(t, time));
      Enabled(r, Execute(t)) && var l := Next(r, Execute(t));
        s.jobs[0].id in l.h.fate && l.h.fate[s.jobs[0].id] == Lost && l.h.log == s.h.log
  {
    assert FirstDue(s.jobs, time) == 0;
  }

  lemma FirstAdded(s: State, due: int, cmd: string, buffer: bool)
    requires s.jobs != [] && !s.jobs[0].used && s.task == 0
    ensures var r := AddStep(s, due, cmd, true, buffer);
      && r.jobs != [] && r.jobs[0] == Job(true, s.next, due, cmd) && r.h.log == s.h.log
      && s.born + 1 in r.tasks && r.tasks[s.born + 1] == Task(buffer, Sleeping)
  {
  }

  /** Runs in which it happens: the worker is created but gets no buffer; its job, once due, is taken and never
      executed. */
  lemma JobLostWithoutBuffer(due: int, cmd: string, time: int) returns (es: seq<Event>)
    requires due <= time
    ensures es == [Add(due, cmd, true, false), Take(1, time), Execute(1)]
    ensures 1 in Run(es).h.fate && Run(es).h.fate[1] == Lost && Run(es).h.log == []
  {
    var add, take := Add(due, cmd, true, false), Take(1, time);
    es := [];
    var s := Run(es);
    FirstAdded(s, due, cmd, false);
    RunStep(es, add);
    LostWithoutBuffer(Next(s, add), 1, time);
    RunStep(es + [add], take);
    RunStep(es + [add] + [take], Execute(1));
    es := es + [add] + [take] + [Execute(1)];
  }

  predicate Settled(f: Fate) { f != Waiting && f != Held }

  lemma SlotIsWaiting(s: State, i: nat)
    requires FateInv(s) && JobInv(s)
    ensures i < |s.jobs| && s.jobs[i].used ==> s.jobs[i].id in s.h.fate && s.h.fate[s.jobs[i].id] == Waiting
  {
    assert i < |s.jobs| && s.jobs[i].used ==> HasSlot(s.jobs, s.jobs[i].id);
  }

  lemma NextKeepsSettled(s: State, e: Event, id: nat)
    requires TaskInv(s) && FateInv(s) && JobInv(s) && Enabled(s, e) && id in s.h.fate && Settled(s.h.fate[id])
    ensures var r := Next(s, e); id in r.h.fate && r.h.fate[id] == s.h.fate[id]
  {
    match e
    case Delete(n) => SlotIsWaiting(s, FirstWithId(s.jobs, n));
    case Take(t, time) => SlotIsWaiting(s, FirstDue(s.jobs, time));
    case Execute(t) => assert IsHeld(s, s.tasks[t].pc.id);
    case _ =>
  }

  /** What has become of a job is final: one that was deleted (or refused, or lost) is never executed. */
  lemma {:induction false} FateIsFinal(es: seq<Event>, more: seq<Event>, id: nat)
    requires id in Run(es).h.fate && Settled(Run(es).h.fate[id])
    ensures id in Run(es + more).h.fate && Run(es + more).h.fate[id] == Run(es).h.fate[id]
    ensures Run(es).h.fate[id] != Done ==> !InLog(Run(es + more).h.log, id)
    decreases |more|
  {
    RunKeepsInv(es + more);
    if more == [] {
      assert es + more == es;
    } else {
      var shorter, e := more[..|more|-1], more[|more|-1];
      FateIsFinal(es, shorter, id);
      RunKeepsInv(es + shorter);
      assert (es + more)[..|es + more|-1] == es + shorter;
      if Enabled(Run(es + shorter), e) { NextKeepsSettled(Run(es + shorter), e, id); }
    }
  }

  /** The step that settles a job's fate: an add that could not start a task, a delete that found the job in the
      table, an execution in the hands of a task with a buffer or without one. */
  ghost predicate Settles(s: State, e: Event, id: nat, f: Fate) {
    match f
    case Refused => e.Add? && s.next == id && HasFree(s.jobs) && s.task == 0 && !e.created
    case Removed => e.Delete? && e.id == id && HasSlot(s.jobs, id)
    case Done => e.Execute? && Enabled(s, e) && s.tasks[e.t].pc.id == id && s.tasks[e.t].buffer
    case Lost => e.Execute? && Enabled(s, e) && s.tasks[e.t].pc.id == id && !s.tasks[e.t].buffer
    case _ => false
  }

  ghost predicate HasFate(s: State, id: nat, f: Fate) { id in s.h.fate && s.h.fate[id] == f }

  ghost predicate SettledAt(es: seq<Event>, i: nat, id: nat, f: Fate) {
    i < |es| && Settles(Run(es[..i]), es[i], id, f)
  }

  lemma AddSettles(s: State, due: int, cmd: string, created: bool, buffer: bool, id: nat, f: Fate)
    requires Inv(s) && Settled(f)
    ensures HasFate(AddStep(s, due, cmd, created, buffer), id, f) <==>
            HasFate(s, id, f) || Settles(s, Add(due, cmd, created, buffer), id, f)
  {
    FirstFreeIs(s.jobs, FirstFree(s.jobs));
    assert s.next !in s.h.fate;
  }

  lemma DeleteSettles(s: State, n: int, id: nat, f: Fate)
    requires Inv(s) && Settled(f)
    ensures HasFate(DeleteStep(s, n), id, f) <==> HasFate(s, id, f) || Settles(s, Delete(n), id, f)
  {
    var i := FirstWithId(s.jobs, n);
    FirstWithIdIs(s.jobs, n, i);
    SlotIsWaiting(s, i);
  }

  lemma TakeSettles(s: State, t: nat, time: int, id: nat, f: Fate)
    requires Inv(s) && Settled(f) && Enabled(s, Take(t, time))
    ensures HasFate(TakeStep(s, t, time), id, f) <==> HasFate(s, id, f)
  {
    SlotIsWaiting(s, FirstDue(s.jobs, time));
  }

  lemma ExecuteSettles(s: State, t: nat, id: nat, f: Fate)
    requires Inv(s) && Settled(f) && Enabled(s, Execute(t))
    ensures HasFate(ExecuteStep(s, t), id, f) <==> HasFate(s, id, f) || Settles(s, Execute(t), id, f)
  {
    assert IsHeld(s, s.tasks[t].pc.id);
  }

  lemma NextSettles(s: State, e: Event, id: nat, f: Fate)
    requires Inv(s) && Settled(f)
    ensures HasFate(if Enabled(s, e) then Next(s, e) else s, id, f) <==> HasFate(s, id, f) || Settles(s, e, id, f)
  {
    match e
    case Add(due, cmd, created, buffer) => AddSettles(s, due, cmd, created, buffer, id, f);
    case Delete(n) => DeleteSettles(s, n, id, f);
    case Take(t, time) => if Enabled(s, e) { TakeSettles(s, t, time, id, f); }
    case Execute(t) => if Enabled(s, e) { ExecuteSettles(s, t, id, f); }
    case Look(t) =>
  }

  ghost predicate EverSettled(es: seq<Event>, id: nat, f: Fate) { exists i: nat :: SettledAt(es, i, id, f) }

  lemma {:induction false} SettledBefore(init: seq<Event>, e: Event, i: nat, id: nat, f: Fate)
    ensures i < |init| ==> (SettledAt(init + [e], i, id, f) <==> SettledAt(init, i, id, f))
    ensures i == |init| ==> (SettledAt(init + [e], i, id, f) <==> Settles(Run(init), e, id, f))
  {
    if i <= |init| { assert (init + [e])[..i] == init[..i]; }
    assert init[..|init|] == init;
  }

  lemma {:induction false} SettledLonger(init: seq<Event>, e: Event, id: nat, f: Fate)
    ensures EverSettled(init + [e], id, f) <==> EverSettled(init, id, f) || Settles(Run(init), e, id, f)
  {
    SettledBefore(init, e, |init|, id, f);
    if i: nat :| SettledAt(init + [e], i, id, f) { SettledBefore(init, e, i, id, f); }
    if i: nat :| SettledAt(init, i, id, f) { SettledBefore(init, e, i, id, f); }
  }

  /** A job's fate is settled if and only if the step happened that settles it so. */
  lemma {:induction false} SettledByEvent(es: seq<Event>, id: nat, f: Fate)
    requires Settled(f)
    ensures HasFate(Run(es), id, f) <==> EverSettled(es, id, f)
  {
    if es != [] {
      var init, e := es[..|es|-1], es[|es|-1];
      SettledByEvent(init, id, f);
      RunKeepsInv(init);
      NextSettles(Run(init), e, id, f);
      SettledLonger(init, e, id, f);
      assert es == init + [e];
    }
  }

  /** No job is forgotten: every id given out is waiting in the table with a live task, in that task's hands, or was
      refused, deleted, executed or dropped by the step that does so; and it is each of these only then. */
  lemma EveryJobAccountedFor(es: seq<Event>, id: nat)
    requires 0 < id < Run(es).next
    ensures var s := Run(es);
      && id in s.h.fate
      && (s.h.fate[id] == Waiting <==> HasSlot(s.jobs, id)) && (HasSlot(s.jobs, id) ==> s.task != 0)
      && (s.h.fate[id] == Held <==> IsHeld(s, id))
      && (s.h.fate[id] == Done <==> InLog(s.h.log, id))
      && forall f | Settled(f) :: s.h.fate[id] == f <==> EverSettled(es, id, f)
  {
    RunKeepsInv(es);
    forall f | Settled(f) ensures Run(es).h.fate[id] == f <==> EverSettled(es, id, f) {
      SettledByEvent(es, id, f);
    }
  }

  // ---------- the code ----------

  class Queue {
    const sAt: array<Job>
    var sAtNext: nat
    var sAtTask: nat
    var born: nat
    var tasks: map<nat, Task>
    ghost var h: History

    ghost function Now(): State
      reads this, sAt
    {
      State(sAt[..], sAtNext, sAtTask, born, tasks, h)
    }

    constructor ()
      ensures fresh(sAt) && Now() == INITIAL
    {
      sAt := new Job[AT_MAX](_ => FREE);
      sAtNext, sAtTask, born, tasks := 1, 0, 0, map[];
      h := History(map[], map[], map[], []);
      new;
      assert sAt[..] == INITIAL.jobs;
    }

    /** The lock section of `at <time> <command>`; true if the job was scheduled. */
    method Add(due: int, cmd: string, created: bool, buffer: bool) returns (ok: bool)
      modifies this, sAt
      ensures Now() == Next(old(Now()), Event.Add(due, cmd, created, buffer))
      ensures ok <==> HasFree(old(sAt[..])) && (old(sAtTask) != 0 || created)
    {
      ghost var before := sAt[..];
      var slot := 0;
      while slot < sAt.Length && sAt[slot].used
        invariant slot <= sAt.Length && forall k | 0 <= k < slot :: sAt[k].used
      {
        slot := slot + 1;
      }
      FirstFreeIs(before, slot);
      if slot == sAt.Length { return false; }
      var id := sAtNext;
      sAt[slot] := Job(true, id, due, cmd);
      sAtNext := sAtNext + 1;
      ok := true;
      if sAtTask == 0 {
        if created {
          born := born + 1;
          tasks := tasks[born := Task(buffer, Sleeping)];
          sAtTask := born;
        } else {
          sAtTask := 0;
          sAt[slot] := sAt[slot].(used := false);
          ok := false;
        }
      }
      h := h.(asked := h.asked[id := Ask(due, cmd)], fate := h.fate[id := if ok then Waiting else Refused]);
      assert sAt[..] == before[slot := Job(ok, id, due, cmd)];
    }

    /** The lock section of `at -d <id>`. */
    method Delete(id: int) returns (ok: bool)
      modifies this, sAt
      ensures Now() == Next(old(Now()), Event.Delete(id))
      ensures ok <==> exists k :: 0 <= k < |old(sAt[..])| && old(sAt[..])[k].used && old(sAt[..])[k].id == id
    {
      ghost var before := sAt[..];
      var i := 0;
      while i < sAt.Length && !(sAt[i].used && sAt[i].id == id)
        invariant i <= sAt.Length && forall k | 0 <= k < i :: !(sAt[k].used && sAt[k].id == id)
      {
        i := i + 1;
      }
      FirstWithIdIs(before, id, i);
      if i == sAt.Length { return false; }
      ok := true;
      assert before[i].used && before[i].id == id;
      sAt[i] := sAt[i].(used := false);
      h := h.(fate := h.fate[before[i].id := Removed]);
      assert sAt[..] == before[i := before[i].(used := false)];
    }

    /** The worker's first lock section. */
    method Take(t: nat, time: int)
      requires Enabled(Now(), Event.Take(t, time))
      modifies this, sAt
      ensures Now() == Next(old(Now()), Event.Take(t, time))
    {
      ghost var before := sAt[..];
      var i := 0;
      while i < sAt.Length && !(sAt[i].used && sAt[i].due <= time)
        invariant i <= sAt.Length && forall k | 0 <= k < i :: !(sAt[k].used && sAt[k].due <= time)
      {
        i := i + 1;
      }
      FirstDueIs(before, time, i);
      if i == sAt.Length {
        tasks := tasks[t := tasks[t].(pc := Looking)];
      } else {
        tasks := tasks[t := tasks[t].(pc := Holding(sAt[i].id, sAt[i].cmd, time))];
        sAt[i] := sAt[i].(used := false);
        h := h.(fate := h.fate[before[i].id := Held], taker := h.taker[before[i].id := t]);
        assert sAt[..] == before[i := before[i].(used := false)];
      }
    }

    /** Between the lock sections: runs the command taken if the task has a buffer. */
    method Execute(t: nat) returns (cmd: string)
      requires Enabled(Now(), Event.Execute(t))
      modifies this
      ensures Now() == Next(old(Now()), Event.Execute(t)) && cmd == old(tasks[t].pc.cmd)
    {
      ghost var k := tasks[t].pc;
      cmd := tasks[t].pc.cmd;
      if tasks[t].buffer {
        h := h.(fate := h.fate[k.id := Done], log := h.log + [Ran(k.id, k.cmd, k.time)]);
      } else {
        h := h.(fate := h.fate[k.id := Lost]);
      }
      tasks := tasks[t := tasks[t].(pc := Looking)];
    }

    /** The worker's second lock section. */
    method Look(t: nat) returns (retired: bool)
      requires Enabled(Now(), Event.Look(t))
      modifies this
      ensures Now() == Next(old(Now()), Event.Look(t)) && retired == !AnyUsed(old(sAt[..]))
    {
      ghost var before := sAt[..];
      var any := false;
      for i := 0 to sAt.Length
        invariant sAt[..] == before && tasks == old(tasks) && sAtTask == old(sAtTask)
        invariant any <==> exists k :: 0 <= k < i && before[k].used
      {
        if sAt[i].used { any := true; }
      }
      retired := !any;
      if any {
        tasks := tasks[t := tasks[t].(pc := Sleeping)];
      } else {
        sAtTask := 0;
        tasks := tasks[t := tasks[t].(pc := Retired)];
      }
    }
  }

  predicate HasFree(jobs: seq<Job>) { exists k :: 0 <= k < |jobs| && !jobs[k].used }

  lemma FirstFreeIs(jobs: seq<Job>, i: nat)
    requires i <= |jobs| && (forall k | 0 <= k < i :: jobs[k].used) && (i < |jobs| ==> !jobs[i].used)
    ensures FirstFree(jobs) == i && (HasFree(jobs) <==> i < |jobs|)
  {
  }

  lemma FirstWithIdIs(jobs: seq<Job>, id: int, i: nat)
    requires i <= |jobs| && (forall k | 0 <= k < i :: !(jobs[k].used && jobs[k].id == id))
    requires i < |jobs| ==> jobs[i].used && jobs[i].id == id
    ensures FirstWithId(jobs, id) == i
  {
  }

  lemma FirstDueIs(jobs: seq<Job>, time: int, i: nat)
    requires i <= |jobs| && (forall k | 0 <= k < i :: !(jobs[k].used && jobs[k].due <= time))
    requires i < |jobs| ==> jobs[i].used && jobs[i].due <= time
    ensures FirstDue(jobs, time) == i
  {
  }
}
