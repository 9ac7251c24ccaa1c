/**
 The node orchestrator as a transition system: the action loop, the crash supervisor and the
 shutdown tasks share one process slot under a lock.  A step is what one task does between
 two points where it can be suspended, or something the environment does.
 */
module Supervisor {
  import opened Options

  datatype Holder = Free | ByAction | BySupervisor | ByShutdown

  // What may wait for the lock: the action loop, the crash supervisor, any number of shutdowns
  datatype Task = ActionLoop | CrashSupervisor | ShutdownTask

  // Where the action loop is.  Everything outside a restart is Idle.
  datatype ActionPc =
    | Idle | Waiting                       // before and while acquiring the lock
    | Stopping | StopFailed                // the stop call, and the kill after it failed
    | AwaitingExit | TimedOut | AwaitingKilled
    | Down | Spawning | Warming            // staying down, launching, waiting for RPC

  // Where the crash supervisor is, with the process it looked at
  datatype SupervisorPc =
    | Top | Polling(ref: nat) | Wanting(ref: nat)
    | Checking(ref: nat) | Relaunching(ref: nat) | Warm(ref: nat)
    | Ended

  // Where the shutdown task that holds the lock is
  datatype ShutdownPc = Absent | Looking | Asking | Terminating | Watching | Killing | Leaving

  /** Processes are numbered in the order they were launched; `slot` is the one the
      orchestrator refers to.  `queue` holds the tasks that wait for the lock, in the order in
      which they asked for it; the lock serves them in that order.  Only a chaos node has an
      action loop. */
  datatype State = State(
    holder: Holder, queue: seq<Task>, slot: nat, exited: seq<bool>,
    action: ActionPc, supervisor: SupervisorPc, shutdown: ShutdownPc,
    chaos: bool, gone: bool)
  {
    // It is this task's turn to take the lock
    predicate Serves(t: Task) { holder.Free? && |queue| > 0 && queue[0] == t }
  }

  datatype Step =
    | ProcessExits(p: nat) | Signal
    | RestartBegins | RestartLocks | StopAnswered | StopRefused | KillSent
    | ExitSeen | ExitTimesOut | DowntimeOver | ActionSpawns | ActionReady | ActionRaises
    | SupervisorLooks | SupervisorSeesExit | SupervisorLocks | SupervisorChecks
    | SupervisorSpawns | SupervisorReady | SupervisorRaises
    | ShutdownLocks | ShutdownLooks | ShutdownAnswered | ShutdownRefused | TerminateSent
    | ShutdownSeesExit | ShutdownTimesOut | ShutdownKills | ShutdownLeaves | ShutdownRaises

  // The restart holds the lock from acquiring it until RPC answers or something raises
  predicate InRestart(pc: ActionPc) { !pc.Idle? && !pc.Waiting? }

  predicate SupervisorInside(pc: SupervisorPc) { pc.Checking? || pc.Relaunching? || pc.Warm? }

  predicate IsLaunch(step: Step) { step.ActionSpawns? || step.SupervisorSpawns? }

  function Start(chaos: bool): State { State(Free, [], 0, [false], Idle, Top, Absent, chaos, false) }

  function ActionStep(s: State, step: Step): (r: Option<State>)
    requires s.slot < |s.exited|
    ensures r.Some? ==> r.value.slot < |r.value.exited|
  {
    match (step, s.action)
    case (RestartBegins, Idle) =>
      if s.chaos then Some(s.(action := Waiting, queue := s.queue + [ActionLoop])) else None
    case (RestartLocks, Waiting) =>
      if s.Serves(ActionLoop) then Some(s.(action := Stopping, holder := ByAction, queue := s.queue[1..])) else None
    case (StopAnswered, Stopping) => Some(s.(action := AwaitingExit))
    case (StopRefused, Stopping) => Some(s.(action := StopFailed))
    case (KillSent, StopFailed) => Some(s.(action := AwaitingExit))
    case (KillSent, TimedOut) => Some(s.(action := AwaitingKilled))
    case (ExitSeen, AwaitingExit) => if s.exited[s.slot] then Some(s.(action := Down)) else None
    case (ExitSeen, AwaitingKilled) => if s.exited[s.slot] then Some(s.(action := Down)) else None
    case (ExitTimesOut, AwaitingExit) => Some(s.(action := TimedOut))
    case (DowntimeOver, Down) => Some(s.(action := Spawning))
    case (ActionSpawns, Spawning) =>
      Some(s.(action := Warming, exited := s.exited + [false], slot := |s.exited|))
    case (ActionReady, Warming) => Some(s.(action := Idle, holder := Free))
    case (ActionRaises, pc) => if InRestart(pc) then Some(s.(action := Idle, holder := Free)) else None
    case _ => None
  }

  function SupervisorStep(s: State, step: Step): (r: Option<State>)
    requires s.slot < |s.exited|
    ensures r.Some? ==> r.value.slot < |r.value.exited|
  {
    match (step, s.supervisor)
    case (SupervisorLooks, Top) => Some(s.(supervisor := Polling(s.slot)))
    case (SupervisorSeesExit, Polling(ref)) =>
      if ref < |s.exited| && s.exited[ref]
      then Some(s.(supervisor := Wanting(ref), queue := s.queue + [CrashSupervisor])) else None
    case (SupervisorLocks, Wanting(ref)) =>
      if s.Serves(CrashSupervisor)
      then Some(s.(supervisor := Checking(ref), holder := BySupervisor, queue := s.queue[1..])) else None
    case (SupervisorChecks, Checking(ref)) =>
      if ref != s.slot then Some(s.(supervisor := Top, holder := Free))
      else Some(s.(supervisor := Relaunching(ref)))
    case (SupervisorSpawns, Relaunching(ref)) =>
      Some(s.(supervisor := Warm(ref), exited := s.exited + [false], slot := |s.exited|))
    case (SupervisorReady, Warm(ref)) => Some(s.(supervisor := Top, holder := Free))
    case (SupervisorRaises, pc) =>
      if SupervisorInside(pc) then Some(s.(supervisor := Ended, holder := Free)) else None
    case _ => None
  }

  function ShutdownStep(s: State, step: Step): (r: Option<State>)
    requires s.slot < |s.exited|
    ensures r.Some? ==> r.value.slot < |r.value.exited|
  {
    match (step, s.shutdown)
    case (ShutdownLocks, Absent) =>
      if s.Serves(ShutdownTask)
      then Some(s.(shutdown := Looking, holder := ByShutdown, queue := s.queue[1..])) else None
    case (ShutdownLooks, Looking) => Some(s.(shutdown := if s.exited[s.slot] then Leaving else Asking))
    case (ShutdownAnswered, Asking) => Some(s.(shutdown := Watching))
    case (ShutdownRefused, Asking) => Some(s.(shutdown := Terminating))
    case (TerminateSent, Terminating) => Some(s.(shutdown := Watching))
    case (ShutdownSeesExit, Watching) => if s.exited[s.slot] then Some(s.(shutdown := Leaving)) else None
    case (ShutdownTimesOut, Watching) => Some(s.(shutdown := Killing))
    case (ShutdownKills, Killing) => Some(s.(shutdown := Leaving))
    case (ShutdownLeaves, Leaving) => Some(s.(shutdown := Absent, holder := Free, gone := true))
    case (ShutdownRaises, Terminating) =>
      if s.exited[s.slot] then Some(s.(shutdown := Absent, holder := Free)) else None
    case (ShutdownRaises, Killing) =>
      if s.exited[s.slot] then Some(s.(shutdown := Absent, holder := Free)) else None
    case _ => None
  }

  // What a step leads to, if it can happen in s
  function After(s: State, step: Step): (r: Option<State>)
    requires s.slot < |s.exited|
    ensures r.Some? ==> r.value.slot < |r.value.exited|
  {
    if step.ProcessExits? then
      if step.p < |s.exited| && !s.exited[step.p] then Some(s.(exited := s.exited[step.p := true])) else None
    else if s.gone then None
    else if step.Signal? then Some(s.(queue := s.queue + [ShutdownTask]))
    else if ActionStep(s, step).Some? then ActionStep(s, step)
    else if SupervisorStep(s, step).Some? then SupervisorStep(s, step)
    else ShutdownStep(s, step)
  }

  // ---- the invariant ----

  ghost predicate Inv(s: State)
  {
    && s.slot + 1 == |s.exited|
    && (forall p :: 0 <= p < s.slot ==> s.exited[p])
    && (s.holder.ByAction? <==> InRestart(s.action))
    && (s.holder.BySupervisor? <==> SupervisorInside(s.supervisor))
    && (s.holder.ByShutdown? <==> !s.shutdown.Absent?)
    && (s.action.Down? || s.action.Spawning? ==> s.exited[s.slot])
    && SupervisorSound(s)
    && QueueSound(s)
    && (!s.chaos ==> s.action.Idle?)
  }

  // The queue holds exactly the tasks that wait, the action loop and the supervisor once each
  ghost predicate QueueSound(s: State)
  {
    && OnceEach(s.queue)
    && (ActionLoop in s.queue <==> s.action.Waiting?)
    && (CrashSupervisor in s.queue <==> s.supervisor.Wanting?)
  }

  ghost predicate OnceEach(queue: seq<Task>)
  {
    forall i, j :: 0 <= i < j < |queue| && queue[i] == queue[j] ==> queue[i].ShutdownTask?
  }

  lemma Joins(queue: seq<Task>, t: Task)
    requires OnceEach(queue) && (t in queue ==> t.ShutdownTask?)
    ensures OnceEach(queue + [t])
    ensures forall u :: u in queue + [t] <==> u in queue || u == t
  {
  }

  lemma Leaves(queue: seq<Task>)
    requires OnceEach(queue) && |queue| > 0
    ensures OnceEach(queue[1..])
    ensures forall u: Task :: !u.ShutdownTask? ==> (u in queue[1..] <==> u in queue && u != queue[0])
  {
    forall u: Task | !u.ShutdownTask?
      ensures u in queue[1..] <==> u in queue && u != queue[0]
    {
      if u in queue && u != queue[0] {
        var i :| 0 <= i < |queue| && queue[i] == u;
        assert queue[1..][i - 1] == u;
      }
      if u in queue[1..] {
        var i :| 0 <= i < |queue| - 1 && queue[1..][i] == u;
        assert queue[i + 1] == u;
      }
    }
  }

  ghost predicate SupervisorSound(s: State)
  {
    match s.supervisor
    case Polling(ref) => ref <= s.slot
    case Wanting(ref) => ref < |s.exited| && s.exited[ref]
    case Checking(ref) => ref < |s.exited| && s.exited[ref]
    case Relaunching(ref) => ref == s.slot < |s.exited| && s.exited[ref]
    case _ => true
  }

  lemma ActionKeepsInv(s: State, step: Step)
    requires Inv(s) && ActionStep(s, step).Some?
    ensures Inv(ActionStep(s, step).value)
  {
    if step.RestartBegins? {
      Joins(s.queue, ActionLoop);
    } else if step.RestartLocks? {
      Leaves(s.queue);
    }
  }

  lemma SupervisorKeepsInv(s: State, step: Step)
    requires Inv(s) && SupervisorStep(s, step).Some?
    ensures Inv(SupervisorStep(s, step).value)
  {
    if step.SupervisorSeesExit? {
      Joins(s.queue, CrashSupervisor);
    } else if step.SupervisorLocks? {
      Leaves(s.queue);
    }
  }

  lemma ShutdownKeepsInv(s: State, step: Step)
    requires Inv(s) && ShutdownStep(s, step).Some?
    ensures Inv(ShutdownStep(s, step).value)
  {
    if step.ShutdownLocks? {
      Leaves(s.queue);
    }
  }

  lemma InvKept(s: State, step: Step)
    requires Inv(s) && After(s, step).Some?
    ensures Inv(After(s, step).value)
  {
    if step.ProcessExits? {
    } else if step.Signal? {
      Joins(s.queue, ShutdownTask);
    } else if ActionStep(s, step).Some? {
      ActionKeepsInv(s, step);
    } else if SupervisorStep(s, step).Some? {
      SupervisorKeepsInv(s, step);
    } else {
      ShutdownKeepsInv(s, step);
    }
  }

  // ---- runs ----

  datatype Run = Run(states: seq<State>, steps: seq<Step>)

  ghost predicate IsRun(r: Run)
  {
    && |r.states| == |r.steps| + 1
    && Inv(r.states[0])
    && forall i: nat :: i < |r.steps| ==> Linked(r, i)
  }

  // Step i leads from state i to the next one
  ghost predicate Linked(r: Run, i: nat)
    requires i < |r.steps| && |r.states| == |r.steps| + 1
  {
    r.states[i].slot < |r.states[i].exited| && After(r.states[i], r.steps[i]) == Some(r.states[i + 1])
  }

  lemma InvNext(r: Run, i: nat)
    requires IsRun(r) && i < |r.steps| && Inv(r.states[i])
    ensures Inv(r.states[i + 1])
  {
    assert Linked(r, i);
    InvKept(r.states[i], r.steps[i]);
  }

  lemma {:induction false} InvAlways(r: Run, i: nat)
    requires IsRun(r) && i < |r.states|
    ensures Inv(r.states[i])
  {
    if i > 0 {
      InvAlways(r, i - 1);
      InvNext(r, i - 1);
    }
  }

  /** At most one tapyrusd is alive, in every state of every run: whatever interleaving,
      whichever launches and kills raise. */
  lemma AtMostOneLive(r: Run, i: nat, p: nat, q: nat)
    requires IsRun(r) && r.states[0] == Start(r.states[0].chaos) && i < |r.states|
    requires p < |r.states[i].exited| && !r.states[i].exited[p]
    requires q < |r.states[i].exited| && !r.states[i].exited[q]
    ensures p == q == r.states[i].slot
  {
    InvAlways(r, i);
  }

  lemma LaunchesFromTheDead(s: State, step: Step)
    requires Inv(s) && After(s, step).Some? && IsLaunch(step)
    ensures s.exited[s.slot] && After(s, step).value.slot == s.slot + 1
    ensures step.SupervisorSpawns? ==> s.supervisor == Relaunching(s.slot)
  {
  }

  /** A process is launched only when every earlier one has exited, and a relaunch by the
      supervisor replaces the very process it watched, never a newer one. */
  lemma LaunchesReplaceTheDead(r: Run, i: nat)
    requires IsRun(r) && i < |r.steps| && IsLaunch(r.steps[i])
    ensures forall p :: 0 <= p < |r.states[i].exited| ==> r.states[i].exited[p]
    ensures r.states[i + 1].slot == r.states[i].slot + 1
    ensures r.steps[i].SupervisorSpawns? ==> r.states[i].supervisor == Relaunching(r.states[i].slot)
  {
    InvAlways(r, i);
    assert Linked(r, i);
    LaunchesFromTheDead(r.states[i], r.steps[i]);
  }

  lemma SlotGrowsOnce(r: Run, k: nat)
    requires IsRun(r) && k < |r.steps|
    ensures r.states[k].slot <= r.states[k + 1].slot
  {
    InvAlways(r, k);
    assert Linked(r, k);
  }

  lemma {:induction false} SlotGrows(r: Run, i: nat, j: nat)
    requires IsRun(r) && i <= j < |r.states|
    ensures r.states[i].slot <= r.states[j].slot
    decreases j - i
  {
    if i < j {
      SlotGrows(r, i, j - 1);
      SlotGrowsOnce(r, j - 1);
    }
  }

  /** No process is replaced twice: two launches never start from the same slot. */
  lemma OneSuccessorEach(r: Run, i: nat, j: nat)
    requires IsRun(r) && i < j < |r.steps| && IsLaunch(r.steps[i]) && IsLaunch(r.steps[j])
    ensures r.states[i].slot < r.states[j].slot
  {
    LaunchesReplaceTheDead(r, i);
    SlotGrows(r, i + 1, j);
  }

  // ---- deliberate downtime ----

  // The part of a restart before its own launch
  predicate BeforeLaunch(pc: ActionPc) { InRestart(pc) && !pc.Warming? }

  lemma OnlyTheRestartLaunches(s: State, step: Step)
    requires Inv(s) && After(s, step).Some? && BeforeLaunch(s.action) && !step.ActionSpawns?
    ensures |After(s, step).value.exited| == |s.exited| && !IsLaunch(step)
  {
  }

  lemma DownStep(r: Run, k: nat)
    requires IsRun(r) && k < |r.steps| && BeforeLaunch(r.states[k].action) && !r.steps[k].ActionSpawns?
    ensures |r.states[k + 1].exited| == |r.states[k].exited| && !IsLaunch(r.steps[k])
  {
    InvAlways(r, k);
    assert Linked(r, k);
    OnlyTheRestartLaunches(r.states[k], r.steps[k]);
  }

  /** Between a restart's stop and its own launch nothing is launched, by anyone: as long as
      the action loop stays in that part of the restart, the number of processes does not
      change, and afterwards only its own step can change it. */
  lemma {:induction false} DowntimeIsNotCutShort(r: Run, i: nat, j: nat)
    requires IsRun(r) && i <= j < |r.states|
    requires forall k :: i <= k < j ==> BeforeLaunch(r.states[k].action) && !r.steps[k].ActionSpawns?
    ensures |r.states[j].exited| == |r.states[i].exited|
    ensures forall k :: i <= k < j ==> !IsLaunch(r.steps[k])
    decreases j - i
  {
    if i < j {
      DowntimeIsNotCutShort(r, i, j - 1);
      var k := j - 1;
      assert BeforeLaunch(r.states[k].action) && !r.steps[k].ActionSpawns?;
      DownStep(r, k);
    }
  }

  // ---- shutdown ----

  lemma StaysShutDown(s: State, step: Step)
    requires Inv(s) && After(s, step).Some? && !step.ShutdownRaises?
    requires ShutsDown(s)
    ensures
      var t := After(s, step).value;
      ShutsDown(t) && |t.exited| == |s.exited| && !IsLaunch(step)
  {
  }

  // A shutdown task has the lock, or the orchestrator is gone
  predicate ShutsDown(s: State) { !s.shutdown.Absent? || s.gone }

  lemma ShutdownStaysAt(r: Run, k: nat)
    requires IsRun(r) && k < |r.steps| && ShutsDown(r.states[k]) && !r.steps[k].ShutdownRaises?
    ensures ShutsDown(r.states[k + 1])
    ensures |r.states[k + 1].exited| == |r.states[k].exited| && !IsLaunch(r.steps[k])
  {
    InvAlways(r, k);
    assert Linked(r, k);
    StaysShutDown(r.states[k], r.steps[k]);
  }

  /** Once a shutdown task has the lock, nothing is launched again unless a terminate or kill
      of that task raises. */
  lemma {:induction false} NoLaunchAfterShutdown(r: Run, i: nat, j: nat)
    requires IsRun(r) && i <= j < |r.states|
    requires ShutsDown(r.states[i])
    requires forall k :: i <= k < j ==> !r.steps[k].ShutdownRaises?
    ensures ShutsDown(r.states[j])
    ensures |r.states[j].exited| == |r.states[i].exited|
    ensures forall k :: i <= k < j ==> !IsLaunch(r.steps[k])
    decreases j - i
  {
    if i < j {
      NoLaunchAfterShutdown(r, i, j - 1);
      var k := j - 1;
      assert !r.steps[k].ShutdownRaises?;
      ShutdownStaysAt(r, k);
    }
  }

  lemma EndedStays(r: Run, k: nat)
    requires IsRun(r) && k < |r.steps| && r.states[k].supervisor.Ended?
    ensures r.states[k + 1].supervisor.Ended? && !r.steps[k].SupervisorSpawns?
  {
    assert Linked(r, k);
  }

  /** After the supervisor's task has ended it launches nothing, so a crash is no longer
      recovered from; only an exception inside its locked part ends it. */
  lemma {:induction false} EndedForGood(r: Run, i: nat, j: nat)
    requires IsRun(r) && i <= j < |r.states| && r.states[i].supervisor.Ended?
    ensures r.states[j].supervisor.Ended?
    ensures forall k :: i <= k < j ==> !r.steps[k].SupervisorSpawns?
    decreases j - i
  {
    if i < j {
      EndedForGood(r, i, j - 1);
      EndedStays(r, j - 1);
    }
  }

  // ---- playing a list of steps ----

  function Play(s: State, steps: seq<Step>): Option<State>
    requires s.slot < |s.exited|
    decreases |steps|
  {
    if |steps| == 0 then Some(s)
    else
      var next := After(s, steps[0]);
      if next.None? then None else Play(next.value, steps[1..])
  }

  lemma PlayOne(s: State, step: Step, rest: seq<Step>, next: State)
    requires s.slot < |s.exited| && After(s, step) == Some(next) && next.slot < |next.exited|
    ensures Play(s, [step] + rest) == Play(next, rest)
  {
    assert ([step] + rest)[1..] == rest;
  }

  const ATTEMPT: seq<Step> := [SupervisorLocks, SupervisorChecks, SupervisorSpawns]
  const STALE: seq<Step> := [SupervisorLocks, SupervisorChecks]
  const LOOK: seq<Step> := [SupervisorLooks, SupervisorSeesExit]

  // What the supervisor still has to do before it relaunches a process that has exited
  function Recovery(s: State): seq<Step>
  {
    match s.supervisor
    case Polling(ref) =>
      if ref == s.slot then [SupervisorSeesExit] + ATTEMPT
      else [SupervisorSeesExit] + STALE + LOOK + ATTEMPT
    case Wanting(ref) => if ref == s.slot then ATTEMPT else STALE + LOOK + ATTEMPT
    case _ => LOOK + ATTEMPT
  }

  lemma RelaunchStep(s: State)
    requires Inv(s) && s.supervisor == Relaunching(s.slot) && !s.gone
    ensures Play(s, [SupervisorSpawns]).Some? && IsFresh(s, Play(s, [SupervisorSpawns]).value)
  {
    var launched := After(s, SupervisorSpawns).value;
    PlayOne(s, SupervisorSpawns, [], launched);
    assert [SupervisorSpawns] == [SupervisorSpawns] + [];
  }

  // Nobody but the supervisor waits for the lock
  predicate NobodyElse(s: State) { s.queue == [] || s.queue == [CrashSupervisor] }

  lemma CheckingLaunches(s: State)
    requires Inv(s) && !s.gone && s.supervisor == Checking(s.slot)
    ensures Play(s, [SupervisorChecks, SupervisorSpawns]).Some?
    ensures IsFresh(s, Play(s, [SupervisorChecks, SupervisorSpawns]).value)
  {
    var relaunching := s.(supervisor := Relaunching(s.slot));
    PlayOne(s, SupervisorChecks, [SupervisorSpawns], relaunching);
    RelaunchStep(relaunching);
    assert [SupervisorChecks, SupervisorSpawns] == [SupervisorChecks] + [SupervisorSpawns];
  }

  // What it is when the supervisor gets the lock
  lemma SupervisorGetsLock(s: State) returns (checking: State)
    requires Inv(s) && s.Serves(CrashSupervisor) && !s.gone && s.supervisor.Wanting?
    ensures checking == s.(supervisor := Checking(s.supervisor.ref), holder := BySupervisor, queue := s.queue[1..])
    ensures After(s, SupervisorLocks) == Some(checking) && Inv(checking)
  {
    checking := After(s, SupervisorLocks).value;
    InvKept(s, SupervisorLocks);
  }

  lemma AttemptLaunches(s: State)
    requires Inv(s) && s.Serves(CrashSupervisor) && !s.gone && s.supervisor == Wanting(s.slot)
    ensures Play(s, ATTEMPT).Some? && IsFresh(s, Play(s, ATTEMPT).value)
  {
    var checking := SupervisorGetsLock(s);
    PlayOne(s, SupervisorLocks, [SupervisorChecks, SupervisorSpawns], checking);
    CheckingLaunches(checking);
    assert ATTEMPT == [SupervisorLocks] + [SupervisorChecks, SupervisorSpawns];
  }

  // t is s with one process more, alive and in the slot
  ghost predicate IsFresh(s: State, t: State)
  {
    t.slot == s.slot + 1 && |t.exited| == |s.exited| + 1 && t.slot < |t.exited| && !t.exited[t.slot]
  }

  lemma SeeingLaunches(s: State)
    requires Inv(s) && s.holder.Free? && !s.gone && s.exited[s.slot] && s.queue == []
    requires s.supervisor == Polling(s.slot)
    ensures Play(s, [SupervisorSeesExit] + ATTEMPT).Some?
    ensures IsFresh(s, Play(s, [SupervisorSeesExit] + ATTEMPT).value)
  {
    var wanting := After(s, SupervisorSeesExit).value;
    InvKept(s, SupervisorSeesExit);
    PlayOne(s, SupervisorSeesExit, ATTEMPT, wanting);
    AttemptLaunches(wanting);
  }

  lemma LookLaunches(s: State)
    requires Inv(s) && s.holder.Free? && !s.gone && s.supervisor == Top && s.exited[s.slot] && NobodyElse(s)
    ensures Play(s, LOOK + ATTEMPT).Some? && IsFresh(s, Play(s, LOOK + ATTEMPT).value)
  {
    var polling := s.(supervisor := Polling(s.slot));
    PlayOne(s, SupervisorLooks, [SupervisorSeesExit] + ATTEMPT, polling);
    assert LOOK + ATTEMPT == [SupervisorLooks] + ([SupervisorSeesExit] + ATTEMPT);
    SeeingLaunches(polling);
  }

  // The supervisor gets the lock for a process that has already been replaced
  lemma StaleGivesUp(s: State, rest: seq<Step>) returns (top: State)
    requires Inv(s) && s.Serves(CrashSupervisor) && !s.gone
    requires s.supervisor.Wanting? && s.supervisor.ref != s.slot
    ensures top == s.(supervisor := Top, queue := s.queue[1..]) && Inv(top)
    ensures Play(s, STALE + rest) == Play(top, rest)
  {
    var checking := SupervisorGetsLock(s);
    top := After(checking, SupervisorChecks).value;
    InvKept(checking, SupervisorChecks);
    PlayOne(s, SupervisorLocks, [SupervisorChecks] + rest, checking);
    PlayOne(checking, SupervisorChecks, rest, top);
    assert STALE + rest == [SupervisorLocks] + ([SupervisorChecks] + rest);
  }

  lemma WantingLaunches(s: State)
    requires Inv(s) && s.holder.Free? && !s.gone && s.exited[s.slot] && s.supervisor.Wanting? && NobodyElse(s)
    ensures Play(s, Recovery(s)).Some? && IsFresh(s, Play(s, Recovery(s)).value)
  {
    assert s.Serves(CrashSupervisor);
    if s.supervisor.ref == s.slot {
      AttemptLaunches(s);
    } else {
      var top := StaleGivesUp(s, LOOK + ATTEMPT);
      assert STALE + LOOK + ATTEMPT == STALE + (LOOK + ATTEMPT);
      assert NobodyElse(top);
      LookLaunches(top);
    }
  }

  /** Crash recovery: whenever the process in the slot is dead, the lock is free with nobody else
      in the queue and the supervisor has not ended, the supervisor's own next steps relaunch it,
      also when it still holds a reference to an older process. */
  lemma CrashIsRecovered(s: State)
    requires Inv(s) && s.holder.Free? && !s.gone && s.exited[s.slot] && !s.supervisor.Ended? && NobodyElse(s)
    ensures |Recovery(s)| <= 8 && Play(s, Recovery(s)).Some? && IsFresh(s, Play(s, Recovery(s)).value)
    ensures forall step :: step in Recovery(s) ==> step in LOOK + ATTEMPT
  {
    match s.supervisor
    case Polling(ref) =>
      assert s.exited[ref];
      var wanting := After(s, SupervisorSeesExit).value;
      InvKept(s, SupervisorSeesExit);
      PlayOne(s, SupervisorSeesExit, Recovery(wanting), wanting);
      assert Recovery(s) == [SupervisorSeesExit] + Recovery(wanting);
      WantingLaunches(wanting);
    case Wanting(ref) =>
      WantingLaunches(s);
    case _ =>
      LookLaunches(s);
  }

  // ---- which shutdowns can still be undone ----

  /** The shutdown will not terminate or kill anything any more: it is about to leave, or about
      to look at a process that has already exited, or it has left. */
  predicate Sealed(s: State)
    requires s.slot < |s.exited|
  {
    s.gone || s.shutdown.Leaving? || (s.shutdown.Looking? && s.exited[s.slot])
  }

  lemma SealedStays(s: State, step: Step)
    requires Inv(s) && Sealed(s) && After(s, step).Some?
    ensures Sealed(After(s, step).value) && |After(s, step).value.exited| == |s.exited|
  {
    if step.ProcessExits? || step.Signal? {
    } else if ActionStep(s, step).Some? {
    } else if SupervisorStep(s, step).Some? {
    } else {
      assert ShutdownStep(s, step).Some?;
    }
  }

  lemma {:induction false} SealedNeverLaunches(s: State, steps: seq<Step>)
    requires Inv(s) && Sealed(s) && Play(s, steps).Some?
    ensures |Play(s, steps).value.exited| == |s.exited|
    decreases |steps|
  {
    if |steps| > 0 {
      SealedStays(s, steps[0]);
      InvKept(s, steps[0]);
      SealedNeverLaunches(After(s, steps[0]).value, steps[1..]);
    }
  }

  // Something can still be launched from s
  ghost predicate CanLaunch(s: State)
    requires s.slot < |s.exited|
  {
    exists steps :: Play(s, steps).Some? && |Play(s, steps).value.exited| > |s.exited|
  }

  lemma LaunchesNow(s: State, step: Step)
    requires Inv(s) && After(s, step).Some? && IsLaunch(step)
    ensures CanLaunch(s)
  {
    InvKept(s, step);
    var next := After(s, step).value;
    LaunchesFromTheDead(s, step);
    PlayOne(s, step, [], next);
    assert Play(s, [step] + []) == Some(next);
  }

  lemma LaunchesLater(s: State, step: Step, next: State)
    requires s.slot < |s.exited| && After(s, step) == Some(next)
    requires next.slot < |next.exited| == |s.exited| && CanLaunch(next)
    ensures CanLaunch(s)
  {
    var steps :| Play(next, steps).Some? && |Play(next, steps).value.exited| > |next.exited|;
    PlayOne(s, step, steps, next);
  }

  // ---- who comes next ----

  // The supervisor waits for the lock on behalf of a process that has already been replaced
  predicate IsStale(s: State) { s.supervisor.Wanting? && s.supervisor.ref != s.slot }

  // Another shutdown gets the lock before anyone who would launch something
  predicate ShutdownNext(s: State)
  {
    && |s.queue| > 0
    && (|| s.queue[0] == ShutdownTask
        || (s.queue[0] == CrashSupervisor && IsStale(s) && |s.queue| > 1 && s.queue[1] == ShutdownTask))
  }

  // There is still a task that launches processes
  predicate HasLauncher(s: State) { s.chaos || !s.supervisor.Ended? }

  // A restart that has seen its process exit
  lemma DownLaunches(s: State)
    requires Inv(s) && s.action.Down? && !s.gone
    ensures CanLaunch(s)
  {
    var spawning := s.(action := Spawning);
    LaunchesNow(spawning, ActionSpawns);
    LaunchesLater(s, DowntimeOver, spawning);
  }

  lemma AwaitingLaunches(s: State)
    requires Inv(s) && s.action.AwaitingExit? && !s.gone && s.exited[s.slot]
    ensures CanLaunch(s)
  {
    var down := s.(action := Down);
    DownLaunches(down);
    LaunchesLater(s, ExitSeen, down);
  }

  // A restart that stops a dead process
  lemma StoppingLaunches(s: State)
    requires Inv(s) && s.action.Stopping? && !s.gone && s.exited[s.slot]
    ensures CanLaunch(s)
  {
    var failed, waiting := s.(action := StopFailed), s.(action := AwaitingExit);
    AwaitingLaunches(waiting);
    LaunchesLater(failed, KillSent, waiting);
    LaunchesLater(s, StopRefused, failed);
  }

  // A dead process, a free lock, and it is the action loop's turn
  lemma RestartLaunches(s: State)
    requires Inv(s) && s.Serves(ActionLoop) && !s.gone && s.exited[s.slot]
    ensures CanLaunch(s)
  {
    var stopping := After(s, RestartLocks).value;
    InvKept(s, RestartLocks);
    StoppingLaunches(stopping);
    LaunchesLater(s, RestartLocks, stopping);
  }

  lemma RecoveryLaunches(s: State)
    requires Inv(s) && Play(s, Recovery(s)).Some? && IsFresh(s, Play(s, Recovery(s)).value)
    ensures CanLaunch(s)
  {
  }

  lemma AttemptCanLaunch(s: State)
    requires Inv(s) && s.Serves(CrashSupervisor) && !s.gone && s.supervisor == Wanting(s.slot)
    ensures CanLaunch(s)
  {
    AttemptLaunches(s);
  }

  lemma {:induction false} DeadCanLaunch(s: State)
    requires Inv(s) && s.holder.Free? && !s.gone && s.exited[s.slot] && HasLauncher(s) && !ShutdownNext(s)
    ensures CanLaunch(s)
    decreases |s.queue|
  {
    if s.queue == [] {
      if s.supervisor.Ended? {
        var waiting := After(s, RestartBegins).value;
        InvKept(s, RestartBegins);
        RestartLaunches(waiting);
        LaunchesLater(s, RestartBegins, waiting);
      } else {
        CrashIsRecovered(s);
        RecoveryLaunches(s);
      }
    } else if s.queue[0] == ActionLoop {
      RestartLaunches(s);
    } else if IsStale(s) {
      var top := StaleGivesUp(s, []);
      DeadCanLaunch(top);
      var steps :| Play(top, steps).Some? && |Play(top, steps).value.exited| > |top.exited|;
      var again := StaleGivesUp(s, steps);
    } else {
      AttemptCanLaunch(s);
    }
  }

  // Nothing will ever be launched again: there is no one to do it, or a shutdown that will leave
  // has the lock, or one that will find a dead process gets it next
  ghost predicate IsOver(s: State)
    requires s.slot < |s.exited|
  {
    || s.gone || !HasLauncher(s)
    || (s.holder.ByShutdown? && (Sealed(s) || ShutdownNext(s)))
    || (s.holder.Free? && s.exited[s.slot] && ShutdownNext(s))
    || (s.supervisor.Checking? && s.supervisor.ref != s.slot && s.exited[s.slot]
        && |s.queue| > 0 && s.queue[0] == ShutdownTask)
  }

  lemma OverByAction(s: State, step: Step)
    requires Inv(s) && IsOver(s) && !s.gone && ActionStep(s, step).Some?
    ensures |ActionStep(s, step).value.exited| == |s.exited| && IsOver(ActionStep(s, step).value)
  {
  }

  lemma OverBySupervisor(s: State, step: Step)
    requires Inv(s) && IsOver(s) && !s.gone && SupervisorStep(s, step).Some?
    ensures |SupervisorStep(s, step).value.exited| == |s.exited| && IsOver(SupervisorStep(s, step).value)
  {
  }

  lemma OverByShutdown(s: State, step: Step)
    requires Inv(s) && IsOver(s) && !s.gone && ShutdownStep(s, step).Some?
    ensures |ShutdownStep(s, step).value.exited| == |s.exited| && IsOver(ShutdownStep(s, step).value)
  {
  }

  lemma IsOverStays(s: State, step: Step)
    requires Inv(s) && IsOver(s) && After(s, step).Some?
    ensures |After(s, step).value.exited| == |s.exited| && IsOver(After(s, step).value)
  {
    if step.ProcessExits? || step.Signal? {
    } else if ActionStep(s, step).Some? {
      OverByAction(s, step);
    } else if SupervisorStep(s, step).Some? {
      OverBySupervisor(s, step);
    } else {
      OverByShutdown(s, step);
    }
  }

  lemma {:induction false} OverNeverLaunches(s: State, steps: seq<Step>)
    requires Inv(s) && IsOver(s) && Play(s, steps).Some?
    ensures |Play(s, steps).value.exited| == |s.exited|
    decreases |steps|
  {
    if |steps| > 0 {
      IsOverStays(s, steps[0]);
      InvKept(s, steps[0]);
      OverNeverLaunches(After(s, steps[0]).value, steps[1..]);
    }
  }

  lemma OverCannotLaunch(s: State)
    requires Inv(s) && IsOver(s)
    ensures !CanLaunch(s)
  {
    forall steps | Play(s, steps).Some?
      ensures |Play(s, steps).value.exited| == |s.exited|
    {
      OverNeverLaunches(s, steps);
    }
  }

  /** When the process is dead and the lock free, something can be launched if and only if some
      task that launches is left and no shutdown gets the lock before all of them. */
  lemma CrashIsAnsweredIff(s: State)
    requires Inv(s) && s.holder.Free? && !s.gone && s.exited[s.slot]
    ensures CanLaunch(s) <==> HasLauncher(s) && !ShutdownNext(s)
  {
    if HasLauncher(s) && !ShutdownNext(s) {
      DeadCanLaunch(s);
    } else {
      OverCannotLaunch(s);
    }
  }

  // s without its shutdown task, and with its process dead
  function Abandoned(s: State): State
    requires s.slot < |s.exited|
  {
    s.(shutdown := Absent, holder := Free, exited := s.exited[s.slot := true])
  }

  // terminate() or kill() raises on a process that has exited by then
  lemma RaisingCanLaunch(s: State)
    requires Inv(s) && !s.gone && (s.shutdown.Terminating? || s.shutdown.Killing?)
    requires HasLauncher(s) && !ShutdownNext(s)
    ensures CanLaunch(s)
  {
    var dead, free := s.(exited := s.exited[s.slot := true]), Abandoned(s);
    assert s.exited[s.slot] ==> s.exited[s.slot := true] == s.exited;
    if !s.exited[s.slot] {
      InvKept(s, ProcessExits(s.slot));
    }
    InvKept(dead, ShutdownRaises);
    DeadCanLaunch(free);
    LaunchesLater(dead, ShutdownRaises, free);
    if !s.exited[s.slot] {
      LaunchesLater(s, ProcessExits(s.slot), dead);
    }
  }

  lemma RefusedCanLaunch(s: State)
    requires Inv(s) && s.shutdown.Asking? && !s.gone && HasLauncher(s) && !ShutdownNext(s)
    ensures CanLaunch(s)
  {
    var terminating := s.(shutdown := Terminating);
    RaisingCanLaunch(terminating);
    LaunchesLater(s, ShutdownRefused, terminating);
  }

  lemma UnsealedCanLaunch(s: State)
    requires Inv(s) && s.holder.ByShutdown? && !Sealed(s) && HasLauncher(s) && !ShutdownNext(s)
    ensures CanLaunch(s)
  {
    match s.shutdown
    case Looking =>
      var asking := s.(shutdown := Asking);
      RefusedCanLaunch(asking);
      LaunchesLater(s, ShutdownLooks, asking);
    case Asking =>
      RefusedCanLaunch(s);
    case Watching =>
      var killing := s.(shutdown := Killing);
      RaisingCanLaunch(killing);
      LaunchesLater(s, ShutdownTimesOut, killing);
    case _ =>
      RaisingCanLaunch(s);
  }

  /** Whether a shutdown that has the lock can be undone can be read off the state: something can
      still be launched if and only if the shutdown may still come to terminate or kill the
      process, some task that launches is left, and no other shutdown is ahead of all of them in
      the queue. */
  lemma ShutdownCanBeUndoneIff(s: State)
    requires Inv(s) && s.holder.ByShutdown?
    ensures CanLaunch(s) <==> !Sealed(s) && HasLauncher(s) && !ShutdownNext(s)
  {
    if !Sealed(s) && HasLauncher(s) && !ShutdownNext(s) {
      UnsealedCanLaunch(s);
    } else {
      OverCannotLaunch(s);
    }
  }

  // The state in which a shutdown task found the process alive, and the one a raise leaves
  const START := Start(true)
  const ASKED: State := START.(shutdown := Asking, holder := ByShutdown)
  const UNDONE: State := START.(exited := [true])

  /** A shutdown finds the process alive, the process crashes, the stop call fails and
      terminate() raises on the dead process: the shutdown ends without exiting. */
  const CRASH_THEN_RAISE: seq<Step> := [ProcessExits(0), ShutdownRefused, ShutdownRaises]

  lemma ShutdownAsks()
    ensures Play(START, [Signal, ShutdownLocks, ShutdownLooks]) == Some(ASKED)
  {
    var signalled := START.(queue := [ShutdownTask]);
    assert START.queue + [ShutdownTask] == [ShutdownTask] && [ShutdownTask][1..] == [];
    var looking := START.(shutdown := Looking, holder := ByShutdown);
    PlayOne(START, Signal, [ShutdownLocks, ShutdownLooks], signalled);
    PlayOne(signalled, ShutdownLocks, [ShutdownLooks], looking);
    PlayOne(looking, ShutdownLooks, [], ASKED);
    assert [Signal, ShutdownLocks, ShutdownLooks] == [Signal] + [ShutdownLocks, ShutdownLooks];
    assert [ShutdownLocks, ShutdownLooks] == [ShutdownLocks] + [ShutdownLooks];
    assert [ShutdownLooks] == [ShutdownLooks] + [];
  }

  lemma ShutdownRaisesAway()
    ensures Play(ASKED, CRASH_THEN_RAISE) == Some(UNDONE)
  {
    var crashed := ASKED.(exited := ASKED.exited[0 := true]);
    assert crashed.exited == [true];
    var terminating := crashed.(shutdown := Terminating);
    PlayOne(ASKED, ProcessExits(0), [ShutdownRefused, ShutdownRaises], crashed);
    PlayOne(crashed, ShutdownRefused, [ShutdownRaises], terminating);
    PlayOne(terminating, ShutdownRaises, [], UNDONE);
    assert CRASH_THEN_RAISE == [ProcessExits(0)] + [ShutdownRefused, ShutdownRaises];
    assert [ShutdownRefused, ShutdownRaises] == [ShutdownRefused] + [ShutdownRaises];
    assert [ShutdownRaises] == [ShutdownRaises] + [];
  }

  /** So the hypothesis of NoLaunchAfterShutdown cannot be dropped: after such a shutdown the
      supervisor starts the process again. */
  lemma RaisingShutdownIsUndone()
    ensures Play(START, [Signal, ShutdownLocks, ShutdownLooks]) == Some(ASKED)
    ensures Play(ASKED, CRASH_THEN_RAISE) == Some(UNDONE)
    ensures Play(UNDONE, Recovery(UNDONE)).Some?
    ensures IsFresh(UNDONE, Play(UNDONE, Recovery(UNDONE)).value)
  {
    ShutdownAsks();
    ShutdownRaisesAway();
    CrashIsRecovered(UNDONE);
  }
}
